/** Literal pieces of a regular expression, matched character by
    character, and the left-to-right scan a regular-expression engine makes
    for them. Shared by the engines that match delimited spans. */
module TextScan {
  import opened PyStr

  /** The test for a literal piece of a pattern: `pat` stands in `text`
      at index `i`, character by character. */
  predicate Matches(text: String, pat: String, i: int) {
    0 <= i && i + |pat| <= |text| && forall t :: 0 <= t < |pat| ==> text[i + t] == pat[t]
  }

  /** The same relation as `str`'s notion of an occurrence. */
  lemma MatchesIsOccursAt(text: String, pat: String, i: int)
    ensures Matches(text, pat, i) <==> OccursAt(text, pat, i)
  {
    if Matches(text, pat, i) {
      forall t | 0 <= t < |pat| ensures text[i..i + |pat|][t] == pat[t] {
        assert text[i + t] == pat[t];
      }
    }
    if OccursAt(text, pat, i) {
      forall t | 0 <= t < |pat| ensures text[i + t] == pat[t] {
        assert text[i..i + |pat|][t] == pat[t];
      }
    }
  }

  /** A pattern made of two parts stands where its parts stand one after
      the other. */
  lemma MatchesConcat(text: String, x: String, y: String, p: nat)
    ensures Matches(text, x + y, p) <==> Matches(text, x, p) && Matches(text, y, p + |x|)
  {
    if Matches(text, x, p) && Matches(text, y, p + |x|) {
      forall t | 0 <= t < |x + y| ensures text[p + t] == (x + y)[t] {
        if t >= |x| {
          assert text[p + |x| + (t - |x|)] == y[t - |x|];
        }
      }
    }
    if Matches(text, x + y, p) {
      forall t | 0 <= t < |x| ensures text[p + t] == x[t] {
        assert text[p + t] == (x + y)[t];
      }
      forall t | 0 <= t < |y| ensures text[p + |x| + t] == y[t] {
        assert text[p + (|x| + t)] == (x + y)[|x| + t];
      }
    }
  }

  /** Inside a stretch `x` of the text, a piece stands at an offset of the
      stretch exactly when it stands at the same offset of `x`. */
  lemma MatchesShift(text: String, x: String, p: nat, k: nat, d: String)
    requires Matches(text, x, p) && k + |d| <= |x|
    ensures Matches(text, d, p + k) <==> Matches(x, d, k)
  {
    if Matches(text, d, p + k) {
      forall t | 0 <= t < |d| ensures x[k + t] == d[t] {
        assert text[p + (k + t)] == x[k + t];
      }
    }
    if Matches(x, d, k) {
      forall t | 0 <= t < |d| ensures text[p + k + t] == d[t] {
        assert text[p + (k + t)] == x[k + t];
      }
    }
  }

  /** What stands at `p` is the slice from `p`. */
  lemma MatchesSlice(text: String, x: String, p: nat)
    requires Matches(text, x, p)
    ensures text[p..p + |x|] == x
  {
    forall t | 0 <= t < |x| ensures text[p..p + |x|][t] == x[t] {
      assert text[p + t] == x[t];
    }
  }

  /** A slice stands where it was cut from. */
  lemma SliceMatches(text: String, lo: nat, hi: nat)
    requires lo <= hi <= |text|
    ensures Matches(text, text[lo..hi], lo)
  {
    forall t | 0 <= t < hi - lo ensures text[lo + t] == text[lo..hi][t] {
    }
  }

  /** The scan for a literal piece from `from` on: the first index where it
      stands, or -1. */
  function Search(text: String, pat: String, from: nat): (r: int)
    ensures r == -1 || (from <= r && Matches(text, pat, r))
    ensures forall k :: from <= k && (r == -1 || k < r) ==> !Matches(text, pat, k)
    decreases |text| + 1 - from
  {
    if from > |text| then -1
    else if Matches(text, pat, from) then from
    else Search(text, pat, from + 1)
  }

  /** The scan stops at the first place the piece stands. */
  lemma SearchFirst(text: String, pat: String, from: nat, i: nat)
    requires from <= i && Matches(text, pat, i)
    requires forall k :: from <= k < i ==> !Matches(text, pat, k)
    ensures Search(text, pat, from) == i
  {
    var f := Search(text, pat, from);
    assert f != -1 by {
      assert !(from <= i && (f == -1 || i < f)) || !Matches(text, pat, i);
    }
  }


  /** A piece stands in a suffix of the text where it stands in the text,
      shifted by the length cut off. */
  lemma MatchesDrop(text: String, pat: String, k: nat, q: nat)
    requires k <= |text|
    ensures Matches(text[k..], pat, q) <==> Matches(text, pat, k + q)
  {
    if Matches(text[k..], pat, q) {
      forall t | 0 <= t < |pat| ensures text[k + q + t] == pat[t] {
        assert text[k..][q + t] == pat[t];
      }
    }
    if Matches(text, pat, k + q) {
      forall t | 0 <= t < |pat| ensures text[k..][q + t] == pat[t] {
        assert text[k + (q + t)] == pat[t];
      }
    }
  }
}
