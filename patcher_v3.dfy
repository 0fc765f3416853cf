/** PatcherV3: applies a range-less unified diff hunk by hunk. Each hunk's
    `before` text must occur exactly once in the current content (counted
    with overlap); the first failing hunk aborts the whole call. */
module PatcherV3 {
  import opened PyStr
  import opened Wrappers
  import opened DiffHunks

  /** `NoMatchError` and `MultipleMatchesError`, the two kinds of `PatchError`. */
  datatype PatchError = NoMatch | MultipleMatches

  /** What `_apply_single_hunk` returns or raises. */
  function SingleHunkOutcome(content: String, before: String, after: String): Result<String, PatchError> {
    if Strip(before) == [] then Ok(content + after)
    else
      var matches := AllMatches(content, before);
      if |matches| == 0 then Err(NoMatch)
      else if |matches| > 1 then Err(MultipleMatches)
      else Ok(Splice(content, matches[0], |before|, after))
  }

  /** `_apply_single_hunk(content, before, after)` */
  method ApplySingleHunk(content: String, before: String, after: String) returns (r: Result<String, PatchError>)
    ensures r == SingleHunkOutcome(content, before, after)
  {
    if Strip(before) == [] {
      return Ok(content + after);
    }
    var matches := CollectMatches(content, before);
    if |matches| == 0 {
      return Err(NoMatch);
    }
    if |matches| > 1 {
      return Err(MultipleMatches);
    }
    var start := matches[0];
    var end := start + |before|;
    r := Ok(Prefix(content, start) + after + Suffix(content, end));
  }

  /** A whitespace-only `before` appends `after` to the content. */
  lemma BlankBeforeAppends(content: String, before: String, after: String)
    requires AllSpace(before)
    ensures SingleHunkOutcome(content, before, after) == Ok(content + after)
  {
    StripEmptyIffAllSpace(before);
  }

  /** Otherwise the hunk fails with `NoMatch` exactly when `before` does not
      occur in the content. */
  lemma NoMatchIffAbsent(content: String, before: String, after: String)
    requires !AllSpace(before)
    ensures SingleHunkOutcome(content, before, after) == Err(NoMatch) <==> Occurrences(content, before) == {}
  {
    StripEmptyIffAllSpace(before);
    MatchCountDecidesUniqueness(content, before);
  }

  /** It fails with `MultipleMatches` exactly when `before` occurs at two
      distinct indices, overlapping occurrences included. */
  lemma MultipleIffTwoOccurrences(content: String, before: String, after: String)
    requires !AllSpace(before)
    ensures SingleHunkOutcome(content, before, after) == Err(MultipleMatches) <==>
      exists i, j :: i in Occurrences(content, before) && j in Occurrences(content, before) && i != j
  {
    StripEmptyIffAllSpace(before);
    MatchCountDecidesUniqueness(content, before);
    if exists i, j :: i in Occurrences(content, before) && j in Occurrences(content, before) && i != j {
      var i, j :| i in Occurrences(content, before) && j in Occurrences(content, before) && i != j;
      TwoOccurrencesTwoMatches(content, before, i, j);
    }
  }

  /** When it succeeds, `before` occurs exactly once and that occurrence is
      replaced by `after`, with every character outside it kept. */
  lemma SuccessReplacesTheOccurrence(content: String, before: String, after: String)
    requires !AllSpace(before) && SingleHunkOutcome(content, before, after).Ok?
    ensures exists start ::
      (Occurrences(content, before) == {start} &&
       SingleHunkOutcome(content, before, after).value == content[..start] + after + content[start + |before|..])
  {
    StripEmptyIffAllSpace(before);
    MatchCountDecidesUniqueness(content, before);
    var start := AllMatches(content, before)[0];
    assert start in Occurrences(content, before);
    OccurrenceSplits(content, before, start);
    var head, tail := content[..start], content[start + |before|..];
    UniqueMatchIsReplaced(head, before, tail, after);
    assert Occurrences(content, before) == {start} &&
      SingleHunkOutcome(content, before, after).value == head + after + tail;
  }

  /** A unique match at `at` is replaced by `after`. */
  lemma UniqueMatchIsReplaced(head: String, before: String, tail: String, after: String)
    requires !AllSpace(before) && AllMatches(head + before + tail, before) == [|head|]
    ensures SingleHunkOutcome(head + before + tail, before, after) == Ok(head + after + tail)
  {
    StripEmptyIffAllSpace(before);
    SpliceMiddle(head, before, tail, after);
  }

  /** A unique match at the very start is replaced by `after`. */
  lemma UniqueMatchAtStartIsReplaced(before: String, tail: String, after: String)
    requires !AllSpace(before) && AllMatches(before + tail, before) == [0]
    ensures SingleHunkOutcome(before + tail, before, after) == Ok(after + tail)
  {
    StripEmptyIffAllSpace(before);
    SpliceFront(before, tail, after);
  }

  /** What trying one hunk on the current content gives. */
  type HunkStep = (String, Hunk) -> Result<String, PatchError>

  /** `_apply_single_hunk` applied to the projection of a hunk. */
  function ApplyStep(): HunkStep {
    (content: String, h: Hunk) => SingleHunkOutcome(content, BeforeText(h), AfterText(h))
  }

  /** Threads the content through the hunks in order; the first error wins.
      `step` says what one hunk does, so the threading is stated apart from
      how a hunk is located. */
  function ApplyHunks(content: String, hunks: seq<Hunk>, step: HunkStep): Result<String, PatchError>
    decreases |hunks|
  {
    if hunks == [] then Ok(content)
    else match step(content, hunks[0])
      case Err(e) => Err(e)
      case Ok(next) => ApplyHunks(next, hunks[1..], step)
  }

  /** `PatcherV3().apply_patch(original_content, udiff)` */
  method ApplyPatch(originalContent: String, udiff: String) returns (r: Result<String, PatchError>)
    ensures r == ApplyHunks(originalContent, Hunks(SplitLinesKeepEnds(udiff)), ApplyStep())
  {
    var hunks := ParseHunks(udiff);
    HunksWellFormed(SplitLinesKeepEnds(udiff));
    r := ApplyAll(originalContent, hunks);
  }

  /** The loop of `apply_patch`: the hunks in order, each on the content the
      previous one produced, stopping at the first error. */
  method ApplyAll(originalContent: String, hunks: seq<Hunk>) returns (r: Result<String, PatchError>)
    requires forall k :: 0 <= k < |hunks| ==> WellFormedHunk(hunks[k])
    ensures r == ApplyHunks(originalContent, hunks, ApplyStep())
  {
    ghost var step := ApplyStep();
    var current := originalContent;
    var i := 0;
    assert hunks[0..] == hunks;
    while i < |hunks|
      invariant 0 <= i <= |hunks|
      invariant ApplyHunks(originalContent, hunks, step) == ApplyHunks(current, hunks[i..], step)
    {
      var outcome := TryHunk(current, hunks[i]);
      assert hunks[i..][0] == hunks[i] && hunks[i..][1..] == hunks[i + 1..];
      if outcome.Err? {
        return Err(outcome.error);
      }
      current := outcome.value;
      i := i + 1;
    }
    assert hunks[i..] == [];
    r := Ok(current);
  }

  /** One turn of the loop: the hunk is projected and applied. */
  method TryHunk(content: String, hunk: Hunk) returns (r: Result<String, PatchError>)
    requires WellFormedHunk(hunk)
    ensures r == ApplyStep()(content, hunk)
  {
    var before, after := HunkToBeforeAfter(hunk);
    r := ApplySingleHunk(content, before, after);
  }

  /** Hunks are located against the progressively edited content: applying
      `hs1 + hs2` is applying `hs1`, then `hs2` to its result. */
  lemma {:induction false} ApplyHunksSequential(content: String, hs1: seq<Hunk>, hs2: seq<Hunk>, step: HunkStep)
    ensures ApplyHunks(content, hs1 + hs2, step) ==
      match ApplyHunks(content, hs1, step)
      case Err(e) => Err(e)
      case Ok(mid) => ApplyHunks(mid, hs2, step)
    decreases |hs1|
  {
    if hs1 == [] {
      assert hs1 + hs2 == hs2;
    } else {
      assert (hs1 + hs2)[0] == hs1[0];
      assert (hs1 + hs2)[1..] == hs1[1..] + hs2;
      match step(content, hs1[0]) {
        case Err(e) =>
        case Ok(next) => ApplyHunksSequential(next, hs1[1..], hs2, step);
      }
    }
  }

  /** Two hunks that each apply cleanly apply one after the other. */
  lemma TwoHunks(content: String, h1: Hunk, h2: Hunk, mid: String, result: String, step: HunkStep)
    requires step(content, h1) == Ok(mid) && step(mid, h2) == Ok(result)
    ensures ApplyHunks(content, [h1, h2], step) == Ok(result)
  {
    assert [h2][0] == h2 && [h2][1..] == [];
    assert ApplyHunks(mid, [h2], step) == Ok(result);
    assert [h1, h2][0] == h1 && [h1, h2][1..] == [h2];
  }

  /** A hunk whose `before` equals its `after` and matches once changes nothing. */
  lemma PureContextHunkIsIdentity(content: String, text: String)
    requires !AllSpace(text) && |AllMatches(content, text)| == 1
    ensures SingleHunkOutcome(content, text, text) == Ok(content)
  {
    StripEmptyIffAllSpace(text);
    MatchesFromExact(content, text, 0);
    SpliceSame(content, text, AllMatches(content, text)[0]);
  }
}
