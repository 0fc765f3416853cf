/** UnifiedDiffPatcher (patcher_v2.py, the same code under aicoder/ and
    phpcomment/): the whole diff is one hunk. Its `before` text must be found,
    and `str.count` (non-overlapping) must not see it twice; the unique match
    is replaced by `after`. Every failure is a `ValueError` whose message is
    modelled as a string. */
module UnifiedDiffPatcher {
  import opened PyStr
  import opened Wrappers
  import opened DiffHunks

  /** The message of the `ValueError` raised when `before` is not found. */
  function NotFoundMessage(before: String): String {
    "'before' text not found in content:\n" + before
  }

  /** The message of the `ValueError` raised when `before` is counted twice. */
  function MultipleMessage(before: String): String {
    "Multiple matches found for 'before' text:\n" + before
  }

  /** The prefix `apply_patch` puts in front of the message it re-raises. */
  const FailurePrefix: String := "Failed to apply patch: "

  /** `_hunk_to_before_after(diff)`: every line of the diff, its end kept,
      is projected; headers, blank lines and `@@` lines are not special. */
  method HunkToBeforeAfter(diff: String) returns (before: String, after: String)
    ensures before == BeforeText(SplitLinesKeepEnds(diff)) && after == AfterText(SplitLinesKeepEnds(diff))
  {
    var lines := SplitLinesKeepEnds(diff);
    SplitLinesKeepEndsJoin(diff);
    before, after := DiffHunks.HunkToBeforeAfter(lines);
  }

  /** `_apply_hunk(content, before, after)`: the content, or the message of
      the `ValueError` it raises. */
  function ApplyHunk(content: String, before: String, after: String): Result<String, String> {
    var start := Find(content, before, 0);
    if start == -1 then Err(NotFoundMessage(before))
    else if Count(content, before) > 1 then Err(MultipleMessage(before))
    else Ok(Splice(content, start, |before|, after))
  }

  /** `apply_patch(original_content, unified_diff)` */
  method ApplyPatch(originalContent: String, unifiedDiff: String) returns (r: Result<String, String>)
    ensures r == PatchOutcome(originalContent, unifiedDiff)
  {
    var before, after := HunkToBeforeAfter(unifiedDiff);
    var outcome := ApplyHunk(originalContent, before, after);
    if outcome.Err? {
      return Err(FailurePrefix + outcome.error);
    }
    r := Ok(outcome.value);
  }

  /** What `apply_patch` returns, or the message of the `ValueError` it raises. */
  function PatchOutcome(originalContent: String, unifiedDiff: String): Result<String, String> {
    var lines := SplitLinesKeepEnds(unifiedDiff);
    match ApplyHunk(originalContent, BeforeText(lines), AfterText(lines))
    case Ok(c) => Ok(c)
    case Err(m) => Err(FailurePrefix + m)
  }

  /** The hunk fails as not found exactly when `before` does not occur. */
  lemma NotFoundIffAbsent(content: String, before: String, after: String)
    ensures ApplyHunk(content, before, after) == Err(NotFoundMessage(before)) <==>
      Occurrences(content, before) == {}
  {
    var start := Find(content, before, 0);
    assert forall i :: i in Occurrences(content, before) ==> OccursAt(content, before, i);
    assert NotFoundMessage(before)[0] != MultipleMessage(before)[0];
    if start != -1 {
      assert start in Occurrences(content, before);
    }
  }

  /** Two occurrences that do not overlap make the hunk ambiguous. */
  lemma DisjointOccurrencesAreAmbiguous(content: String, before: String, after: String, i: nat, j: nat)
    requires OccursAt(content, before, i) && OccursAt(content, before, j) && i < j && i + |before| <= j
    ensures ApplyHunk(content, before, after) == Err(MultipleMessage(before))
  {
    if before == [] {
      assert |content| >= j > 0;
    } else {
      CountPositiveIffFound(content, before);
      if Count(content, before) == 1 {
        CountOneMeansOverlapping(content, before, i);
        CountOneMeansOverlapping(content, before, j);
      }
    }
  }

  /** For a non-empty `before`, the hunk is ambiguous exactly when `before`
      occurs twice without overlap. */
  lemma AmbiguousIffDisjointOccurrences(content: String, before: String, after: String)
    requires before != []
    ensures ApplyHunk(content, before, after) == Err(MultipleMessage(before)) <==>
      exists i, j :: OccursAt(content, before, i) && OccursAt(content, before, j) && i + |before| <= j
  {
    assert NotFoundMessage(before)[0] != MultipleMessage(before)[0];
    var f := Find(content, before, 0);
    if ApplyHunk(content, before, after) == Err(MultipleMessage(before)) {
      CountFromFind(content, before, 0);
      CountFromFind(content, before, f + |before|);
      var j := Find(content, before, f + |before|);
      assert OccursAt(content, before, f) && OccursAt(content, before, j) && f + |before| <= j;
    }
    if exists i, j :: OccursAt(content, before, i) && OccursAt(content, before, j) && i + |before| <= j {
      var i, j :| OccursAt(content, before, i) && OccursAt(content, before, j) && i + |before| <= j;
      DisjointOccurrencesAreAmbiguous(content, before, after, i, j);
    }
  }

  /** On success the leftmost occurrence is replaced, every character
      outside it is kept, and every other occurrence overlaps it. */
  lemma SuccessReplacesLeftmost(content: String, before: String, after: String)
    requires ApplyHunk(content, before, after).Ok?
    ensures exists start ::
      (OccursAt(content, before, start) &&
       (forall i :: 0 <= i < start ==> !OccursAt(content, before, i)) &&
       (forall i :: OccursAt(content, before, i) && i != start ==> start < i < start + |before|) &&
       ApplyHunk(content, before, after).value == content[..start] + after + content[start + |before|..])
  {
    var start := Find(content, before, 0);
    assert OccursAt(content, before, start);
    if before != [] {
      CountPositiveIffFound(content, before);
      forall i | OccursAt(content, before, i) ensures i < start + |before| {
        CountOneMeansOverlapping(content, before, i);
      }
    }
    assert ApplyHunk(content, before, after).value == content[..start] + after + content[start + |before|..];
  }

  /** `str.count` does not see overlapping occurrences: "aa" occurs twice in
      "aaa", yet the hunk is applied at the first one. */
  lemma OverlapCountsAsUnique()
    ensures Occurrences("aaa", "aa") == {0, 1}
    ensures ApplyHunk("aaa", "aa", "b") == Ok("ba")
  {
    assert OccursAt("aaa", "aa", 0) && OccursAt("aaa", "aa", 1);
    assert !OccursAt("aaa", "aa", 2) && !OccursAt("aaa", "aa", 3);
    assert Find("aaa", "aa", 0) == 0;
    assert Count("aaa", "aa") == 1;
    assert Prefix("aaa", 0) == [] && Suffix("aaa", 2) == "a";
    assert Splice("aaa", 0, 2, "b") == "ba";
  }

  /** An empty `before` is counted `len(content) + 1` times: it applies only
      to empty content, where the result is `after`. */
  lemma EmptyBefore(content: String, after: String)
    ensures content == [] ==> ApplyHunk(content, [], after) == Ok(after)
    ensures content != [] ==> ApplyHunk(content, [], after) == Err(MultipleMessage([]))
  {
    assert OccursAt(content, [], 0);
    assert Find(content, [], 0) == 0;
    if content == [] {
      assert Count(content, []) == 1;
      assert Prefix(content, 0) == [] && Suffix(content, 0) == [];
      assert Splice(content, 0, 0, after) == after;
    }
  }

  /** Every failure of `apply_patch` carries the prefix and the message of
      the hunk failure; success is the hunk's result unchanged. */
  lemma FailuresAreWrapped(originalContent: String, unifiedDiff: String)
    ensures PatchOutcome(originalContent, unifiedDiff).Err? ==>
      StartsWith(PatchOutcome(originalContent, unifiedDiff).error, FailurePrefix)
    ensures var lines := SplitLinesKeepEnds(unifiedDiff);
      var hunk := ApplyHunk(originalContent, BeforeText(lines), AfterText(lines));
      (hunk.Ok? <==> PatchOutcome(originalContent, unifiedDiff).Ok?) &&
      (hunk.Ok? ==> PatchOutcome(originalContent, unifiedDiff).value == hunk.value)
  {
    var lines := SplitLinesKeepEnds(unifiedDiff);
    var hunk := ApplyHunk(originalContent, BeforeText(lines), AfterText(lines));
    if hunk.Err? {
      assert (FailurePrefix + hunk.error)[..|FailurePrefix|] == FailurePrefix;
    }
  }

  /** Headers are not skipped: a "--- a/x" line feeds "-- a/x" to `before`
      and nothing to `after`. */
  lemma HeaderFeedsBefore(rest: String)
    ensures BeforeText(["---" + rest]) == "--" + rest
    ensures AfterText(["---" + rest]) == []
  {
    ProjectionOfLine("---" + rest);
    assert ("---" + rest)[1..] == "--" + rest;
  }
}
