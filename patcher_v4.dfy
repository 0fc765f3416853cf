/** PatcherV4: the PatcherV3 pipeline plus newline normalisation, a
    whitespace-collapsed retry, an optional fuzzy locator and a
    `continue_on_error` policy. Hunk assembly and the before/after projection
    are the ones of module DiffHunks. */
module PatcherV4 {
  import opened PyStr
  import opened Wrappers
  import opened DiffHunks
  import PatcherV3

  /** `NoMatchError` and `MultipleMatchesError` of patcher_v4.py. */
  datatype PatchError = NoMatch | MultipleMatches

  /** The fuzzy locator (difflib's matching blocks and ratios): given
      `before` and the lines of the content, the index of the best-matching
      content line, or None when no block scores above the threshold. */
  type FuzzyOracle = (String, seq<String>) -> Option<nat>

  /** `text.replace('\r\n', '\n').replace('\r', '\n')` */
  function NormalizeNewlines(text: String): String {
    ReplaceAll(ReplaceAll(text, "\r\n", "\n"), "\r", "\n")
  }

  /** The normalised text holds no carriage return. */
  lemma NormalizedHasNoCR(text: String)
    ensures '\r' !in NormalizeNewlines(text)
  {
    ReplaceAllRemovesChar(ReplaceAll(text, "\r\n", "\n"), '\r', "\n");
  }

  /** Text without carriage returns is left as it is, so normalising twice
      is normalising once. */
  lemma NormalizeWithoutCR(text: String)
    requires '\r' !in text
    ensures NormalizeNewlines(text) == text
  {
    ReplaceAllAbsent(text, "\r\n", "\n");
    ReplaceAllAbsent(text, "\r", "\n");
  }

  lemma NormalizeIdempotent(text: String)
    ensures NormalizeNewlines(NormalizeNewlines(text)) == NormalizeNewlines(text)
  {
    NormalizedHasNoCR(text);
    NormalizeWithoutCR(NormalizeNewlines(text));
  }

  /** At the first carriage return, a CRLF pair becomes one '\n'. */
  lemma NormalizeCRLF(x: String, y: String)
    requires '\r' !in x
    ensures NormalizeNewlines(x + "\r\n" + y) == x + "\n" + NormalizeNewlines(y)
  {
    var inner := ReplaceAll(y, "\r\n", "\n");
    assert x + "\r\n" + y == x + ("\r\n" + y);
    ReplaceAllFreePrefix(x, "\r\n", "\n", "\r\n" + y);
    ReplaceAllAtFront("\r\n", "\n", y);
    assert x + ("\n" + inner) == (x + "\n") + inner;
    ReplaceAllFreePrefix(x + "\n", "\r", "\n", inner);
  }

  /** At the first carriage return, a lone CR becomes '\n'. */
  lemma NormalizeLoneCR(x: String, y: String)
    requires '\r' !in x
    requires y == [] || y[0] != '\n'
    ensures NormalizeNewlines(x + "\r" + y) == x + "\n" + NormalizeNewlines(y)
  {
    var inner := ReplaceAll(y, "\r\n", "\n");
    assert x + "\r" + y == x + ("\r" + y);
    ReplaceAllFreePrefix(x, "\r\n", "\n", "\r" + y);
    assert !StartsWith("\r" + y, "\r\n") by {
      if 2 <= |"\r" + y| {
        assert ("\r" + y)[1] == y[0];
      }
    }
    assert ("\r" + y)[1..] == y;
    assert ReplaceAll("\r" + y, "\r\n", "\n") == "\r" + inner;
    assert x + ("\r" + inner) == x + "\r" + inner;
    ReplaceAllFreePrefix(x, "\r", "\n", "\r" + inner);
    ReplaceAllAtFront("\r", "\n", inner);
  }

  /** `sum(len(line) + 1 for line in content_lines[:j])`: the offset of line
      `j` when every line ends in a single-character break. */
  function LineOffset(lines: seq<String>, j: nat): nat
    decreases |lines|
  {
    if j == 0 || lines == [] then 0 else |lines[0]| + 1 + LineOffset(lines[1..], j - 1)
  }

  /** On text made of '\n'-joined lines, the offset of line `j` is where
      that line starts. */
  lemma {:induction false} LineOffsetStartsLine(lines: seq<String>, j: nat)
    requires j < |lines|
    ensures LineOffset(lines, j) + |lines[j]| <= |Join("\n", lines)|
    ensures Join("\n", lines)[LineOffset(lines, j)..LineOffset(lines, j) + |lines[j]|] == lines[j]
    decreases j
  {
    if j == 0 {
      if |lines| > 1 {
        assert Join("\n", lines) == lines[0] + ("\n" + Join("\n", lines[1..]));
      }
    } else {
      LineOffsetStartsLine(lines[1..], j - 1);
      var rest := Join("\n", lines[1..]);
      var off := LineOffset(lines[1..], j - 1);
      assert Join("\n", lines) == (lines[0] + "\n") + rest;
      assert Join("\n", lines)[|lines[0]| + 1 + off..|lines[0]| + 1 + off + |lines[j]|] ==
        rest[off..off + |lines[j]|];
    }
  }

  /** What `_find_best_match` returns or raises. */
  function BestMatch(content: String, before: String, fuzzyMatch: bool, fuzzy: FuzzyOracle): Result<nat, PatchError> {
    if Strip(before) == [] then Ok(|content|)
    else
      var matches := AllMatches(content, before);
      if |matches| == 1 then Ok(matches[0])
      else if |matches| > 1 then Err(MultipleMatches)
      else if !fuzzyMatch then Err(NoMatch)
      else
        var lines := SplitLines(content);
        match fuzzy(before, lines)
        case None => Err(NoMatch)
        case Some(j) => Ok(LineOffset(lines, j))
  }

  /** `_find_best_match(content, before)` */
  method FindBestMatch(content: String, before: String, fuzzyMatch: bool, fuzzy: FuzzyOracle)
    returns (r: Result<nat, PatchError>)
    ensures r == BestMatch(content, before, fuzzyMatch, fuzzy)
  {
    if Strip(before) == [] {
      return Ok(|content|);
    }
    var exactMatches := CollectMatches(content, before);
    if |exactMatches| == 1 {
      return Ok(exactMatches[0]);
    } else if |exactMatches| > 1 {
      return Err(MultipleMatches);
    }
    if !fuzzyMatch {
      return Err(NoMatch);
    }
    var contentLines := SplitLines(content);
    var best := fuzzy(before, contentLines);
    if best.None? {
      return Err(NoMatch);
    }
    r := Ok(LineOffset(contentLines, best.value));
  }

  /** What `_apply_single_hunk` returns or raises. */
  function SingleHunkOutcome(content: String, before: String, after: String, fuzzyMatch: bool, fuzzy: FuzzyOracle)
    : Result<String, PatchError>
  {
    match BestMatch(content, before, fuzzyMatch, fuzzy)
    case Ok(start) => Ok(Splice(content, start, |before|, after))
    case Err(MultipleMatches) => Err(MultipleMatches)
    case Err(NoMatch) => RetryOutcome(content, before, after, fuzzyMatch, fuzzy)
  }

  /** The `except NoMatchError` branch: when whitespace-collapsed `before`
      occurs in whitespace-collapsed content, `before.strip()` is located
      and `len(before)` characters are replaced from there. */
  function RetryOutcome(content: String, before: String, after: String, fuzzyMatch: bool, fuzzy: FuzzyOracle)
    : Result<String, PatchError>
  {
    if Find(CollapseSpaces(content), CollapseSpaces(before), 0) == -1 then Err(NoMatch)
    else
      match BestMatch(content, Strip(before), fuzzyMatch, fuzzy)
      case Ok(start) => Ok(Splice(content, start, |before|, after))
      case Err(e) => Err(e)
  }

  /** `_apply_single_hunk(content, before, after)` */
  method ApplySingleHunk(content: String, before: String, after: String, fuzzyMatch: bool, fuzzy: FuzzyOracle)
    returns (r: Result<String, PatchError>)
    ensures r == SingleHunkOutcome(content, before, after, fuzzyMatch, fuzzy)
  {
    var found := FindBestMatch(content, before, fuzzyMatch, fuzzy);
    if found.Ok? {
      var start := found.value;
      var end := start + |before|;
      return Ok(Prefix(content, start) + after + Suffix(content, end));
    }
    if found.error == MultipleMatches {
      return Err(MultipleMatches);
    }
    r := Retry(content, before, after, fuzzyMatch, fuzzy);
  }

  /** The `except NoMatchError` branch of `_apply_single_hunk`. */
  method Retry(content: String, before: String, after: String, fuzzyMatch: bool, fuzzy: FuzzyOracle)
    returns (r: Result<String, PatchError>)
    ensures r == RetryOutcome(content, before, after, fuzzyMatch, fuzzy)
  {
    var normalizedContent := CollapseSpaces(content);
    var normalizedBefore := CollapseSpaces(before);
    if Find(normalizedContent, normalizedBefore, 0) == -1 {
      return Err(NoMatch);
    }
    var retry := FindBestMatch(content, Strip(before), fuzzyMatch, fuzzy);
    if retry.Err? {
      return Err(retry.error);
    }
    var start := retry.value;
    var end := start + |before|;
    r := Ok(Prefix(content, start) + after + Suffix(content, end));
  }

  /** A whitespace-only `before` appends `after` to the content. */
  lemma BlankBeforeAppends(content: String, before: String, after: String, fuzzyMatch: bool, fuzzy: FuzzyOracle)
    requires AllSpace(before)
    ensures SingleHunkOutcome(content, before, after, fuzzyMatch, fuzzy) == Ok(content + after)
  {
    StripEmptyIffAllSpace(before);
    BlankBeforeMatchesAtEnd(content, before, after, fuzzyMatch, fuzzy);
    SpliceAtEnd(content, |before|, after);
  }

  lemma BlankBeforeMatchesAtEnd(content: String, before: String, after: String, fuzzyMatch: bool, fuzzy: FuzzyOracle)
    requires Strip(before) == []
    ensures BestMatch(content, before, fuzzyMatch, fuzzy) == Ok(|content|)
    ensures SingleHunkOutcome(content, before, after, fuzzyMatch, fuzzy) == Ok(Splice(content, |content|, |before|, after))
  {
  }

  /** A unique exact occurrence is replaced by `after`, and every character
      outside it is kept, whatever the fuzzy setting. */
  lemma UniqueOccurrenceSpliced(content: String, before: String, after: String, fuzzyMatch: bool, fuzzy: FuzzyOracle, start: nat)
    requires !AllSpace(before) && Occurrences(content, before) == {start}
    ensures SingleHunkOutcome(content, before, after, fuzzyMatch, fuzzy) ==
      Ok(content[..start] + after + content[start + |before|..])
  {
    StripEmptyIffAllSpace(before);
    MatchCountDecidesUniqueness(content, before);
    AllMatchesAreOccurrences(content, before);
    var m := AllMatches(content, before);
    assert m[0] in Occurrences(content, before);
  }

  /** Two distinct exact occurrences raise MultipleMatchesError whatever the
      fuzzy setting; the whitespace retry does not catch it. */
  lemma AmbiguousHunkFails(content: String, before: String, after: String, fuzzyMatch: bool, fuzzy: FuzzyOracle, i: nat, j: nat)
    requires !AllSpace(before) && i != j
    requires i in Occurrences(content, before) && j in Occurrences(content, before)
    ensures SingleHunkOutcome(content, before, after, fuzzyMatch, fuzzy) == Err(MultipleMatches)
  {
    StripEmptyIffAllSpace(before);
    TwoOccurrencesTwoMatches(content, before, i, j);
    assert BestMatch(content, before, fuzzyMatch, fuzzy) == Err(MultipleMatches);
  }

  /** With fuzzy matching off and no exact occurrence, the hunk applies only
      through the retry: collapsed `before` must occur in collapsed content,
      and then `before.strip()` is located while `len(before)` characters are
      cut. */
  lemma UnmatchedHunkRetries(content: String, before: String, after: String, fuzzy: FuzzyOracle)
    requires !AllSpace(before) && Occurrences(content, before) == {}
    ensures Find(CollapseSpaces(content), CollapseSpaces(before), 0) == -1 ==>
      SingleHunkOutcome(content, before, after, false, fuzzy) == Err(NoMatch)
    ensures Find(CollapseSpaces(content), CollapseSpaces(before), 0) != -1 ==>
      SingleHunkOutcome(content, before, after, false, fuzzy) ==
        match BestMatch(content, Strip(before), false, fuzzy)
        case Ok(start) => Ok(Splice(content, start, |before|, after))
        case Err(e) => Err(e)
  {
    StripEmptyIffAllSpace(before);
    MatchCountDecidesUniqueness(content, before);
  }

  lemma QuirkNoExactMatch(a: char, b: char, c: char, d: char, fuzzy: FuzzyOracle)
    requires !IsSpace(a) && !IsSpace(b)
    ensures BestMatch([a, b, ' ', c, d], "  " + [a, b], false, fuzzy) == Err(NoMatch)
  {
    var content := [a, b, ' ', c, d];
    var before := "  " + [a, b];
    assert !IsSpace(before[2]);
    StripEmptyIffAllSpace(before);
    assert forall i :: !OccursAt(content, before, i);
    assert Occurrences(content, before) == {};
    MatchCountDecidesUniqueness(content, before);
  }

  lemma CollapsedFind(u: String, w: String)
    requires u != [] && w != [] && Solid(u) && Solid(w)
    ensures Find(CollapseSpaces(u + " " + w), CollapseSpaces("  " + u), 0) == 0
  {
    TwoWordsCollapsed(u, w);
    TwiceSpacedWord(u);
    assert OccursAt(u + " " + w, u, 0);
  }

  lemma QuirkCollapsedMatch(a: char, b: char, c: char, d: char)
    requires !IsSpace(a) && !IsSpace(b) && !IsSpace(c) && !IsSpace(d)
    ensures Find(CollapseSpaces([a, b, ' ', c, d]), CollapseSpaces("  " + [a, b]), 0) == 0
  {
    var word := [a, b];
    assert [a, b, ' ', c, d] == word + " " + [c, d];
    CollapsedFind(word, [c, d]);
  }

  /** A unique exact occurrence of a non-blank text is where it is located. */
  lemma UniqueBestMatch(content: String, before: String, fuzzyMatch: bool, fuzzy: FuzzyOracle, at: nat)
    requires Strip(before) != [] && AllMatches(content, before) == [at]
    ensures BestMatch(content, before, fuzzyMatch, fuzzy) == Ok(at)
  {
  }

  lemma QuirkWordUnique(a: char, b: char, c: char, d: char)
    requires a != b && a != c && a != d && a != ' '
    ensures AllMatches([a, b, ' ', c, d], [a, b]) == [0]
  {
    var content := [a, b, ' ', c, d];
    var word := [a, b];
    assert forall k :: 0 <= k < |content| && content[k] == word[0] ==> k == 0;
    assert content[0..2] == word;
    UniqueOccurrenceByMarker(content, word, 0, 0);
  }

  lemma QuirkStrippedMatch(a: char, b: char, c: char, d: char, fuzzy: FuzzyOracle)
    requires !IsSpace(a) && !IsSpace(b) && a != b && a != c && a != d
    ensures Strip("  " + [a, b]) == [a, b]
    ensures BestMatch([a, b, ' ', c, d], [a, b], false, fuzzy) == Ok(0)
  {
    TwiceSpacedWord([a, b]);
    OneWord([a, b]);
    QuirkWordUnique(a, b, c, d);
    UniqueBestMatch([a, b, ' ', c, d], [a, b], false, fuzzy, 0);
  }

  /** The retry cuts `len(before)` characters from where `before.strip()`
      was found: for content "ab cd" (any four non-space characters with a
      distinct first one) and the hunk "  ab", fuzzy matching off, the text
      " c" after the match is deleted as well. */
  lemma RetryCutsPastTheMatch(a: char, b: char, c: char, d: char, after: String, fuzzy: FuzzyOracle)
    requires !IsSpace(a) && !IsSpace(b) && !IsSpace(c) && !IsSpace(d)
    requires a != b && a != c && a != d
    ensures SingleHunkOutcome([a, b, ' ', c, d], "  " + [a, b], after, false, fuzzy) == Ok(after + [d])
  {
    QuirkNoExactMatch(a, b, c, d, fuzzy);
    QuirkCollapsedMatch(a, b, c, d);
    QuirkStrippedMatch(a, b, c, d, fuzzy);
    assert Splice([a, b, ' ', c, d], 0, 4, after) == after + [d];
  }

  /** Where PatcherV3 succeeds, or reports an ambiguous hunk, PatcherV4 gives
      the same outcome whatever its fuzzy setting. */
  lemma AgreesWithV3(content: String, before: String, after: String, fuzzyMatch: bool, fuzzy: FuzzyOracle)
    ensures PatcherV3.SingleHunkOutcome(content, before, after).Ok? ==>
      SingleHunkOutcome(content, before, after, fuzzyMatch, fuzzy) ==
        Ok(PatcherV3.SingleHunkOutcome(content, before, after).value)
    ensures PatcherV3.SingleHunkOutcome(content, before, after) == Err(PatcherV3.MultipleMatches) ==>
      SingleHunkOutcome(content, before, after, fuzzyMatch, fuzzy) == Err(MultipleMatches)
  {
    if Strip(before) == [] {
      BlankBeforeMatchesAtEnd(content, before, after, fuzzyMatch, fuzzy);
      SpliceAtEnd(content, |before|, after);
    } else {
      var m := AllMatches(content, before);
      if |m| == 1 {
        assert BestMatch(content, before, fuzzyMatch, fuzzy) == Ok(m[0]);
      } else if |m| > 1 {
        assert BestMatch(content, before, fuzzyMatch, fuzzy) == Err(MultipleMatches);
      }
    }
  }

  /** The end of a run of `apply_patch`: either every hunk was tried (the
      content and the 1-based numbers of the hunks that failed), or the
      error that stopped it and the number of its hunk. The caller of
      `apply_patch` receives only `content`, or `error` re-raised; the hunk
      numbers mirror what the run reports on the console, and nothing
      outside that report sees them. */
  datatype Report = Done(content: String, failed: seq<nat>) | Aborted(error: PatchError, hunk: nat)

  /** What trying one hunk on the current content gives. */
  type HunkStep = (String, Hunk) -> Result<String, PatchError>

  /** `_apply_single_hunk` applied to the projection of a hunk. */
  function ApplyStep(fuzzyMatch: bool, fuzzy: FuzzyOracle): HunkStep {
    (content: String, h: Hunk) => SingleHunkOutcome(content, BeforeText(h), AfterText(h), fuzzyMatch, fuzzy)
  }

  /** The hunks tried in order from hunk number `n` on the current content;
      `step` says what one hunk does, so the error policy is stated apart
      from how a hunk is located. */
  function Replay(content: String, hunks: seq<Hunk>, n: nat, continueOnError: bool, step: HunkStep): Report
    decreases |hunks|
  {
    if hunks == [] then Done(content, [])
    else match step(content, hunks[0])
      case Ok(next) => Replay(next, hunks[1..], n + 1, continueOnError, step)
      case Err(e) =>
        if !continueOnError then Aborted(e, n)
        else Prepend(n, Replay(content, hunks[1..], n + 1, continueOnError, step))
  }

  /** The failure of hunk `n` recorded in front of a later report. */
  function Prepend(n: nat, rep: Report): Report {
    match rep
    case Done(c, f) => Done(c, [n] + f)
    case Aborted(e, k) => rep
  }

  /** Records the failures `failed` in front of a later report. */
  function PrependAll(failed: seq<nat>, rep: Report): Report {
    match rep
    case Done(c, f) => Done(c, failed + f)
    case Aborted(e, k) => rep
  }

  lemma PrependNothing(rep: Report)
    ensures PrependAll([], rep) == rep
  {
    if rep.Done? {
      assert [] + rep.failed == rep.failed;
    }
  }

  lemma PrependAllAppend(failed: seq<nat>, n: nat, rep: Report)
    ensures PrependAll(failed, Prepend(n, rep)) == PrependAll(failed + [n], rep)
  {
    if rep.Done? {
      assert failed + ([n] + rep.failed) == (failed + [n]) + rep.failed;
    }
  }

  /** With `continue_on_error` the run never aborts, and the hunks reported
      as failed are exactly numbered within the hunks tried, in increasing
      order. */
  lemma {:induction false} ContinuingNeverAborts(content: String, hunks: seq<Hunk>, n: nat, step: HunkStep)
    ensures Replay(content, hunks, n, true, step).Done?
    ensures forall k :: 0 <= k < |Replay(content, hunks, n, true, step).failed| ==>
      n <= Replay(content, hunks, n, true, step).failed[k] < n + |hunks|
    ensures forall k, l :: 0 <= k < l < |Replay(content, hunks, n, true, step).failed| ==>
      Replay(content, hunks, n, true, step).failed[k] < Replay(content, hunks, n, true, step).failed[l]
    decreases |hunks|
  {
    if hunks != [] {
      var next := step(content, hunks[0]);
      if next.Ok? {
        ContinuingNeverAborts(next.value, hunks[1..], n + 1, step);
      } else {
        ContinuingNeverAborts(content, hunks[1..], n + 1, step);
      }
    }
  }

  /** With `continue_on_error` a hunk's number is reported as failed
      exactly when that hunk fails on the content the hunks before it left. */
  lemma {:induction false} ContinuingFailuresAreFailingHunks(content: String, hunks: seq<Hunk>, n: nat, step: HunkStep)
    ensures Replay(content, hunks, n, true, step).Done?
    ensures forall j :: 0 <= j < |hunks| ==>
      (Replay(content, hunks[..j], n, true, step).Done? &&
       (n + j in Replay(content, hunks, n, true, step).failed <==>
        step(Replay(content, hunks[..j], n, true, step).content, hunks[j]).Err?))
    decreases |hunks|
  {
    if hunks != [] {
      var rest := hunks[1..];
      var next := step(content, hunks[0]);
      var tail := if next.Ok? then next.value else content;
      ContinuingNeverAborts(content, hunks, n, step);
      ContinuingNeverAborts(tail, rest, n + 1, step);
      ContinuingFailuresAreFailingHunks(tail, rest, n + 1, step);
      forall j | 0 <= j < |hunks|
        ensures Replay(content, hunks[..j], n, true, step).Done? &&
          (n + j in Replay(content, hunks, n, true, step).failed <==>
           step(Replay(content, hunks[..j], n, true, step).content, hunks[j]).Err?)
      {
        if j == 0 {
          assert hunks[..0] == [];
        } else {
          assert hunks[..j][0] == hunks[0] && hunks[..j][1..] == rest[..j - 1];
          assert hunks[j] == rest[j - 1];
        }
      }
    }
  }

  /** When every hunk applies, the policy does not matter: both runs end
      with the same content and no failure. */
  lemma {:induction false} PolicyIrrelevantWithoutFailures(content: String, hunks: seq<Hunk>, n: nat, step: HunkStep)
    requires Replay(content, hunks, n, false, step).Done?
    ensures Replay(content, hunks, n, true, step) == Replay(content, hunks, n, false, step)
    ensures Replay(content, hunks, n, false, step).failed == []
    decreases |hunks|
  {
    if hunks != [] {
      var next := step(content, hunks[0]);
      if next.Ok? {
        PolicyIrrelevantWithoutFailures(next.value, hunks[1..], n + 1, step);
      }
    }
  }

  /** Before the loop of `apply_patch`, nothing has failed and every hunk
      is still to be tried. */
  lemma ReplayStart(content: String, hunks: seq<Hunk>, continueOnError: bool, step: HunkStep)
    ensures Replay(content, hunks, 1, continueOnError, step) ==
      PrependAll([], Replay(content, hunks[0..], 1, continueOnError, step))
  {
    assert hunks[0..] == hunks;
    PrependNothing(Replay(content, hunks, 1, continueOnError, step));
  }

  /** One turn of the loop of `apply_patch` after a hunk applies: the rest
      of the run continues from its result. */
  lemma ReplayStepOk(content: String, hunks: seq<Hunk>, i: nat, failed: seq<nat>, current: String, next: String,
                     continueOnError: bool, step: HunkStep)
    requires i < |hunks| && step(current, hunks[i]) == Ok(next)
    requires Replay(content, hunks, 1, continueOnError, step) ==
      PrependAll(failed, Replay(current, hunks[i..], i + 1, continueOnError, step))
    ensures Replay(content, hunks, 1, continueOnError, step) ==
      PrependAll(failed, Replay(next, hunks[i + 1..], i + 2, continueOnError, step))
  {
    assert hunks[i..][0] == hunks[i] && hunks[i..][1..] == hunks[i + 1..];
  }

  /** One turn of the loop with `continue_on_error` after a hunk fails: the
      failure is recorded and the content stays as it was. */
  lemma ReplayStepSkip(content: String, hunks: seq<Hunk>, i: nat, failed: seq<nat>, current: String, step: HunkStep)
    requires i < |hunks| && step(current, hunks[i]).Err?
    requires Replay(content, hunks, 1, true, step) ==
      PrependAll(failed, Replay(current, hunks[i..], i + 1, true, step))
    ensures Replay(content, hunks, 1, true, step) ==
      PrependAll(failed + [i + 1], Replay(current, hunks[i + 1..], i + 2, true, step))
  {
    assert hunks[i..][0] == hunks[i] && hunks[i..][1..] == hunks[i + 1..];
    PrependAllAppend(failed, i + 1, Replay(current, hunks[i + 1..], i + 2, true, step));
  }

  /** Without `continue_on_error` the first failing hunk stops the run with
      its own error and number. */
  lemma ReplayStepAbort(hunks: seq<Hunk>, i: nat, current: String, e: PatchError, step: HunkStep)
    requires i < |hunks| && step(current, hunks[i]) == Err(e)
    ensures Replay(current, hunks[i..], i + 1, false, step) == Aborted(e, i + 1)
  {
    assert hunks[i..][0] == hunks[i];
  }

  /** A run that stops does so at the first hunk that fails: every hunk
      before it applied, in turn, and the error is that hunk's own. A run
      that does not stop has no failures. */
  lemma {:induction false} StopsAtFirstFailure(content: String, hunks: seq<Hunk>, n: nat, step: HunkStep)
    ensures Replay(content, hunks, n, false, step).Done? ==> Replay(content, hunks, n, false, step).failed == []
    ensures Replay(content, hunks, n, false, step).Aborted? ==>
      exists k :: 0 <= k < |hunks| && Replay(content, hunks, n, false, step).hunk == n + k &&
        Replay(content, hunks[..k], n, false, step).Done? &&
        step(Replay(content, hunks[..k], n, false, step).content, hunks[k]) ==
          Err(Replay(content, hunks, n, false, step).error)
    decreases |hunks|
  {
    if hunks != [] {
      var next := step(content, hunks[0]);
      if next.Ok? {
        var rest := hunks[1..];
        StopsAtFirstFailure(next.value, rest, n + 1, step);
        if Replay(content, hunks, n, false, step).Aborted? {
          var j :| 0 <= j < |rest| && Replay(next.value, rest, n + 1, false, step).hunk == n + 1 + j &&
            Replay(next.value, rest[..j], n + 1, false, step).Done? &&
            step(Replay(next.value, rest[..j], n + 1, false, step).content, rest[j]) ==
              Err(Replay(next.value, rest, n + 1, false, step).error);
          var k := j + 1;
          assert hunks[..k][0] == hunks[0] && hunks[..k][1..] == rest[..j];
          assert Replay(content, hunks[..k], n, false, step) == Replay(next.value, rest[..j], n + 1, false, step);
          assert hunks[k] == rest[j];
        }
      } else {
        assert hunks[..0] == [];
      }
    }
  }

  /** The loop of `apply_patch` ends after a failure without
      `continue_on_error`: the whole run is that abort. */
  lemma ReplayEndsAtAbort(content: String, hunks: seq<Hunk>, i: nat, failed: seq<nat>, current: String,
                          e: PatchError, step: HunkStep)
    requires i < |hunks| && step(current, hunks[i]) == Err(e)
    requires Replay(content, hunks, 1, false, step) ==
      PrependAll(failed, Replay(current, hunks[i..], i + 1, false, step))
    ensures Replay(content, hunks, 1, false, step) == Aborted(e, i + 1)
  {
    ReplayStepAbort(hunks, i, current, e, step);
  }

  /** The loop of `apply_patch` ends after the last hunk: the run is done
      with the current content and the failures recorded. */
  lemma ReplayEndsDone(content: String, hunks: seq<Hunk>, failed: seq<nat>, current: String,
                       continueOnError: bool, step: HunkStep)
    requires Replay(content, hunks, 1, continueOnError, step) ==
      PrependAll(failed, Replay(current, hunks[|hunks|..], |hunks| + 1, continueOnError, step))
    ensures Replay(content, hunks, 1, continueOnError, step) == Done(current, failed)
  {
    assert hunks[|hunks|..] == [];
    assert failed + [] == failed;
  }

  /** One turn of the loop of `apply_patch`: the hunk is projected and applied. */
  method TryHunk(content: String, hunk: Hunk, fuzzyMatch: bool, fuzzy: FuzzyOracle) returns (r: Result<String, PatchError>)
    requires WellFormedHunk(hunk)
    ensures r == ApplyStep(fuzzyMatch, fuzzy)(content, hunk)
  {
    var before, after := HunkToBeforeAfter(hunk);
    r := ApplySingleHunk(content, before, after, fuzzyMatch, fuzzy);
  }

  /** The default of `continue_on_error`: the first failing hunk stops the run. */
  const DefaultContinueOnError := false
  /** The default of `fuzzy_match`: an inexact location may be accepted. */
  const DefaultFuzzyMatch := true

  /** `PatcherV4(continue_on_error, fuzzy_match)`: the two switches never
      change after construction. */
  class Patcher {
    const continueOnError: bool
    const fuzzyMatch: bool
    /** The difflib-based locator used when `fuzzyMatch` is set. */
    const fuzzy: FuzzyOracle

    constructor (continueOnError: bool, fuzzyMatch: bool, fuzzy: FuzzyOracle)
      ensures this.continueOnError == continueOnError && this.fuzzyMatch == fuzzyMatch && this.fuzzy == fuzzy
    {
      this.continueOnError := continueOnError;
      this.fuzzyMatch := fuzzyMatch;
      this.fuzzy := fuzzy;
    }

    /** `PatcherV4()` with both switches left at their defaults. */
    constructor Default(fuzzy: FuzzyOracle)
      ensures continueOnError == DefaultContinueOnError && fuzzyMatch == DefaultFuzzyMatch && this.fuzzy == fuzzy
    {
      continueOnError := DefaultContinueOnError;
      fuzzyMatch := DefaultFuzzyMatch;
      this.fuzzy := fuzzy;
    }

    /** `apply_patch(original_content, udiff)`: both inputs are normalised,
        then the hunks are applied in order. */
    method ApplyPatch(originalContent: String, udiff: String) returns (r: Report)
      ensures r == Replay(NormalizeNewlines(originalContent), Hunks(SplitLinesKeepEnds(NormalizeNewlines(udiff))),
                          1, continueOnError, ApplyStep(fuzzyMatch, fuzzy))
    {
      var content := NormalizeNewlines(originalContent);
      var diff := NormalizeNewlines(udiff);
      var hunks := ParseHunks(diff);
      HunksWellFormed(SplitLinesKeepEnds(diff));
      r := ApplyHunks(content, hunks);
    }

    /** The loop of `apply_patch`: each hunk is applied to the current
        content; a failure is recorded and skipped, or re-raised, as the
        policy says. */
    method ApplyHunks(content: String, hunks: seq<Hunk>) returns (r: Report)
      requires forall k :: 0 <= k < |hunks| ==> WellFormedHunk(hunks[k])
      ensures r == Replay(content, hunks, 1, continueOnError, ApplyStep(fuzzyMatch, fuzzy))
    {
      ghost var step := ApplyStep(fuzzyMatch, fuzzy);
      var current := content;
      var failedHunks: seq<nat> := [];
      var i := 0;
      ReplayStart(content, hunks, continueOnError, step);
      assert Replay(content, hunks, 1, continueOnError, step) ==
          PrependAll(failedHunks, Replay(current, hunks[i..], i + 1, continueOnError, step));
      while i < |hunks|
        invariant 0 <= i <= |hunks|
        invariant Replay(content, hunks, 1, continueOnError, step) ==
          PrependAll(failedHunks, Replay(current, hunks[i..], i + 1, continueOnError, step))
      {
        var outcome := TryHunk(current, hunks[i], fuzzyMatch, fuzzy);
        if outcome.Ok? {
          ReplayStepOk(content, hunks, i, failedHunks, current, outcome.value, continueOnError, step);
          current := outcome.value;
        } else if !continueOnError {
          ReplayEndsAtAbort(content, hunks, i, failedHunks, current, outcome.error, step);
          return Aborted(outcome.error, i + 1);
        } else {
          ReplayStepSkip(content, hunks, i, failedHunks, current, step);
          failedHunks := failedHunks + [i + 1];
        }
        i := i + 1;
      }
      ReplayEndsDone(content, hunks, failedHunks, current, continueOnError, step);
      r := Done(current, failedHunks);
    }
  }
}
