/** MyPatcher (phpcomment/utils/patcher.py): a line-based patcher. Each `@@ `
    section of the patch becomes a search/replace pair of line lists; a pair
    is applied at the first place its search lines occur, and skipped when
    they occur nowhere. */
module MyPatcher {
  import opened PyStr
  import opened Wrappers

  /** `PatchHunk`: the lines to search for (context and removals) and the
      lines that replace them (context and additions). */
  datatype PatchHunk = PatchHunk(original: seq<String>, modified: seq<String>)

  /** `line.startswith('---') or line.startswith('+++')` */
  predicate IsFileHeader(line: String) {
    StartsWith(line, "---") || StartsWith(line, "+++")
  }

  /** `line.startswith('@@ ')` */
  predicate IsHunkHeader(line: String) {
    StartsWith(line, "@@ ")
  }

  // ---------------------------------------------------------------- _parse_hunk

  /** What one line of a hunk adds to `original`: a context or removal line
      without its tag, an empty line as an empty line, nothing otherwise. */
  function OriginalOf(line: String): seq<String> {
    if line == [] then [[]]
    else if line[0] == ' ' || line[0] == '-' then [line[1..]]
    else []
  }

  /** What one line of a hunk adds to `modified`: a context or addition line
      without its tag, an empty line as an empty line, nothing otherwise. */
  function ModifiedOf(line: String): seq<String> {
    if line == [] then [[]]
    else if line[0] == ' ' || line[0] == '+' then [line[1..]]
    else []
  }

  /** The `original` list built from the hunk's lines, in order. */
  function OriginalLines(lines: seq<String>): seq<String>
    decreases |lines|
  {
    if lines == [] then []
    else OriginalLines(lines[..|lines| - 1]) + OriginalOf(lines[|lines| - 1])
  }

  /** The `modified` list built from the hunk's lines, in order. */
  function ModifiedLines(lines: seq<String>): seq<String>
    decreases |lines|
  {
    if lines == [] then []
    else ModifiedLines(lines[..|lines| - 1]) + ModifiedOf(lines[|lines| - 1])
  }

  /** `_parse_hunk(hunk_lines)` */
  method ParseHunk(hunkLines: seq<String>) returns (hunk: PatchHunk)
    ensures hunk == PatchHunk(OriginalLines(hunkLines), ModifiedLines(hunkLines))
  {
    var original: seq<String> := [];
    var modified: seq<String> := [];
    var i := 0;
    while i < |hunkLines|
      invariant 0 <= i <= |hunkLines|
      invariant original == OriginalLines(hunkLines[..i])
      invariant modified == ModifiedLines(hunkLines[..i])
    {
      var line := hunkLines[i];
      assert hunkLines[..i + 1][..i] == hunkLines[..i];
      if StartsWith(line, " ") {
        original := original + [line[1..]];
        modified := modified + [line[1..]];
      } else if StartsWith(line, "-") {
        original := original + [line[1..]];
      } else if StartsWith(line, "+") {
        modified := modified + [line[1..]];
      } else if line == [] {
        original := original + [[]];
        modified := modified + [[]];
      }
      i := i + 1;
    }
    assert hunkLines[..i] == hunkLines;
    hunk := PatchHunk(original, modified);
  }

  /** The `original` projection keeps the order of the lines: it
      distributes over concatenation. */
  lemma {:induction false} OriginalDistributes(a: seq<String>, b: seq<String>)
    ensures OriginalLines(a + b) == OriginalLines(a) + OriginalLines(b)
    decreases |b|
  {
    if b == [] {
      assert a + b == a;
    } else {
      var init, last := b[..|b| - 1], b[|b| - 1];
      assert (a + b)[..|a + b| - 1] == a + init && (a + b)[|a + b| - 1] == last;
      assert OriginalLines(a + b) == OriginalLines(a + init) + OriginalOf(last);
      OriginalDistributes(a, init);
      assert OriginalLines(b) == OriginalLines(init) + OriginalOf(last);
    }
  }

  /** So does the `modified` projection. */
  lemma {:induction false} ModifiedDistributes(a: seq<String>, b: seq<String>)
    ensures ModifiedLines(a + b) == ModifiedLines(a) + ModifiedLines(b)
    decreases |b|
  {
    if b == [] {
      assert a + b == a;
    } else {
      var init, last := b[..|b| - 1], b[|b| - 1];
      assert (a + b)[..|a + b| - 1] == a + init && (a + b)[|a + b| - 1] == last;
      assert ModifiedLines(a + b) == ModifiedLines(a + init) + ModifiedOf(last);
      ModifiedDistributes(a, init);
      assert ModifiedLines(b) == ModifiedLines(init) + ModifiedOf(last);
    }
  }

  /** Each line's part: ' ' lines go to both sides, '-' lines to `original`
      only, '+' lines to `modified` only, an empty line to both as an empty
      line, and any other line to neither. */
  lemma LineProjection(line: String)
    ensures line == [] ==> OriginalLines([line]) == [[]] && ModifiedLines([line]) == [[]]
    ensures line != [] && line[0] == ' ' ==>
      OriginalLines([line]) == [line[1..]] && ModifiedLines([line]) == [line[1..]]
    ensures line != [] && line[0] == '-' ==> OriginalLines([line]) == [line[1..]] && ModifiedLines([line]) == []
    ensures line != [] && line[0] == '+' ==> OriginalLines([line]) == [] && ModifiedLines([line]) == [line[1..]]
    ensures line != [] && line[0] !in {' ', '-', '+'} ==> OriginalLines([line]) == [] && ModifiedLines([line]) == []
  {
    assert [line][..0] == [];
  }

  /** Without '-' and '+' lines, both sides of a hunk are the same. */
  lemma {:induction false} ContextOnlyHunk(lines: seq<String>)
    requires forall k :: 0 <= k < |lines| ==> lines[k] == [] || (lines[k][0] != '-' && lines[k][0] != '+')
    ensures OriginalLines(lines) == ModifiedLines(lines)
    decreases |lines|
  {
    if lines != [] {
      ContextOnlyHunk(lines[..|lines| - 1]);
    }
  }

  // -------------------------------------------------------- parse_patch_hunks

  /** The loop state of `parse_patch_hunks`. */
  datatype ParseState = ParseState(hunks: seq<PatchHunk>, current: seq<String>, inHunk: bool)

  const Start := ParseState([], [], false)

  /** One iteration of the loop in `parse_patch_hunks`. */
  function Step(st: ParseState, line: String): ParseState {
    if IsFileHeader(line) then st
    else if IsHunkHeader(line) then
      ParseState(if st.inHunk then st.hunks + [PatchHunk(OriginalLines(st.current), ModifiedLines(st.current))]
                 else st.hunks,
                 if st.inHunk then [] else st.current,
                 true)
    else if st.inHunk then ParseState(st.hunks, st.current + [line], true)
    else st
  }

  /** The loop run over `lines` from state `st`. */
  function Run(st: ParseState, lines: seq<String>): ParseState
    decreases |lines|
  {
    if lines == [] then st else Step(Run(st, lines[..|lines| - 1]), lines[|lines| - 1])
  }

  /** The final `if current_hunk:` append. */
  function Finish(st: ParseState): seq<PatchHunk> {
    if st.current != [] then st.hunks + [PatchHunk(OriginalLines(st.current), ModifiedLines(st.current))]
    else st.hunks
  }

  /** The hunks `parse_patch_hunks` returns for the patch's lines. */
  function PatchHunks(lines: seq<String>): seq<PatchHunk> {
    Finish(Run(Start, lines))
  }

  /** `parse_patch_hunks(patch_content)` */
  method ParsePatchHunks(patchContent: String) returns (hunks: seq<PatchHunk>)
    ensures hunks == PatchHunks(SplitLines(patchContent))
  {
    var lines := SplitLines(patchContent);
    hunks := [];
    var currentHunk: seq<String> := [];
    var inHunk := false;
    var i := 0;
    while i < |lines|
      invariant 0 <= i <= |lines|
      invariant ParseState(hunks, currentHunk, inHunk) == Run(Start, lines[..i])
    {
      var line := lines[i];
      ghost var st := ParseState(hunks, currentHunk, inHunk);
      assert lines[..i + 1][..i] == lines[..i] && lines[..i + 1][i] == line;
      assert Run(Start, lines[..i + 1]) == Step(st, line);
      if StartsWith(line, "---") || StartsWith(line, "+++") {
        i := i + 1;
        continue;
      }
      if StartsWith(line, "@@ ") {
        if inHunk {
          var hunk := ParseHunk(currentHunk);
          hunks := hunks + [hunk];
          currentHunk := [];
        }
        inHunk := true;
      } else if inHunk {
        currentHunk := currentHunk + [line];
      }
      assert Step(st, line) == ParseState(hunks, currentHunk, inHunk);
      i := i + 1;
    }
    assert lines[..i] == lines;
    if currentHunk != [] {
      var hunk := ParseHunk(currentHunk);
      hunks := hunks + [hunk];
    }
  }

  /** Running the loop over `a + b` is running it over `a`, then over `b`.
      This is the same fold-splitting fact as `DiffHunks.RunAppend`, stated
      again for this parser's own state and line step, which differ from
      the ones `patcher_v3.py` folds. */
  lemma {:induction false} RunAppend(st: ParseState, a: seq<String>, b: seq<String>)
    ensures Run(st, a + b) == Run(Run(st, a), b)
    decreases |b|
  {
    if b == [] {
      assert a + b == a;
    } else {
      assert (a + b)[..|a + b| - 1] == a + b[..|b| - 1];
      RunAppend(st, a, b[..|b| - 1]);
    }
  }

  /** File header lines are skipped wherever they appear, inside a hunk too. */
  lemma FileHeaderIsSkipped(a: seq<String>, h: String, b: seq<String>)
    requires IsFileHeader(h)
    ensures PatchHunks(a + [h] + b) == PatchHunks(a + b)
  {
    RunAppend(Start, a + [h], b);
    RunAppend(Start, a, [h]);
    RunAppend(Start, a, b);
    assert Run(Run(Start, a), [h]) == Run(Start, a) by {
      assert [h][..0] == [];
    }
  }

  /** A line that is neither a file header nor a hunk header. */
  predicate IsBodyLine(line: String) {
    !IsFileHeader(line) && !IsHunkHeader(line)
  }

  /** Lines before the first `@@ ` line contribute nothing. */
  lemma {:induction false} PreambleIsIgnored(lines: seq<String>)
    requires forall k :: 0 <= k < |lines| ==> !IsHunkHeader(lines[k])
    ensures Run(Start, lines) == Start
    decreases |lines|
  {
    if lines != [] {
      PreambleIsIgnored(lines[..|lines| - 1]);
    }
  }

  /** Inside a hunk, body lines are collected in order. */
  lemma {:induction false} BodyIsCollected(hunks: seq<PatchHunk>, current: seq<String>, body: seq<String>)
    requires forall k :: 0 <= k < |body| ==> IsBodyLine(body[k])
    ensures Run(ParseState(hunks, current, true), body) == ParseState(hunks, current + body, true)
    decreases |body|
  {
    if body == [] {
      assert current + body == current;
    } else {
      BodyIsCollected(hunks, current, body[..|body| - 1]);
      assert current + body[..|body| - 1] + [body[|body| - 1]] == current + body;
    }
  }

  /** A `@@ ` line followed by body lines: the open hunk, if any, is closed
      (even when it has no lines) and the body becomes the new open hunk. */
  lemma Section(st: ParseState, header: String, body: seq<String>)
    requires st.inHunk || st.current == []
    requires IsHunkHeader(header) && !IsFileHeader(header)
    requires forall k :: 0 <= k < |body| ==> IsBodyLine(body[k])
    ensures Run(st, [header] + body) ==
      ParseState(if st.inHunk then st.hunks + [PatchHunk(OriginalLines(st.current), ModifiedLines(st.current))]
                 else st.hunks,
                 body, true)
  {
    RunAppend(st, [header], body);
    assert [header][..0] == [];
    var next := Run(st, [header]);
    BodyIsCollected(next.hunks, next.current, body);
    assert [] + body == body;
  }

  /** A patch without a `@@ ` line has no hunks. */
  lemma NoHunkHeaderNoHunks(lines: seq<String>)
    requires forall k :: 0 <= k < |lines| ==> !IsHunkHeader(lines[k])
    ensures PatchHunks(lines) == []
  {
    PreambleIsIgnored(lines);
  }

  /** Two sections give two hunks; the trailing one is kept because it is
      non-empty. */
  lemma TwoSections(pre: seq<String>, h1: String, b1: seq<String>, h2: String, b2: seq<String>)
    requires forall k :: 0 <= k < |pre| ==> !IsHunkHeader(pre[k])
    requires IsHunkHeader(h1) && !IsFileHeader(h1) && IsHunkHeader(h2) && !IsFileHeader(h2)
    requires forall k :: 0 <= k < |b1| ==> IsBodyLine(b1[k])
    requires forall k :: 0 <= k < |b2| ==> IsBodyLine(b2[k])
    requires b2 != []
    ensures PatchHunks(pre + ([h1] + b1) + ([h2] + b2)) ==
      [PatchHunk(OriginalLines(b1), ModifiedLines(b1)), PatchHunk(OriginalLines(b2), ModifiedLines(b2))]
  {
    FirstSection(pre, h1, b1);
    NextSection(Start, pre + ([h1] + b1), h2, b2);
    assert [] + [PatchHunk(OriginalLines(b1), ModifiedLines(b1))] == [PatchHunk(OriginalLines(b1), ModifiedLines(b1))];
  }

  /** A section after an open hunk closes that hunk. */
  lemma NextSection(st: ParseState, a: seq<String>, header: String, body: seq<String>)
    requires Run(st, a).inHunk
    requires IsHunkHeader(header) && !IsFileHeader(header)
    requires forall k :: 0 <= k < |body| ==> IsBodyLine(body[k])
    ensures var open := Run(st, a);
      Run(st, a + ([header] + body)) ==
      ParseState(open.hunks + [PatchHunk(OriginalLines(open.current), ModifiedLines(open.current))], body, true)
  {
    RunAppend(st, a, [header] + body);
    Section(Run(st, a), header, body);
  }

  /** The preamble and the first section leave the first section's body open. */
  lemma FirstSection(pre: seq<String>, h1: String, b1: seq<String>)
    requires forall k :: 0 <= k < |pre| ==> !IsHunkHeader(pre[k])
    requires IsHunkHeader(h1) && !IsFileHeader(h1)
    requires forall k :: 0 <= k < |b1| ==> IsBodyLine(b1[k])
    ensures Run(Start, pre + ([h1] + b1)) == ParseState([], b1, true)
  {
    PreambleIsIgnored(pre);
    RunAppend(Start, pre, [h1] + b1);
    Section(Start, h1, b1);
  }

  // ----------------------------------------------------- _find_hunk_position

  /** `content[i:i + len(lines)] == lines`, in range. */
  predicate LinesAt(content: seq<String>, lines: seq<String>, i: nat) {
    i + |lines| <= |content| && content[i..i + |lines|] == lines
  }

  /** The first match at or after `i`, for a non-empty search list. */
  function FirstMatchFrom(content: seq<String>, lines: seq<String>, i: nat): (r: Option<nat>)
    requires lines != []
    ensures r.Some? ==> LinesAt(content, lines, r.value)
    decreases |content| - i
  {
    if i >= |content| then None
    else if LinesAt(content, lines, i) then Some(i)
    else FirstMatchFrom(content, lines, i + 1)
  }

  /** What `_find_hunk_position` returns: 0 for an empty search list,
      otherwise the first match, or `None`. */
  function HunkPosition(content: seq<String>, original: seq<String>): (r: Option<nat>)
    ensures r.Some? ==> LinesAt(content, original, r.value)
  {
    if original == [] then Some(0) else FirstMatchFrom(content, original, 0)
  }

  /** The first match from `i` is a match, and no earlier index from `i`
      matches; `None` means no index from `i` on matches. */
  lemma {:induction false} FirstMatchFromIsFirst(content: seq<String>, lines: seq<String>, i: nat)
    requires lines != []
    ensures FirstMatchFrom(content, lines, i).Some? ==>
      i <= FirstMatchFrom(content, lines, i).value &&
      LinesAt(content, lines, FirstMatchFrom(content, lines, i).value) &&
      forall k :: i <= k < FirstMatchFrom(content, lines, i).value ==> !LinesAt(content, lines, k)
    ensures FirstMatchFrom(content, lines, i).None? ==> forall k :: i <= k ==> !LinesAt(content, lines, k)
    decreases |content| - i
  {
    if i < |content| && !LinesAt(content, lines, i) {
      FirstMatchFromIsFirst(content, lines, i + 1);
    }
  }

  /** The position is the smallest index where the search lines occur;
      there is no uniqueness check, and `None` means they occur nowhere. */
  lemma PositionIsFirstMatch(content: seq<String>, original: seq<String>)
    ensures HunkPosition(content, original).Some? ==>
      LinesAt(content, original, HunkPosition(content, original).value) &&
      forall k :: 0 <= k < HunkPosition(content, original).value ==> !LinesAt(content, original, k)
    ensures HunkPosition(content, original).None? <==> forall k: nat :: !LinesAt(content, original, k)
  {
    if original != [] {
      FirstMatchFromIsFirst(content, original, 0);
    } else {
      assert LinesAt(content, original, 0);
    }
  }

  /** `_find_hunk_position(content, hunk)` */
  method FindHunkPosition(content: seq<String>, hunk: PatchHunk) returns (r: Option<nat>)
    ensures r == HunkPosition(content, hunk.original)
  {
    var originalLines := hunk.original;
    if originalLines == [] {
      return Some(0);
    }
    var i := 0;
    while i < |content|
      invariant 0 <= i <= |content|
      invariant FirstMatchFrom(content, originalLines, 0) == FirstMatchFrom(content, originalLines, i)
    {
      var matches := true;
      var j := 0;
      while j < |originalLines|
        invariant 0 <= j <= |originalLines|
        invariant matches ==> i + j <= |content| && content[i..i + j] == originalLines[..j]
        invariant !matches ==> !LinesAt(content, originalLines, i)
        decreases |originalLines| - j, matches
      {
        if i + j >= |content| || content[i + j] != originalLines[j] {
          matches := false;
          break;
        }
        assert content[i..i + j + 1] == content[i..i + j] + [content[i + j]];
        assert originalLines[..j + 1] == originalLines[..j] + [originalLines[j]];
        j := j + 1;
      }
      if matches {
        assert originalLines[..j] == originalLines;
        return Some(i);
      }
      i := i + 1;
    }
    r := None;
  }

  // --------------------------------------------------------------- _apply_hunk

  /** What `_apply_hunk` returns: the content unchanged when the hunk is not
      found, else `content[:p] + modified + content[p + len(original):]`. */
  function HunkResult(content: seq<String>, hunk: PatchHunk): seq<String> {
    match HunkPosition(content, hunk.original)
    case None => content
    case Some(p) => content[..p] + hunk.modified + content[p + |hunk.original|..]
  }

  /** `_apply_hunk(content, hunk)` */
  method ApplyHunk(content: seq<String>, hunk: PatchHunk) returns (r: seq<String>)
    ensures r == HunkResult(content, hunk)
  {
    var position := FindHunkPosition(content, hunk);
    if position.None? {
      return content;
    }
    var p := position.value;
    r := content[..p] + hunk.modified + content[p + |hunk.original|..];
  }

  /** A found hunk replaces its first match and keeps every line outside it;
      a hunk that is not found leaves the content as it was. */
  lemma HunkReplacesFirstMatch(content: seq<String>, hunk: PatchHunk)
    ensures HunkPosition(content, hunk.original).None? ==> HunkResult(content, hunk) == content
    ensures HunkPosition(content, hunk.original).Some? ==>
      var p := HunkPosition(content, hunk.original).value;
      p + |hunk.original| <= |content| &&
      content[p..p + |hunk.original|] == hunk.original &&
      HunkResult(content, hunk) == content[..p] + hunk.modified + content[p + |hunk.original|..]
  {
    PositionIsFirstMatch(content, hunk.original);
  }

  /** A hunk with no search lines puts its `modified` lines in front. */
  lemma EmptyOriginalPrepends(content: seq<String>, modified: seq<String>)
    ensures HunkResult(content, PatchHunk([], modified)) == modified + content
  {
    assert content[..0] == [] && content[0..] == content;
  }

  /** A hunk whose two sides are equal and which is found changes nothing. */
  lemma FoundIdentityHunk(content: seq<String>, lines: seq<String>)
    ensures HunkResult(content, PatchHunk(lines, lines)) == content
  {
    PositionIsFirstMatch(content, lines);
    if HunkPosition(content, lines).Some? {
      var p := HunkPosition(content, lines).value;
      assert content == content[..p] + content[p..p + |lines|] + content[p + |lines|..];
    }
  }

  // --------------------------------------------------------------- apply_patch

  /** The hunks applied in order, each to the lines the previous produced. */
  function ApplyAll(content: seq<String>, hunks: seq<PatchHunk>): seq<String>
    decreases |hunks|
  {
    if hunks == [] then content else ApplyAll(HunkResult(content, hunks[0]), hunks[1..])
  }

  /** What `apply_patch` returns. */
  function PatchResult(sourceContent: String, patchContent: String): String {
    Join("\n", ApplyAll(SplitLines(sourceContent), PatchHunks(SplitLines(patchContent)))) + "\n"
  }

  /** `apply_patch(source_content, patch_content)` */
  method ApplyPatch(sourceContent: String, patchContent: String) returns (r: String)
    ensures r == PatchResult(sourceContent, patchContent)
    ensures r != [] && r[|r| - 1] == '\n'
  {
    var contentLines := SplitLines(sourceContent);
    var hunks := ParsePatchHunks(patchContent);
    var newContent := contentLines;
    var i := 0;
    while i < |hunks|
      invariant 0 <= i <= |hunks|
      invariant ApplyAll(contentLines, hunks) == ApplyAll(newContent, hunks[i..])
    {
      assert hunks[i..][0] == hunks[i] && hunks[i..][1..] == hunks[i + 1..];
      newContent := ApplyHunk(newContent, hunks[i]);
      i := i + 1;
    }
    assert hunks[i..] == [];
    r := Join("\n", newContent) + "\n";
  }

  /** Applying `hs1 + hs2` is applying `hs1`, then `hs2` to the result. */
  lemma {:induction false} ApplyAllSequential(content: seq<String>, hs1: seq<PatchHunk>, hs2: seq<PatchHunk>)
    ensures ApplyAll(content, hs1 + hs2) == ApplyAll(ApplyAll(content, hs1), hs2)
    decreases |hs1|
  {
    if hs1 == [] {
      assert hs1 + hs2 == hs2;
    } else {
      assert (hs1 + hs2)[0] == hs1[0] && (hs1 + hs2)[1..] == hs1[1..] + hs2;
      ApplyAllSequential(HunkResult(content, hs1[0]), hs1[1..], hs2);
    }
  }

  /** Hunks that are found nowhere are skipped without effect. */
  lemma {:induction false} UnfoundHunksAreSkipped(content: seq<String>, hunks: seq<PatchHunk>)
    requires forall k :: 0 <= k < |hunks| ==> HunkPosition(content, hunks[k].original).None?
    ensures ApplyAll(content, hunks) == content
    decreases |hunks|
  {
    if hunks != [] {
      assert HunkResult(content, hunks[0]) == content;
      UnfoundHunksAreSkipped(content, hunks[1..]);
    }
  }
}
