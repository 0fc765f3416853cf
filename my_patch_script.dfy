/** The stand-alone script my-patch.py: each `@@ ` section of the patch is
    split into leading context, changes and trailing context; the joined
    contexts locate the hunk in the original lines, and the changes are
    replayed backwards at that line, inserting and deleting in place. The
    file reads and writes of the script are replaced by parameters. */
module MyPatchScript {
  import opened PyStr
  import opened Wrappers

  /** The only failure of the parser: `context_before.pop()` on an empty list
      raises `IndexError`. */
  datatype PatchError = PopFromEmptyList

  /** One entry of `changes`: `('+', text)` or `('-', text)`. */
  datatype Change = Add(text: String) | Remove(text: String)

  /** `(context_before, changes, context_after)` */
  datatype HunkParts = HunkParts(contextBefore: seq<String>, changes: seq<Change>, contextAfter: seq<String>)

  // ------------------------------------------------------------------ parse_hunk

  /** Which list `current_section` is: `context_before` until a context line
      follows a change, `context_after` from then on. */
  datatype Section = Leading | Trailing

  /** The loop state of `parse_hunk`. */
  datatype HunkState = HunkState(parts: HunkParts, section: Section)

  const HunkStart := HunkState(HunkParts([], [], []), Leading)

  /** `line.startswith(tag)` for a one-character tag. */
  predicate Tagged(line: String, tag: char) {
    line != [] && line[0] == tag
  }

  /** One iteration of the loop in `parse_hunk`. */
  function HunkStep(st: HunkState, line: String): Result<HunkState, PatchError> {
    var p := st.parts;
    if Tagged(line, ' ') then
      var section := if p.changes != [] && st.section == Leading then Trailing else st.section;
      if section == Leading then Ok(HunkState(p.(contextBefore := p.contextBefore + [line[1..]]), section))
      else Ok(HunkState(p.(contextAfter := p.contextAfter + [line[1..]]), section))
    else if Tagged(line, '-') then
      if st.section == Leading then
        if p.contextBefore == [] then Err(PopFromEmptyList)
        else Ok(HunkState(HunkParts(p.contextBefore[..|p.contextBefore| - 1], p.changes + [Remove(line[1..])],
                                    p.contextAfter), Leading))
      else Ok(HunkState(p.(changes := p.changes + [Remove(line[1..])]), st.section))
    else if Tagged(line, '+') then Ok(HunkState(p.(changes := p.changes + [Add(line[1..])]), st.section))
    else Ok(st)
  }

  /** The loop of `parse_hunk` run over `lines`; an error stops it. */
  function HunkRun(lines: seq<String>): Result<HunkState, PatchError>
    decreases |lines|
  {
    if lines == [] then Ok(HunkStart)
    else match HunkRun(lines[..|lines| - 1])
      case Err(e) => Err(e)
      case Ok(st) => HunkStep(st, lines[|lines| - 1])
  }

  /** `hunk_lines[1:]`: the `@@` line is skipped. */
  function Body(hunkLines: seq<String>): seq<String> {
    if hunkLines == [] then [] else hunkLines[1..]
  }

  /** What `parse_hunk(hunk_lines)` returns or raises. */
  function HunkOf(hunkLines: seq<String>): Result<HunkParts, PatchError> {
    match HunkRun(Body(hunkLines))
    case Err(e) => Err(e)
    case Ok(st) => Ok(st.parts)
  }

  /** `parse_hunk(hunk_lines)` */
  method ParseHunk(hunkLines: seq<String>) returns (r: Result<HunkParts, PatchError>)
    ensures r == HunkOf(hunkLines)
  {
    var lines := Body(hunkLines);
    var contextBefore: seq<String> := [];
    var changes: seq<Change> := [];
    var contextAfter: seq<String> := [];
    var currentSection := Leading;
    var i := 0;
    while i < |lines|
      invariant 0 <= i <= |lines|
      invariant HunkRun(lines[..i]) == Ok(HunkState(HunkParts(contextBefore, changes, contextAfter), currentSection))
    {
      var line := lines[i];
      assert lines[..i + 1][..i] == lines[..i];
      if Tagged(line, ' ') {
        if changes != [] && currentSection == Leading {
          currentSection := Trailing;
        }
        if currentSection == Leading {
          contextBefore := contextBefore + [line[1..]];
        } else {
          contextAfter := contextAfter + [line[1..]];
        }
      } else if Tagged(line, '-') {
        if currentSection == Leading {
          if contextBefore == [] {
            assert HunkRun(lines[..i + 1]) == Err(PopFromEmptyList);
            HunkRunStopsAtError(lines, i + 1);
            return Err(PopFromEmptyList);
          }
          contextBefore := contextBefore[..|contextBefore| - 1];
        }
        changes := changes + [Remove(line[1..])];
      } else if Tagged(line, '+') {
        changes := changes + [Add(line[1..])];
      }
      i := i + 1;
    }
    assert lines[..i] == lines;
    r := Ok(HunkParts(contextBefore, changes, contextAfter));
  }

  /** An error on a prefix of the lines is the error of the whole run. */
  lemma {:induction false} HunkRunStopsAtError(lines: seq<String>, j: nat)
    requires j <= |lines| && HunkRun(lines[..j]).Err?
    ensures HunkRun(lines) == HunkRun(lines[..j])
    decreases |lines| - j
  {
    if j < |lines| {
      assert lines[..j + 1][..j] == lines[..j];
      HunkRunStopsAtError(lines, j + 1);
    } else {
      assert lines[..j] == lines;
    }
  }

  /** The changes, in order: every '-' and '+' line of the body. */
  function ChangesOf(lines: seq<String>): seq<Change>
    decreases |lines|
  {
    if lines == [] then []
    else
      var line := lines[|lines| - 1];
      ChangesOf(lines[..|lines| - 1]) +
        (if Tagged(line, ' ') then []
         else if Tagged(line, '-') then [Remove(line[1..])]
         else if Tagged(line, '+') then [Add(line[1..])]
         else [])
  }

  /** Whatever the sections do, the changes are the body's '-' and '+'
      lines in their order. */
  lemma {:induction false} ChangesInOrder(lines: seq<String>)
    ensures HunkRun(lines).Ok? ==> HunkRun(lines).value.parts.changes == ChangesOf(lines)
    decreases |lines|
  {
    if lines != [] {
      ChangesInOrder(lines[..|lines| - 1]);
    }
  }

  /** `line[1:]` */
  function Untag(line: String): String {
    if line == [] then [] else line[1..]
  }

  /** The text of each line after its tag. */
  function Texts(lines: seq<String>): seq<String> {
    seq(|lines|, k requires 0 <= k < |lines| => Untag(lines[k]))
  }

  /** Context lines before any change all go to `context_before`. */
  lemma {:induction false} LeadingContext(ctx: seq<String>)
    requires forall k :: 0 <= k < |ctx| ==> Tagged(ctx[k], ' ')
    ensures HunkRun(ctx) == Ok(HunkState(HunkParts(Texts(ctx), [], []), Leading))
    decreases |ctx|
  {
    if ctx != [] {
      var init := ctx[..|ctx| - 1];
      LeadingContext(init);
      assert Texts(init) + [ctx[|ctx| - 1][1..]] == Texts(ctx);
    }
  }

  /** A '-' line before any context line pops from the empty list. */
  lemma RemovalWithoutContextFails(header: String, line: String, rest: seq<String>)
    requires Tagged(line, '-')
    ensures HunkOf([header, line] + rest) == Err(PopFromEmptyList)
  {
    var body := [line] + rest;
    assert Body([header, line] + rest) == body;
    assert body[..1] == [line] && body[..1][..0] == [];
    HunkRunStopsAtError(body, 1);
  }

  /** Each '-' line in the leading section takes back one context line:
      context `c1 c2` then `-x` leaves `c1` as the leading context. */
  lemma RemovalPopsLeadingContext(c1: String, c2: String, x: String)
    ensures HunkRun([" " + c1, " " + c2, "-" + x]) == Ok(HunkState(HunkParts([c1], [Remove(x)], []), Leading))
  {
    var ctx := [" " + c1, " " + c2];
    var lines := ctx + ["-" + x];
    assert Tagged(ctx[0], ' ') && Tagged(ctx[1], ' ');
    LeadingContext(ctx);
    assert Untag(" " + c1) == c1 && Untag(" " + c2) == c2;
    assert Texts(ctx) == [c1, c2];
    assert lines[..2] == ctx && lines[2] == "-" + x && lines == [" " + c1, " " + c2, "-" + x];
    assert Tagged("-" + x, '-') && !Tagged("-" + x, ' ') && ("-" + x)[1..] == x;
    assert [c1, c2][..1] == [c1] && [] + [Remove(x)] == [Remove(x)];
    assert HunkStep(HunkState(HunkParts([c1, c2], [], []), Leading), "-" + x) ==
      Ok(HunkState(HunkParts([c1], [Remove(x)], []), Leading));
  }

  /** The first context line after a change opens the trailing context,
      and later context lines stay there. */
  lemma ContextAfterChangeTrails(st: HunkState, line: String)
    requires st.parts.changes != [] && Tagged(line, ' ')
    ensures HunkStep(st, line) == Ok(HunkState(st.parts.(contextAfter := st.parts.contextAfter + [line[1..]]), Trailing))
  {
  }

  // ------------------------------------------------------------ parse_patch_hunks

  /** The loop state of `parse_patch_hunks`: parsed hunks, the lines of the
      open hunk (its `@@` line first), and whether a hunk is open. */
  datatype PatchState = PatchState(hunks: seq<HunkParts>, current: seq<String>, inHunk: bool)

  const PatchStart := PatchState([], [], false)

  /** One iteration of the loop in `parse_patch_hunks`. */
  function PatchStep(st: PatchState, line: String): Result<PatchState, PatchError> {
    if StartsWith(line, "@@ ") then
      if st.inHunk then
        match HunkOf(st.current)
        case Err(e) => Err(e)
        case Ok(h) => Ok(PatchState(st.hunks + [h], [line], true))
      else Ok(PatchState(st.hunks, st.current + [line], true))
    else if st.inHunk then Ok(PatchState(st.hunks, st.current + [line], true))
    else Ok(st)
  }

  /** The loop of `parse_patch_hunks` run over `lines`. */
  function PatchRun(lines: seq<String>): Result<PatchState, PatchError>
    decreases |lines|
  {
    if lines == [] then Ok(PatchStart)
    else match PatchRun(lines[..|lines| - 1])
      case Err(e) => Err(e)
      case Ok(st) => PatchStep(st, lines[|lines| - 1])
  }

  /** What `parse_patch_hunks(patch_content)` returns or raises. */
  function PatchHunks(lines: seq<String>): Result<seq<HunkParts>, PatchError> {
    match PatchRun(lines)
    case Err(e) => Err(e)
    case Ok(st) =>
      if st.current == [] then Ok(st.hunks)
      else match HunkOf(st.current)
        case Err(e) => Err(e)
        case Ok(h) => Ok(st.hunks + [h])
  }

  /** `parse_patch_hunks(patch_content)` */
  method ParsePatchHunks(patchContent: String) returns (r: Result<seq<HunkParts>, PatchError>)
    ensures r == PatchHunks(SplitLines(patchContent))
  {
    var lines := SplitLines(patchContent);
    var hunks: seq<HunkParts> := [];
    var currentHunk: seq<String> := [];
    var inHunk := false;
    var i := 0;
    while i < |lines|
      invariant 0 <= i <= |lines|
      invariant PatchRun(lines[..i]) == Ok(PatchState(hunks, currentHunk, inHunk))
    {
      var line := lines[i];
      ghost var st := PatchState(hunks, currentHunk, inHunk);
      assert lines[..i + 1][..i] == lines[..i] && lines[..i + 1][i] == line;
      assert PatchRun(lines[..i + 1]) == PatchStep(st, line);
      if StartsWith(line, "@@ ") {
        if inHunk {
          var hunk := ParseHunk(currentHunk);
          if hunk.Err? {
            assert PatchRun(lines[..i + 1]) == Err(hunk.error);
            PatchRunStopsAtError(lines, i + 1);
            return Err(hunk.error);
          }
          assert PatchStep(st, line) == Ok(PatchState(hunks + [hunk.value], [line], true));
          hunks := hunks + [hunk.value];
          currentHunk := [];
          assert currentHunk + [line] == [line];
        }
        inHunk := true;
      }
      if inHunk {
        currentHunk := currentHunk + [line];
        assert PatchStep(st, line) == Ok(PatchState(hunks, currentHunk, inHunk));
      } else {
        assert PatchStep(st, line) == Ok(PatchState(hunks, currentHunk, inHunk));
      }
      assert PatchRun(lines[..i + 1]) == Ok(PatchState(hunks, currentHunk, inHunk));
      i := i + 1;
    }
    assert lines[..i] == lines;
    if currentHunk != [] {
      var hunk := ParseHunk(currentHunk);
      if hunk.Err? {
        return Err(hunk.error);
      }
      hunks := hunks + [hunk.value];
    }
    r := Ok(hunks);
  }

  /** An error on a prefix of the lines is the error of the whole run. */
  lemma {:induction false} PatchRunStopsAtError(lines: seq<String>, j: nat)
    requires j <= |lines| && PatchRun(lines[..j]).Err?
    ensures PatchRun(lines) == PatchRun(lines[..j])
    ensures PatchHunks(lines) == Err(PatchRun(lines[..j]).error)
    decreases |lines| - j
  {
    if j < |lines| {
      assert lines[..j + 1][..j] == lines[..j];
      PatchRunStopsAtError(lines, j + 1);
    } else {
      assert lines[..j] == lines;
    }
  }

  /** Text before the first `@@ ` line is dropped. */
  lemma {:induction false} PreambleIsDropped(pre: seq<String>)
    requires forall k :: 0 <= k < |pre| ==> !StartsWith(pre[k], "@@ ")
    ensures PatchRun(pre) == Ok(PatchStart)
    decreases |pre|
  {
    if pre != [] {
      PreambleIsDropped(pre[..|pre| - 1]);
    }
  }

  /** Once a hunk is open, lines that are not `@@ ` lines join it. */
  lemma {:induction false} SectionGrows(pre: seq<String>, body: seq<String>)
    requires PatchRun(pre).Ok? && PatchRun(pre).value.inHunk
    requires forall k :: 0 <= k < |body| ==> !StartsWith(body[k], "@@ ")
    ensures PatchRun(pre + body) ==
      Ok(PatchState(PatchRun(pre).value.hunks, PatchRun(pre).value.current + body, true))
    decreases |body|
  {
    if body == [] {
      assert pre + body == pre;
      assert PatchRun(pre).value.current + body == PatchRun(pre).value.current;
    } else {
      var init := body[..|body| - 1];
      assert (pre + body)[..|pre + body| - 1] == pre + init;
      SectionGrows(pre, init);
      assert PatchRun(pre).value.current + init + [body[|body| - 1]] == PatchRun(pre).value.current + body;
    }
  }

  /** A patch whose `@@ ` line is followed by lines without another one is
      one hunk: the section from that `@@ ` line to the end. */
  lemma OneSection(pre: seq<String>, header: String, body: seq<String>)
    requires forall k :: 0 <= k < |pre| ==> !StartsWith(pre[k], "@@ ")
    requires StartsWith(header, "@@ ")
    requires forall k :: 0 <= k < |body| ==> !StartsWith(body[k], "@@ ")
    ensures PatchHunks(pre + [header] + body) ==
      match HunkOf([header] + body)
      case Err(e) => Err(e)
      case Ok(h) => Ok([h])
  {
    PreambleIsDropped(pre);
    var lines := pre + [header];
    assert lines[..|lines| - 1] == pre && lines[|lines| - 1] == header;
    assert PatchStart.current + [header] == [header];
    assert PatchStep(PatchStart, header) == Ok(PatchState([], [header], true));
    assert PatchRun(lines) == Ok(PatchState([], [header], true));
    SectionGrows(pre + [header], body);
    assert [header] + body != [];
    assert PatchRun(pre + [header] + body) == Ok(PatchState([], [header] + body, true));
    match HunkOf([header] + body) {
      case Err(e) =>
      case Ok(h) => assert [] + [h] == [h];
    }
  }

  // ---------------------------------------------------------- find_hunk_position

  /** `s.count('\n')`, the number of newline characters. */
  function Newlines(s: String): nat
    decreases |s|
  {
    if s == [] then 0 else Newlines(s[..|s| - 1]) + (if s[|s| - 1] == '\n' then 1 else 0)
  }

  /** What `find_hunk_position(content, context_before, context_after)`
      returns: -1 when both contexts are empty, 0 when their joined text is
      empty, the line after the leading context when the joined contexts
      occur exactly once in the joined content (overlaps counted), -1
      otherwise. */
  function HunkPosition(content: seq<String>, contextBefore: seq<String>, contextAfter: seq<String>): int {
    if contextBefore == [] && contextAfter == [] then -1
    else
      var contentStr := Join("\n", content);
      var searchStr := Join("\n", contextBefore + contextAfter);
      if searchStr == [] then 0
      else
        var matches := AllMatches(contentStr, searchStr);
        if |matches| == 1 then Newlines(Prefix(contentStr, matches[0])) + |contextBefore| else -1
  }

  /** `find_hunk_position(content, context_before, context_after)` */
  method FindHunkPosition(content: seq<String>, contextBefore: seq<String>, contextAfter: seq<String>)
    returns (r: int)
    ensures r == HunkPosition(content, contextBefore, contextAfter)
  {
    if contextBefore == [] && contextAfter == [] {
      return -1;
    }
    var contentStr := Join("\n", content);
    var searchStr := Join("\n", contextBefore + contextAfter);
    if searchStr == [] {
      return 0;
    }
    var matches := CollectMatches(contentStr, searchStr);
    if |matches| == 1 {
      return Newlines(Prefix(contentStr, matches[0])) + |contextBefore|;
    }
    r := -1;
  }

  /** A line list whose lines hold no newline. */
  predicate NoNewlines(lines: seq<String>) {
    forall k :: 0 <= k < |lines| ==> '\n' !in lines[k]
  }

  lemma {:induction false} NewlinesAppend(a: String, b: String)
    ensures Newlines(a + b) == Newlines(a) + Newlines(b)
    decreases |b|
  {
    if b == [] {
      assert a + b == a;
    } else {
      assert (a + b)[..|a + b| - 1] == a + b[..|b| - 1];
      NewlinesAppend(a, b[..|b| - 1]);
    }
  }

  lemma {:induction false} NoNewlineCount(s: String)
    requires '\n' !in s
    ensures Newlines(s) == 0
    decreases |s|
  {
    if s != [] {
      assert s[..|s| - 1] + [s[|s| - 1]] == s;
      NoNewlineCount(s[..|s| - 1]);
    }
  }

  /** Joining `k` lines that hold no newline with "\n" and ending the last
      one gives text with exactly `k` newlines. */
  lemma {:induction false} LinesBeforeCount(lines: seq<String>)
    requires NoNewlines(lines) && lines != []
    ensures Newlines(Join("\n", lines) + "\n") == |lines|
    decreases |lines|
  {
    if |lines| == 1 {
      NoNewlineCount(lines[0]);
      NewlinesAppend(lines[0], "\n");
    } else {
      assert Join("\n", lines) == lines[0] + "\n" + Join("\n", lines[1..]);
      LinesBeforeCount(lines[1..]);
      NoNewlineCount(lines[0]);
      NewlinesAppend(lines[0] + "\n", Join("\n", lines[1..]) + "\n");
      NewlinesAppend(lines[0], "\n");
      assert lines[0] + "\n" + Join("\n", lines[1..]) + "\n" == (lines[0] + "\n") + (Join("\n", lines[1..]) + "\n");
    }
  }

  /** When the joined contexts occur exactly once and start at line `k` of
      the content, the hunk is placed at line `k + len(context_before)`. */
  lemma UniqueContextPlacesHunk(content: seq<String>, contextBefore: seq<String>, contextAfter: seq<String>, k: nat)
    requires NoNewlines(content) && 0 < k < |content|
    requires Join("\n", contextBefore + contextAfter) != []
    requires AllMatches(Join("\n", content), Join("\n", contextBefore + contextAfter)) ==
      [|Join("\n", content[..k]) + "\n"|]
    ensures HunkPosition(content, contextBefore, contextAfter) == k + |contextBefore|
  {
    var lead := Join("\n", content[..k]) + "\n";
    JoinSplit(content, k);
    assert Prefix(Join("\n", content), |lead|) == lead;
    assert NoNewlines(content[..k]) by {
      assert forall j :: 0 <= j < k ==> content[..k][j] == content[j];
    }
    LinesBeforeCount(content[..k]);
    assert contextBefore == [] && contextAfter == [] ==> contextBefore + contextAfter == [];
  }

  /** When the joined contexts occur exactly once, at the very start of
      the content, the hunk is placed at line `len(context_before)`. */
  lemma UniqueContextAtFirstLine(content: seq<String>, contextBefore: seq<String>, contextAfter: seq<String>)
    requires Join("\n", contextBefore + contextAfter) != []
    requires AllMatches(Join("\n", content), Join("\n", contextBefore + contextAfter)) == [0]
    ensures HunkPosition(content, contextBefore, contextAfter) == |contextBefore|
  {
    assert contextBefore == [] && contextAfter == [] ==> contextBefore + contextAfter == [];
    assert Prefix(Join("\n", content), 0) == [];
  }

  /** Joined lines split at a line boundary. */
  lemma JoinSplit(lines: seq<String>, k: nat)
    requires 0 < k < |lines|
    ensures Join("\n", lines) == Join("\n", lines[..k]) + "\n" + Join("\n", lines[k..])
  {
    var a, b := lines[..k], lines[k..];
    assert a + b == lines;
    JoinConcat(a, b);
  }

  /** Joining two non-empty lists is joining each and putting "\n" between. */
  lemma {:induction false} JoinConcat(a: seq<String>, b: seq<String>)
    requires a != [] && b != []
    ensures Join("\n", a + b) == Join("\n", a) + "\n" + Join("\n", b)
    decreases |a|
  {
    if |a| == 1 {
      assert (a + b)[0] == a[0] && (a + b)[1..] == b;
    } else {
      assert (a + b)[0] == a[0] && (a + b)[1..] == a[1..] + b;
      JoinConcat(a[1..], b);
    }
  }

  /** Both contexts empty: the hunk is not placed. An empty joined context
      (a single empty context line): line 0. Absent or repeated joined
      context: not placed. */
  lemma PositionEdgeCases(content: seq<String>, contextBefore: seq<String>, contextAfter: seq<String>)
    ensures contextBefore == [] && contextAfter == [] ==> HunkPosition(content, contextBefore, contextAfter) == -1
    ensures contextBefore + contextAfter == [[]] ==> HunkPosition(content, contextBefore, contextAfter) == 0
    ensures (Join("\n", contextBefore + contextAfter) != [] &&
             |AllMatches(Join("\n", content), Join("\n", contextBefore + contextAfter))| != 1) ==>
      HunkPosition(content, contextBefore, contextAfter) == -1
  {
  }

  // ------------------------------------------------------------------- apply_patch

  /** `lines.insert(position, line)`: past the end it appends. */
  function Insert(lines: seq<String>, position: nat, line: String): (r: seq<String>)
    ensures |r| == |lines| + 1
  {
    if position <= |lines| then lines[..position] + [line] + lines[position..] else lines + [line]
  }

  /** `del lines[position]` */
  function Delete(lines: seq<String>, position: nat): (r: seq<String>)
    requires position < |lines|
    ensures |r| == |lines| - 1
  {
    lines[..position] + lines[position + 1..]
  }

  /** One change replayed at `position`: '+' inserts; '-' deletes only when
      the line there is the one to remove, and otherwise changes nothing. */
  function ReplayOne(lines: seq<String>, position: nat, c: Change): seq<String> {
    match c
    case Add(t) => Insert(lines, position, t)
    case Remove(t) => if position < |lines| && lines[position] == t then Delete(lines, position) else lines
  }

  /** The changes replayed last to first, all at the same `position`. */
  function ReplayChanges(lines: seq<String>, position: nat, changes: seq<Change>): seq<String>
    decreases |changes|
  {
    if changes == [] then lines
    else ReplayChanges(ReplayOne(lines, position, changes[|changes| - 1]), position, changes[..|changes| - 1])
  }

  /** The hunks taken last to first, each placed against the original lines,
      each replayed on the lines the later hunks produced. */
  function ReplayHunks(original: seq<String>, lines: seq<String>, hunks: seq<HunkParts>): seq<String>
    decreases |hunks|
  {
    if hunks == [] then lines
    else
      var h := hunks[|hunks| - 1];
      var position := HunkPosition(original, h.contextBefore, h.contextAfter);
      var next := if position == -1 then lines else ReplayChanges(lines, position as nat, h.changes);
      ReplayHunks(original, next, hunks[..|hunks| - 1])
  }

  /** What `apply_patch` returns for the source's lines and the patch text. */
  function PatchResult(content: seq<String>, patchContent: String): Result<String, PatchError> {
    match PatchHunks(SplitLines(patchContent))
    case Err(e) => Err(e)
    case Ok(hunks) => Ok(Join("\n", ReplayHunks(content, content, hunks)))
  }

  /** The replay loop of `apply_patch` for one hunk: `new_content` is changed
      in place, last change first. */
  method ReplayInPlace(lines: seq<String>, position: nat, changes: seq<Change>) returns (newContent: seq<String>)
    ensures newContent == ReplayChanges(lines, position, changes)
  {
    newContent := lines;
    var i := |changes|;
    assert changes[..i] == changes;
    while i > 0
      invariant 0 <= i <= |changes|
      invariant ReplayChanges(lines, position, changes) == ReplayChanges(newContent, position, changes[..i])
    {
      assert changes[..i][..i - 1] == changes[..i - 1];
      match changes[i - 1] {
        case Add(t) =>
          newContent := Insert(newContent, position, t);
        case Remove(t) =>
          if position < |newContent| && newContent[position] == t {
            newContent := Delete(newContent, position);
          }
      }
      i := i - 1;
    }
  }

  /** `apply_patch(source_file, patch_file)` with the source's lines and the
      patch's text passed in. */
  method ApplyPatch(content: seq<String>, patchContent: String) returns (r: Result<String, PatchError>)
    ensures r == PatchResult(content, patchContent)
  {
    var parsed := ParsePatchHunks(patchContent);
    if parsed.Err? {
      return Err(parsed.error);
    }
    var hunks := parsed.value;
    var newContent := content;
    var i := |hunks|;
    assert hunks[..i] == hunks;
    while i > 0
      invariant 0 <= i <= |hunks|
      invariant ReplayHunks(content, content, hunks) == ReplayHunks(content, newContent, hunks[..i])
    {
      assert hunks[..i][..i - 1] == hunks[..i - 1];
      var h := hunks[i - 1];
      var position := FindHunkPosition(content, h.contextBefore, h.contextAfter);
      if position != -1 {
        newContent := ReplayInPlace(newContent, position as nat, h.changes);
      }
      i := i - 1;
    }
    r := Ok(Join("\n", newContent));
  }

  /** Additions replayed backwards at one position come out in their own
      order, in front of the line that was there. */
  lemma {:induction false} AdditionsKeepOrder(lines: seq<String>, position: nat, texts: seq<String>)
    requires position <= |lines|
    ensures ReplayChanges(lines, position, seq(|texts|, k requires 0 <= k < |texts| => Add(texts[k]))) ==
      lines[..position] + texts + lines[position..]
    decreases |texts|
  {
    var adds := seq(|texts|, k requires 0 <= k < |texts| => Add(texts[k]));
    if texts == [] {
      assert lines[..position] + texts + lines[position..] == lines;
    } else {
      var n := |texts| - 1;
      var next := Insert(lines, position, texts[n]);
      assert adds[n] == Add(texts[n]);
      assert adds[..n] == seq(n, k requires 0 <= k < n => Add(texts[..n][k]));
      AdditionsKeepOrder(next, position, texts[..n]);
      assert next[..position] == lines[..position];
      assert next[position..] == [texts[n]] + lines[position..];
      assert texts[..n] + [texts[n]] == texts;
    }
  }

  /** A single removal of the line found at the position deletes it. */
  lemma SingleRemoval(lines: seq<String>, position: nat)
    requires position < |lines|
    ensures ReplayChanges(lines, position, [Remove(lines[position])]) == lines[..position] + lines[position + 1..]
  {
  }

  /** Replaying backwards compares each removal with the line at the same
      position, so of two consecutive distinct removed lines only the first
      is deleted: `a`, `b` at line 0 leave `b`. */
  lemma TwoRemovalsDeleteOnlyTheFirst()
    ensures ReplayChanges(["a", "b"], 0, [Remove("a"), Remove("b")]) == ["b"]
  {
    assert [Remove("a"), Remove("b")][..1] == [Remove("a")];
    assert ReplayOne(["a", "b"], 0, Remove("b")) == ["a", "b"];
    assert Delete(["a", "b"], 0) == ["b"];
  }

  /** A hunk that cannot be placed is skipped. */
  lemma {:induction false} UnplacedHunksAreSkipped(original: seq<String>, lines: seq<String>, hunks: seq<HunkParts>)
    requires forall k :: 0 <= k < |hunks| ==>
      HunkPosition(original, hunks[k].contextBefore, hunks[k].contextAfter) == -1
    ensures ReplayHunks(original, lines, hunks) == lines
    decreases |hunks|
  {
    if hunks != [] {
      UnplacedHunksAreSkipped(original, lines, hunks[..|hunks| - 1]);
    }
  }
}
