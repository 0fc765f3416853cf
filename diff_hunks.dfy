/** Hunk assembly and the before/after projection shared by PatcherV3 and
    PatcherV4 (`_parse_hunks` and `_hunk_to_before_after` are the same code in
    patcher_v3.py and patcher_v4.py). The per-line projection is also the one
    the UnifiedDiffPatcher applies to a whole diff. */
module DiffHunks {
  import opened PyStr

  /** One hunk: its lines, each still carrying its tag character and line end. */
  type Hunk = seq<String>

  /** `line.startswith(('---', '+++'))`: a file header, always dropped. */
  predicate IsHeader(line: String) {
    StartsWith(line, "---") || StartsWith(line, "+++")
  }

  /** `line.startswith((' ', '-', '+'))` */
  predicate IsTagged(line: String) {
    line != [] && line[0] in {' ', '-', '+'}
  }

  /** A line that `_parse_hunks` adds to the current hunk. */
  predicate IsBodyLine(line: String) {
    !IsHeader(line) && IsTagged(line)
  }

  /** A line that is neither a header nor tagged: it closes the open hunk. */
  predicate IsCloser(line: String) {
    !IsHeader(line) && !IsTagged(line)
  }

  /** The loop state of `_parse_hunks`: finished hunks and the open one. */
  datatype ParseState = ParseState(hunks: seq<Hunk>, current: Hunk)

  /** One iteration of the loop in `_parse_hunks`. */
  function Step(st: ParseState, line: String): ParseState {
    if IsHeader(line) then st
    else if !IsTagged(line) then
      (if st.current != [] then ParseState(st.hunks + [st.current], []) else ParseState(st.hunks, []))
    else ParseState(st.hunks, st.current + [line])
  }

  /** The loop run over `lines` from state `st`. */
  function Run(st: ParseState, lines: seq<String>): ParseState
    decreases |lines|
  {
    if lines == [] then st else Step(Run(st, lines[..|lines| - 1]), lines[|lines| - 1])
  }

  /** The final `if current_hunk: hunks.append(current_hunk)`. */
  function Finish(st: ParseState): seq<Hunk> {
    if st.current != [] then st.hunks + [st.current] else st.hunks
  }

  /** The hunks `_parse_hunks` returns for the given lines. */
  function Hunks(lines: seq<String>): seq<Hunk> {
    Finish(Run(ParseState([], []), lines))
  }

  /** `_parse_hunks(udiff)`: splits the diff into lines (keeping their ends)
      and groups the runs of tagged lines into hunks. */
  method ParseHunks(udiff: String) returns (hunks: seq<Hunk>)
    ensures hunks == Hunks(SplitLinesKeepEnds(udiff))
  {
    var lines := SplitLinesKeepEnds(udiff);
    hunks := [];
    var current: Hunk := [];
    var i := 0;
    while i < |lines|
      invariant 0 <= i <= |lines|
      invariant ParseState(hunks, current) == Run(ParseState([], []), lines[..i])
    {
      var line := lines[i];
      assert lines[..i + 1][..i] == lines[..i];
      if IsHeader(line) {
        i := i + 1;
        continue;
      }
      if !IsTagged(line) {
        if current != [] {
          hunks := hunks + [current];
          current := [];
        }
        i := i + 1;
        continue;
      }
      current := current + [line];
      i := i + 1;
    }
    assert lines[..i] == lines;
    if current != [] {
      hunks := hunks + [current];
    }
  }

  /** Running the loop over `a + b` is running it over `a`, then over `b`. */
  lemma {:induction false} RunAppend(st: ParseState, a: seq<String>, b: seq<String>)
    ensures Run(st, a + b) == Run(Run(st, a), b)
    decreases |b|
  {
    if b == [] {
      assert a + b == a;
    } else {
      assert (a + b)[..|a + b| - 1] == a + b[..|b| - 1];
      RunAppend(st, a, b[..|b| - 1]);
    }
  }

  /** With no hunk open, earlier finished hunks only stay in front. */
  lemma {:induction false} RunFromClosed(done: seq<Hunk>, b: seq<String>)
    ensures Run(ParseState(done, []), b).hunks == done + Run(ParseState([], []), b).hunks
    ensures Run(ParseState(done, []), b).current == Run(ParseState([], []), b).current
    decreases |b|
  {
    if b != [] {
      RunFromClosed(done, b[..|b| - 1]);
    }
  }

  /** Any line that is neither a header nor tagged closes the current hunk:
      the hunks of `a + [sep] + b` are those of `a` followed by those of `b`. */
  lemma CloserSeparatesHunks(a: seq<String>, sep: String, b: seq<String>)
    requires IsCloser(sep)
    ensures Hunks(a + [sep] + b) == Hunks(a) + Hunks(b)
  {
    var init := ParseState([], []);
    RunAppend(init, a + [sep], b);
    RunAppend(init, a, [sep]);
    assert Run(Run(init, a), [sep]) == ParseState(Hunks(a), []);
    RunFromClosed(Hunks(a), b);
  }

  /** File header lines are dropped wherever they stand. */
  lemma HeaderIsDropped(a: seq<String>, h: String, b: seq<String>)
    requires IsHeader(h)
    ensures Hunks(a + [h] + b) == Hunks(a + b)
  {
    var init := ParseState([], []);
    RunAppend(init, a + [h], b);
    RunAppend(init, a, [h]);
    RunAppend(init, a, b);
  }

  /** An unbroken run of body lines forms a single hunk. */
  lemma {:induction false} RunOfBodyLines(lines: seq<String>)
    requires forall k :: 0 <= k < |lines| ==> IsBodyLine(lines[k])
    ensures Run(ParseState([], []), lines) == ParseState([], lines)
    ensures Hunks(lines) == if lines == [] then [] else [lines]
    decreases |lines|
  {
    if lines != [] {
      RunOfBodyLines(lines[..|lines| - 1]);
      assert lines[..|lines| - 1] + [lines[|lines| - 1]] == lines;
    }
  }

  /** All lines of a list of hunks, in order. */
  function Flatten(hs: seq<Hunk>): seq<String> {
    if hs == [] then [] else hs[0] + Flatten(hs[1..])
  }

  /** The lines that `_parse_hunks` keeps, in document order. */
  function BodyLines(lines: seq<String>): seq<String>
    decreases |lines|
  {
    if lines == [] then []
    else BodyLines(lines[..|lines| - 1]) + (if IsBodyLine(lines[|lines| - 1]) then [lines[|lines| - 1]] else [])
  }

  predicate WellFormedHunk(h: Hunk) {
    h != [] && forall k :: 0 <= k < |h| ==> IsBodyLine(h[k])
  }

  lemma {:induction false} FlattenAppend(hs: seq<Hunk>, h: Hunk)
    ensures Flatten(hs + [h]) == Flatten(hs) + h
  {
    if hs != [] {
      assert (hs + [h])[1..] == hs[1..] + [h];
      FlattenAppend(hs[1..], h);
    }
  }

  /** The loop keeps every finished hunk non-empty and made of body lines,
      and the finished hunks followed by the open one are exactly the body
      lines read so far, in order. */
  lemma {:induction false} RunInvariant(lines: seq<String>)
    ensures forall k :: 0 <= k < |Run(ParseState([], []), lines).hunks| ==>
      WellFormedHunk(Run(ParseState([], []), lines).hunks[k])
    ensures forall k :: 0 <= k < |Run(ParseState([], []), lines).current| ==>
      IsBodyLine(Run(ParseState([], []), lines).current[k])
    ensures Flatten(Run(ParseState([], []), lines).hunks) + Run(ParseState([], []), lines).current
      == BodyLines(lines)
    decreases |lines|
  {
    if lines != [] {
      var prev := lines[..|lines| - 1];
      RunInvariant(prev);
      var st := Run(ParseState([], []), prev);
      if st.current != [] {
        FlattenAppend(st.hunks, st.current);
      }
    }
  }

  /** What `_parse_hunks` promises its callers: every hunk is non-empty, every
      line in it starts with ' ', '-' or '+' and not with "---" or "+++", and
      the hunks hold exactly the kept lines in document order. */
  lemma HunksWellFormed(lines: seq<String>)
    ensures forall k :: 0 <= k < |Hunks(lines)| ==> WellFormedHunk(Hunks(lines)[k])
    ensures Flatten(Hunks(lines)) == BodyLines(lines)
  {
    RunInvariant(lines);
    var st := Run(ParseState([], []), lines);
    if st.current != [] {
      FlattenAppend(st.hunks, st.current);
    }
  }

  /** A line of a hunk feeds `before` when tagged ' ' or '-'. */
  predicate InBefore(line: String) {
    line != [] && line[0] in {' ', '-'}
  }

  /** A line of a hunk feeds `after` when tagged ' ' or '+'. */
  predicate InAfter(line: String) {
    line != [] && line[0] in {' ', '+'}
  }

  /** The in-order concatenation of `line[1:]` over the lines feeding `before`. */
  function BeforeText(lines: seq<String>): String
    decreases |lines|
  {
    if lines == [] then []
    else
      var last := lines[|lines| - 1];
      BeforeText(lines[..|lines| - 1]) + (if InBefore(last) then last[1..] else [])
  }

  /** The in-order concatenation of `line[1:]` over the lines feeding `after`. */
  function AfterText(lines: seq<String>): String
    decreases |lines|
  {
    if lines == [] then []
    else
      var last := lines[|lines| - 1];
      AfterText(lines[..|lines| - 1]) + (if InAfter(last) then last[1..] else [])
  }

  /** `_hunk_to_before_after(hunk)` */
  method HunkToBeforeAfter(hunk: Hunk) returns (before: String, after: String)
    requires forall k :: 0 <= k < |hunk| ==> hunk[k] != []
    ensures before == BeforeText(hunk) && after == AfterText(hunk)
  {
    var beforeParts: seq<String> := [];
    var afterParts: seq<String> := [];
    var i := 0;
    while i < |hunk|
      invariant 0 <= i <= |hunk|
      invariant Concat(beforeParts) == BeforeText(hunk[..i])
      invariant Concat(afterParts) == AfterText(hunk[..i])
    {
      var line := hunk[i];
      var prefix := line[0];
      var content := line[1..];
      assert hunk[..i + 1][..i] == hunk[..i];
      if prefix in {' ', '-'} {
        ConcatAppend(beforeParts, content);
        beforeParts := beforeParts + [content];
      }
      if prefix in {' ', '+'} {
        ConcatAppend(afterParts, content);
        afterParts := afterParts + [content];
      }
      i := i + 1;
    }
    assert hunk[..i] == hunk;
    before := Concat(beforeParts);
    after := Concat(afterParts);
  }

  /** The projections are order-preserving: they distribute over concatenation
      of line lists, so no line moves relative to another. */
  lemma {:induction false} ProjectionDistributes(a: seq<String>, b: seq<String>)
    ensures BeforeText(a + b) == BeforeText(a) + BeforeText(b)
    ensures AfterText(a + b) == AfterText(a) + AfterText(b)
    decreases |b|
  {
    if b == [] {
      assert a + b == a;
    } else {
      assert (a + b)[..|a + b| - 1] == a + b[..|b| - 1];
      ProjectionDistributes(a, b[..|b| - 1]);
    }
  }

  /** One line's contribution to each side. */
  lemma ProjectionOfLine(line: String)
    ensures BeforeText([line]) == if line != [] && line[0] in {' ', '-'} then line[1..] else []
    ensures AfterText([line]) == if line != [] && line[0] in {' ', '+'} then line[1..] else []
  {
    assert [line][..0] == [];
  }

  /** A hunk of context lines only projects to equal before and after texts. */
  lemma {:induction false} ContextOnlyProjectsEqual(lines: seq<String>)
    requires forall k :: 0 <= k < |lines| ==> lines[k] != [] && lines[k][0] == ' '
    ensures BeforeText(lines) == AfterText(lines)
    decreases |lines|
  {
    if lines != [] {
      ContextOnlyProjectsEqual(lines[..|lines| - 1]);
    }
  }
}
