/** The parts of Python's `str` semantics that the patchers depend on:
    prefix tests, `find` with a start index, `count`, `replace`,
    `splitlines` (with and without line ends), `strip`, `split()` and `join`,
    and the clamping that slicing does past the end of a string. */
module PyStr {

  type String = seq<char>

  /** `s.startswith(p)` */
  predicate StartsWith(s: String, p: String) {
    |p| <= |s| && s[..|p|] == p
  }

  /** `s.endswith(p)` */
  predicate EndsWith(s: String, p: String) {
    |p| <= |s| && s[|s| - |p|..] == p
  }

  /** `pat` occurs in `s` starting at index `i`. */
  predicate OccursAt(s: String, pat: String, i: int) {
    0 <= i && i + |pat| <= |s| && s[i..i + |pat|] == pat
  }

  /** Every index at which `pat` occurs in `s`, overlapping occurrences included. */
  ghost function Occurrences(s: String, pat: String): set<nat> {
    set i: nat | i <= |s| && OccursAt(s, pat, i)
  }

  /** `s.find(pat, start)`: the leftmost occurrence at or after `start`, or -1.
      As in Python, a start past the end finds nothing, not even the empty string. */
  function Find(s: String, pat: String, start: nat): (r: int)
    ensures r == -1 || (start <= r <= |s| && OccursAt(s, pat, r))
    ensures forall j :: start <= j && (r == -1 || j < r) ==> !OccursAt(s, pat, j)
    decreases |s| + 1 - start
  {
    if start > |s| then -1
    else if OccursAt(s, pat, start) then start
    else Find(s, pat, start + 1)
  }

  /** The indices collected by the loop `idx = s.find(pat, start)`,
      `start = idx + 1` until -1. */
  function MatchesFrom(s: String, pat: String, start: nat): seq<nat>
    decreases |s| + 1 - start
  {
    var idx := Find(s, pat, start);
    if idx == -1 then [] else [idx] + MatchesFrom(s, pat, idx + 1)
  }

  /** The collected indices are every occurrence at or after `start`,
      overlapping ones included, each once and in increasing order. */
  lemma {:induction false} MatchesFromExact(s: String, pat: String, start: nat)
    ensures forall k :: 0 <= k < |MatchesFrom(s, pat, start)| ==>
      start <= MatchesFrom(s, pat, start)[k] && OccursAt(s, pat, MatchesFrom(s, pat, start)[k])
    ensures forall i :: start <= i && OccursAt(s, pat, i) ==> i in MatchesFrom(s, pat, start)
    ensures forall k, l :: 0 <= k < l < |MatchesFrom(s, pat, start)| ==>
      MatchesFrom(s, pat, start)[k] < MatchesFrom(s, pat, start)[l]
    decreases |s| + 1 - start
  {
    var idx := Find(s, pat, start);
    if idx != -1 {
      var rest := MatchesFrom(s, pat, idx + 1);
      MatchesFromExact(s, pat, idx + 1);
      assert MatchesFrom(s, pat, start) == [idx] + rest;
      forall i | start <= i && OccursAt(s, pat, i) ensures i in MatchesFrom(s, pat, start) {
        if i != idx {
          assert i in rest;
        }
      }
    }
  }

  /** The matching loop shared by patcher_v3.py, patcher_v4.py and
      my-patch.py: every index at which `pat` occurs, collected by repeated
      `find` from `idx + 1`. */
  method CollectMatches(s: String, pat: String) returns (matches: seq<nat>)
    ensures matches == AllMatches(s, pat)
  {
    matches := [];
    var start := 0;
    while true
      invariant start <= |s| + 1
      invariant matches + MatchesFrom(s, pat, start) == MatchesFrom(s, pat, 0)
      decreases |s| + 1 - start
    {
      var idx := Find(s, pat, start);
      if idx == -1 {
        break;
      }
      ghost var rest := MatchesFrom(s, pat, idx + 1);
      assert MatchesFrom(s, pat, start) == [idx] + rest;
      assert matches + ([idx] + rest) == (matches + [idx]) + rest;
      matches := matches + [idx];
      start := idx + 1;
    }
  }

  /** All occurrences of `pat` in `s`, counted with overlap. */
  function AllMatches(s: String, pat: String): seq<nat> {
    MatchesFrom(s, pat, 0)
  }

  /** The indices `AllMatches` collects are exactly the occurrences. */
  lemma AllMatchesAreOccurrences(s: String, pat: String)
    ensures forall i :: i in AllMatches(s, pat) <==> i in Occurrences(s, pat)
  {
    MatchesFromExact(s, pat, 0);
  }

  /** Exactly one collected match means the occurrence set is that one index;
      two or more mean two distinct occurrences; none means no occurrence. */
  lemma MatchCountDecidesUniqueness(s: String, pat: String)
    ensures |AllMatches(s, pat)| == 0 <==> Occurrences(s, pat) == {}
    ensures |AllMatches(s, pat)| == 1 ==> Occurrences(s, pat) == {AllMatches(s, pat)[0]}
    ensures |AllMatches(s, pat)| >= 2 ==>
      AllMatches(s, pat)[0] != AllMatches(s, pat)[1] &&
      AllMatches(s, pat)[0] in Occurrences(s, pat) && AllMatches(s, pat)[1] in Occurrences(s, pat)
  {
    AllMatchesAreOccurrences(s, pat);
    MatchesFromExact(s, pat, 0);
    var r := AllMatches(s, pat);
    if |r| == 1 {
      forall i | i in Occurrences(s, pat) ensures i == r[0] {
        assert i in r;
      }
    }
  }

  /** Two distinct occurrences are two collected matches. */
  lemma TwoOccurrencesTwoMatches(s: String, pat: String, i: nat, j: nat)
    requires i != j && i in Occurrences(s, pat) && j in Occurrences(s, pat)
    ensures |AllMatches(s, pat)| >= 2
  {
    AllMatchesAreOccurrences(s, pat);
    assert i in AllMatches(s, pat);
    assert j in AllMatches(s, pat);
  }

  /** A pattern occurs only once when one of its characters occurs only once
      in `s`: every occurrence must line that character up. */
  lemma UniqueOccurrenceByMarker(s: String, pat: String, m: nat, at: nat)
    requires m < |pat| && OccursAt(s, pat, at)
    requires forall k :: 0 <= k < |s| && s[k] == pat[m] ==> k == at + m
    ensures AllMatches(s, pat) == [at]
  {
    forall i | OccursAt(s, pat, i) ensures i == at {
      assert s[i..i + |pat|][m] == pat[m];
    }
    assert Find(s, pat, 0) == at;
    assert Find(s, pat, at + 1) == -1;
    assert MatchesFrom(s, pat, at + 1) == [];
  }

  /** A character absent from `y` can stand in `x + y` only inside `x`. */
  lemma CharInLeft(x: String, y: String, c: char)
    requires c !in y
    ensures forall k :: 0 <= k < |x + y| && (x + y)[k] == c ==> k < |x| && x[k] == c
  {
    assert forall k :: |x| <= k < |x + y| ==> (x + y)[k] == y[k - |x|];
  }

  /** A character absent from `x` can stand in `x + y` only inside `y`. */
  lemma CharInRight(x: String, y: String, c: char)
    requires c !in x
    ensures forall k :: 0 <= k < |x + y| && (x + y)[k] == c ==> |x| <= k && y[k - |x|] == c
  {
    assert forall k :: 0 <= k < |x| ==> (x + y)[k] == x[k];
  }

  /** `s.count(pat)`: non-overlapping occurrences, scanned left to right;
      the empty string is counted `|s| + 1` times. */
  function Count(s: String, pat: String): nat {
    if pat == [] then |s| + 1 else CountFrom(s, pat, 0)
  }

  function CountFrom(s: String, pat: String, i: nat): nat
    requires pat != []
    decreases |s| - i
  {
    if i + |pat| > |s| then 0
    else if OccursAt(s, pat, i) then 1 + CountFrom(s, pat, i + |pat|)
    else CountFrom(s, pat, i + 1)
  }

  /** The count from `i` skips a stretch with no occurrence. */
  lemma {:induction false} CountFromSkips(s: String, pat: String, i: nat, j: nat)
    requires pat != [] && i <= j
    requires forall k :: i <= k < j ==> !OccursAt(s, pat, k)
    ensures CountFrom(s, pat, i) == CountFrom(s, pat, j)
    decreases j - i
  {
    if i < j {
      if i + |pat| <= |s| {
        CountFromSkips(s, pat, i + 1, j);
      } else {
        assert j + |pat| > |s|;
      }
    }
  }

  /** The count from `i` is zero exactly when nothing occurs from `i` on, and
      otherwise is one more than the count after the leftmost occurrence. */
  lemma {:induction false} CountFromFind(s: String, pat: String, i: nat)
    requires pat != [] && i <= |s|
    ensures Find(s, pat, i) == -1 ==> CountFrom(s, pat, i) == 0
    ensures Find(s, pat, i) != -1 ==>
      CountFrom(s, pat, i) == 1 + CountFrom(s, pat, Find(s, pat, i) + |pat|)
  {
    var f := Find(s, pat, i);
    if f == -1 {
      CountFromSkips(s, pat, i, |s|);
    } else {
      CountFromSkips(s, pat, i, f);
    }
  }

  /** `count` sees an occurrence exactly when `find` does. */
  lemma CountPositiveIffFound(s: String, pat: String)
    ensures Count(s, pat) >= 1 <==> Find(s, pat, 0) != -1
  {
    if pat != [] {
      CountFromFind(s, pat, 0);
    }
  }

  /** `count` returning 1 does not mean a single occurrence: it means every
      occurrence overlaps the leftmost one. */
  lemma CountOneMeansOverlapping(s: String, pat: String, i: nat)
    requires pat != [] && Count(s, pat) == 1 && OccursAt(s, pat, i)
    ensures Find(s, pat, 0) <= i < Find(s, pat, 0) + |pat|
  {
    CountFromFind(s, pat, 0);
    var f := Find(s, pat, 0);
    if f + |pat| <= |s| {
      CountFromFind(s, pat, f + |pat|);
    }
  }

  /** `s.replace(pat, repl)` for a non-empty `pat`: leftmost, non-overlapping. */
  function ReplaceAll(s: String, pat: String, repl: String): String
    requires pat != []
    decreases |s|
  {
    if s == [] then []
    else if StartsWith(s, pat) then repl + ReplaceAll(s[|pat|..], pat, repl)
    else [s[0]] + ReplaceAll(s[1..], pat, repl)
  }

  /** Replacing a one-character pattern by text free of it leaves none behind. */
  lemma {:induction false} ReplaceAllRemovesChar(s: String, c: char, repl: String)
    requires c !in repl
    ensures c !in ReplaceAll(s, [c], repl)
    decreases |s|
  {
    if s != [] {
      ReplaceAllRemovesChar(s[1..], c, repl);
    }
  }

  /** A stretch that cannot start the pattern passes through `replace` untouched. */
  lemma {:induction false} ReplaceAllFreePrefix(x: String, pat: String, repl: String, y: String)
    requires pat != [] && pat[0] !in x
    ensures ReplaceAll(x + y, pat, repl) == x + ReplaceAll(y, pat, repl)
    decreases |x|
  {
    if x == [] {
      assert x + y == y;
    } else {
      assert x[0] in x;
      assert !StartsWith(x + y, pat) by {
        if |pat| <= |x + y| {
          assert (x + y)[..|pat|][0] == x[0];
        }
      }
      assert (x + y)[1..] == x[1..] + y;
      ReplaceAllFreePrefix(x[1..], pat, repl, y);
      assert [x[0]] + x[1..] == x;
    }
  }

  /** An occurrence at the front is replaced and the scan resumes after it. */
  lemma ReplaceAllAtFront(pat: String, repl: String, y: String)
    requires pat != []
    ensures ReplaceAll(pat + y, pat, repl) == repl + ReplaceAll(y, pat, repl)
  {
    assert (pat + y)[..|pat|] == pat;
    assert (pat + y)[|pat|..] == y;
  }

  /** Text in which the pattern cannot start is left as it is. */
  lemma ReplaceAllAbsent(s: String, pat: String, repl: String)
    requires pat != [] && pat[0] !in s
    ensures ReplaceAll(s, pat, repl) == s
  {
    ReplaceAllFreePrefix(s, pat, repl, []);
    assert s + [] == s;
  }

  /** `s.replace(pat, repl, 1)`: only the leftmost occurrence is replaced (an
      empty `pat` occurs at the front). */
  function ReplaceFirst(s: String, pat: String, repl: String): (r: String)
    ensures Find(s, pat, 0) == -1 ==> r == s
  {
    var i := Find(s, pat, 0);
    if i == -1 then s else s[..i] + repl + s[i + |pat|..]
  }

  /** When the string starts with the pattern, replacing it once by nothing
      strips exactly that prefix. */
  lemma ReplaceFirstStripsPrefix(s: String, pat: String)
    requires StartsWith(s, pat)
    ensures pat + ReplaceFirst(s, pat, []) == s
    ensures ReplaceFirst(s, pat, []) == s[|pat|..]
  {
    assert OccursAt(s, pat, 0);
    assert s == s[..|pat|] + s[|pat|..];
  }

  /** `s[:k]`: slicing past the end yields the whole string. */
  function Prefix(s: String, k: nat): (r: String)
    ensures |r| == if k <= |s| then k else |s|
    ensures r <= s
  {
    if k <= |s| then s[..k] else s
  }

  /** `s[k:]`: slicing past the end yields the empty string. */
  function Suffix(s: String, k: nat): (r: String)
    ensures Prefix(s, k) + r == s
  {
    if k <= |s| then s[k..] else []
  }

  /** `content[:start] + repl + content[start + cut:]`, with Python's clamping. */
  function Splice(content: String, start: nat, cut: nat, repl: String): String {
    Prefix(content, start) + repl + Suffix(content, start + cut)
  }

  /** A splice at the end, however much it cuts, appends. */
  lemma SpliceAtEnd(content: String, cut: nat, repl: String)
    ensures Splice(content, |content|, cut, repl) == content + repl
  {
  }

  /** A splice at an in-range span keeps everything outside the span: the
      characters before `start`, then `repl`, then the characters after. */
  lemma SpliceKeepsOutside(content: String, start: nat, cut: nat, repl: String)
    requires start + cut <= |content|
    ensures |Splice(content, start, cut, repl)| == |content| - cut + |repl|
    ensures forall k :: 0 <= k < start ==> Splice(content, start, cut, repl)[k] == content[k]
    ensures Splice(content, start, cut, repl)[start..start + |repl|] == repl
    ensures forall k :: start + cut <= k < |content| ==>
      Splice(content, start, cut, repl)[k - cut + |repl|] == content[k]
  {
    var r := Splice(content, start, cut, repl);
    assert r == content[..start] + repl + content[start + cut..];
    assert r[start..start + |repl|] == repl;
  }

  /** Splicing over the middle part of `head + mid + tail` swaps just that part. */
  lemma SpliceMiddle(head: String, mid: String, tail: String, repl: String)
    ensures Splice(head + mid + tail, |head|, |mid|, repl) == head + repl + tail
  {
    var s := head + mid + tail;
    assert s[..|head|] == head;
    assert s[|head| + |mid|..] == tail;
  }

  /** Splicing over the leading part of `pat + tail` swaps just that part. */
  lemma SpliceFront(pat: String, tail: String, repl: String)
    ensures Splice(pat + tail, 0, |pat|, repl) == repl + tail
  {
    assert Prefix(pat + tail, 0) == [];
    assert Suffix(pat + tail, |pat|) == tail;
  }

  /** An occurrence cuts the text into what precedes it, the pattern, and
      what follows it. */
  lemma OccurrenceSplits(s: String, pat: String, i: nat)
    requires OccursAt(s, pat, i)
    ensures s == s[..i] + pat + s[i + |pat|..]
  {
  }

  /** A pattern placed between two texts occurs right after the first. */
  lemma OccurrenceAt(head: String, pat: String, tail: String)
    ensures OccursAt(head + pat + tail, pat, |head|)
  {
    assert (head + pat + tail)[|head|..|head| + |pat|] == pat;
  }

  /** An occurrence in `y` is one in `c + y`, shifted by `|c|`. */
  lemma OccursAtShift(c: String, y: String, pat: String, p: nat)
    requires OccursAt(y, pat, p)
    ensures OccursAt(c + y, pat, |c| + p)
  {
    assert (c + y)[|c| + p..|c| + p + |pat|] == y[p..p + |pat|];
  }

  /** A text starts with an occurrence of its own prefix. */
  lemma OccursAtStart(pat: String, tail: String)
    ensures OccursAt(pat + tail, pat, 0)
  {
    assert (pat + tail)[..|pat|] == pat;
  }

  /** Splicing an occurrence of `pat` with `pat` itself changes nothing. */
  lemma SpliceSame(s: String, pat: String, i: nat)
    requires OccursAt(s, pat, i)
    ensures Splice(s, i, |pat|, pat) == s
  {
    OccurrenceSplits(s, pat, i);
    SpliceMiddle(s[..i], pat, s[i + |pat|..], pat);
  }

  /** `''.join(parts)` */
  function Concat(parts: seq<String>): String {
    if parts == [] then [] else parts[0] + Concat(parts[1..])
  }

  /** `sep.join(parts)` */
  function Join(sep: String, parts: seq<String>): String {
    if parts == [] then []
    else if |parts| == 1 then parts[0]
    else parts[0] + sep + Join(sep, parts[1..])
  }

  lemma {:induction false} ConcatAppend(parts: seq<String>, x: String)
    ensures Concat(parts + [x]) == Concat(parts) + x
  {
    if parts != [] {
      ConcatAppend(parts[1..], x);
      assert (parts + [x])[1..] == parts[1..] + [x];
    }
  }

  lemma {:induction false} JoinAppend(sep: String, parts: seq<String>, x: String)
    requires parts != []
    ensures Join(sep, parts + [x]) == Join(sep, parts) + sep + x
  {
    if |parts| > 1 {
      JoinAppend(sep, parts[1..], x);
      assert (parts + [x])[1..] == parts[1..] + [x];
    }
  }

  /** The characters at which `str.splitlines` ends a line. */
  predicate IsLineBoundary(c: char) {
    c == '\n' || c == '\r' || c == '\U{0B}' || c == '\U{0C}' || c == '\U{1C}' || c == '\U{1D}' ||
    c == '\U{1E}' || c == '\U{85}' || c == '\U{2028}' || c == '\U{2029}'
  }

  /** The first line boundary at or after `i`, or `|s|` when there is none. */
  function BreakAt(s: String, i: nat): (b: nat)
    requires i <= |s|
    ensures i <= b <= |s|
    ensures b < |s| ==> IsLineBoundary(s[b])
    ensures forall k :: i <= k < b ==> !IsLineBoundary(s[k])
    decreases |s| - i
  {
    if i == |s| || IsLineBoundary(s[i]) then i else BreakAt(s, i + 1)
  }

  /** Where the first line of a non-empty string ends, its terminator
      included; "\r\n" is one terminator. */
  function FirstLineEnd(s: String): (e: nat)
    requires s != []
    ensures BreakAt(s, 0) < e <= |s| || BreakAt(s, 0) == e == |s|
  {
    var b := BreakAt(s, 0);
    if b == |s| then |s|
    else if s[b] == '\r' && b + 1 < |s| && s[b + 1] == '\n' then b + 2
    else b + 1
  }

  /** `s.splitlines(keepends=True)` */
  function SplitLinesKeepEnds(s: String): seq<String>
    decreases |s|
  {
    if s == [] then [] else [s[..FirstLineEnd(s)]] + SplitLinesKeepEnds(s[FirstLineEnd(s)..])
  }

  /** `s.splitlines()`: the same lines with their terminators dropped. */
  function SplitLines(s: String): seq<String>
    decreases |s|
  {
    if s == [] then [] else [s[..BreakAt(s, 0)]] + SplitLines(s[FirstLineEnd(s)..])
  }

  /** Joining the kept-ends lines gives the string back, and no line is empty. */
  lemma {:induction false} SplitLinesKeepEndsJoin(s: String)
    ensures Concat(SplitLinesKeepEnds(s)) == s
    ensures forall k :: 0 <= k < |SplitLinesKeepEnds(s)| ==> SplitLinesKeepEnds(s)[k] != []
    decreases |s|
  {
    if s != [] {
      var e := FirstLineEnd(s);
      SplitLinesKeepEndsJoin(s[e..]);
      assert s[..e] + s[e..] == s;
    }
  }

  /** A line that `splitlines` keeps whole: boundary-free text, then "\n". */
  predicate IsNewlineTerminated(line: String) {
    line != [] && line[|line| - 1] == '\n' &&
    forall k :: 0 <= k < |line| - 1 ==> !IsLineBoundary(line[k])
  }

  /** A printable ASCII text followed by '\n' is one newline-terminated line. */
  lemma PrintableLine(body: String)
    requires forall k :: 0 <= k < |body| ==> ' ' <= body[k] <= '~'
    ensures IsNewlineTerminated(body + "\n")
  {
    var line := body + "\n";
    assert forall k :: 0 <= k < |line| - 1 ==> line[k] == body[k];
  }

  /** Splitting joined newline-terminated lines gives the lines back. */
  lemma {:induction false} SplitLinesKeepEndsOfLines(lines: seq<String>)
    requires forall k :: 0 <= k < |lines| ==> IsNewlineTerminated(lines[k])
    ensures SplitLinesKeepEnds(Concat(lines)) == lines
    decreases |lines|
  {
    if lines != [] {
      var s := Concat(lines);
      var first := lines[0];
      assert s == first + Concat(lines[1..]);
      assert s[..|first|] == first;
      assert BreakAt(s, 0) == |first| - 1;
      assert FirstLineEnd(s) == |first|;
      assert s[|first|..] == Concat(lines[1..]);
      SplitLinesKeepEndsOfLines(lines[1..]);
    }
  }

  /** A string without line boundaries is one line (or none, when empty). */
  lemma SplitLinesOfOneLine(s: String)
    requires forall k :: 0 <= k < |s| ==> !IsLineBoundary(s[k])
    ensures SplitLines(s) == if s == [] then [] else [s]
    ensures SplitLinesKeepEnds(s) == if s == [] then [] else [s]
  {
    if s != [] {
      assert BreakAt(s, 0) == |s|;
      assert FirstLineEnd(s) == |s|;
      assert s[..|s|] == s;
      assert s[|s|..] == [];
    }
  }

  /** Python's `str.isspace` for one character. */
  predicate IsSpace(c: char) {
    c in {'\t', '\n', '\U{0B}', '\U{0C}', '\r', '\U{1C}', '\U{1D}', '\U{1E}', '\U{1F}', ' ',
          '\U{85}', '\U{A0}', '\U{1680}', '\U{2028}', '\U{2029}', '\U{202F}', '\U{205F}', '\U{3000}'}
    || ('\U{2000}' <= c <= '\U{200A}')
  }

  predicate AllSpace(s: String) {
    forall k :: 0 <= k < |s| ==> IsSpace(s[k])
  }

  /** `s.lstrip()` */
  function StripLeft(s: String): (r: String)
    ensures |r| <= |s| && r == s[|s| - |r|..]
    ensures AllSpace(s[..|s| - |r|])
    ensures r == [] || !IsSpace(r[0])
    decreases |s|
  {
    if s != [] && IsSpace(s[0]) then
      var r := StripLeft(s[1..]);
      assert s[..|s| - |r|] == [s[0]] + s[1..][..|s| - 1 - |r|];
      r
    else s
  }

  /** `s.rstrip()` */
  function StripRight(s: String): (r: String)
    ensures |r| <= |s| && r == s[..|r|]
    ensures AllSpace(s[|r|..])
    ensures r == [] || !IsSpace(r[|r| - 1])
    decreases |s|
  {
    if s != [] && IsSpace(s[|s| - 1]) then
      var r := StripRight(s[..|s| - 1]);
      assert s[|r|..] == s[..|s| - 1][|r|..] + [s[|s| - 1]];
      r
    else s
  }

  /** `s.strip()` */
  function Strip(s: String): String {
    StripRight(StripLeft(s))
  }

  /** `not s.strip()` holds exactly for whitespace-only strings. */
  lemma StripEmptyIffAllSpace(s: String)
    ensures Strip(s) == [] <==> AllSpace(s)
  {
  }

  /** Length of the run of non-space characters at the start of `s`. */
  function WordEnd(s: String, i: nat): (e: nat)
    requires i <= |s|
    ensures i <= e <= |s|
    ensures e < |s| ==> IsSpace(s[e])
    ensures forall k :: i <= k < e ==> !IsSpace(s[k])
    decreases |s| - i
  {
    if i == |s| || IsSpace(s[i]) then i else WordEnd(s, i + 1)
  }

  /** `s.split()`: the maximal runs of non-space characters, in order. */
  function Words(s: String): (ws: seq<String>)
    ensures forall k :: 0 <= k < |ws| ==> ws[k] != []
    decreases |s|
  {
    if s == [] then []
    else if IsSpace(s[0]) then Words(s[1..])
    else [s[..WordEnd(s, 0)]] + Words(s[WordEnd(s, 0)..])
  }

  /** `' '.join(s.split())` */
  function CollapseSpaces(s: String): String {
    Join(" ", Words(s))
  }

  /** A run of non-space characters. */
  predicate Solid(w: String) {
    forall k :: 0 <= k < |w| ==> !IsSpace(w[k])
  }

  /** A single word splits to itself and strips to itself. */
  lemma OneWord(w: String)
    requires w != [] && Solid(w)
    ensures StripLeft(w) == w && StripRight(w) == w
    ensures Words(w) == [w]
  {
    assert !IsSpace(w[0]) && !IsSpace(w[|w| - 1]);
    assert WordEnd(w, 0) == |w|;
    assert w[..|w|] == w && w[|w|..] == [];
  }

  /** Leading spaces before a word are dropped by `split` and `strip`. */
  lemma SpacedWord(w: String)
    requires w != [] && Solid(w)
    ensures Words(" " + w) == [w] && Strip(" " + w) == w
  {
    OneWord(w);
    assert (" " + w)[1..] == w;
  }

  lemma TwiceSpacedWord(w: String)
    requires w != [] && Solid(w)
    ensures Words("  " + w) == [w] && Strip("  " + w) == w
    ensures CollapseSpaces("  " + w) == w
  {
    SpacedWord(w);
    assert ("  " + w)[1..] == " " + w;
  }

  /** Two words separated by one space split into both words. */
  lemma TwoWords(u: String, w: String)
    requires u != [] && w != [] && Solid(u) && Solid(w)
    ensures Words(u + " " + w) == [u, w]
  {
    var s := u + " " + w;
    assert s[..|u|] == u && s[|u|..] == " " + w;
    FirstWord(s, |u|);
    SpacedWord(w);
  }

  /** A word that starts the string and ends at a space is the first word. */
  lemma FirstWord(s: String, e: nat)
    requires 0 < e < |s| && IsSpace(s[e]) && Solid(s[..e])
    ensures Words(s) == [s[..e]] + Words(s[e..])
  {
    assert forall k :: 0 <= k < e ==> s[k] == s[..e][k];
    assert WordEnd(s, 0) == e;
  }

  /** Two words separated by one space are already collapsed. */
  lemma TwoWordsCollapsed(u: String, w: String)
    requires u != [] && w != [] && Solid(u) && Solid(w)
    ensures CollapseSpaces(u + " " + w) == u + " " + w
  {
    TwoWords(u, w);
    assert [u, w][1..] == [w];
    assert Join(" ", [w]) == w;
    assert Join(" ", [u, w]) == u + " " + Join(" ", [w]);
  }
}
