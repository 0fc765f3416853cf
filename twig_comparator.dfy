/** `TwigAstComparator` (compare-twig-files/src/TwigAstComparator.php):
    two Twig templates are equivalent when their texts agree once comments
    and layout are normalised away, or else when their parsed syntax trees
    agree node by node. The Twig parser is a parameter of the model. */
module TwigComparator {
  import opened PyStr
  import opened TextScan
  import opened Wrappers

  // ------------------------------------------------------------ comments

  /** The two delimiters of one kind of comment. */
  datatype Delims = Delims(open: String, close: String)

  /** `{# ... #}` */
  const TwigComment: Delims := Delims("{#", "#}")

  /** `<!-- ... -->` */
  const HtmlComment: Delims := Delims("<!--", "-->")

  /** A comment of kind `d` starts the text: the opener stands first and a
      closer stands somewhere after it. */
  predicate CommentFirst(d: Delims, s: String) {
    Matches(s, d.open, 0) && Search(s, d.close, |d.open|) != -1
  }

  /** `preg_replace('/open.*?close/s', '', s)`: at each position the engine
      tries the opener and then the first closer after it (the lazy `.*?`,
      which with `s` also crosses newlines); a match is deleted and the scan
      resumes after it, otherwise one character is kept and the scan moves
      on by one. */
  function RemoveComments(d: Delims, s: String): String
    requires d.open != []
    decreases |s|
  {
    if s == [] then []
    else if CommentFirst(d, s) then RemoveComments(d, s[Search(s, d.close, |d.open|) + |d.close|..])
    else [s[0]] + RemoveComments(d, s[1..])
  }

  /** Plain text `x`, where no opener starts, is copied as it is. */
  lemma {:induction false} PlainPrefix(d: Delims, x: String, z: String)
    requires d.open != []
    requires forall q :: 0 <= q < |x| ==> !Matches(x + z, d.open, q)
    ensures RemoveComments(d, x + z) == x + RemoveComments(d, z)
    decreases |x|
  {
    if x != [] {
      var s, rest := x + z, x[1..];
      assert s[1..] == rest + z;
      assert RemoveComments(d, s) == [x[0]] + RemoveComments(d, rest + z) by {
        KeepFirst(d, s);
      }
      forall q | 0 <= q < |rest| ensures !Matches(rest + z, d.open, q) {
        MatchesDrop(s, d.open, 1, q);
      }
      PlainPrefix(d, rest, z);
      assert x == [x[0]] + rest;
    } else {
      assert x + z == z;
    }
  }

  /** A character that starts no comment is kept. */
  lemma KeepFirst(d: Delims, s: String)
    requires d.open != [] && s != [] && !Matches(s, d.open, 0)
    ensures RemoveComments(d, s) == [s[0]] + RemoveComments(d, s[1..])
  {
  }

  /** Text with no opener, or with no closer, keeps every character: an
      opener whose comment is never closed stays in the text. */
  lemma {:induction false} NoCommentUnchanged(d: Delims, s: String)
    requires d.open != []
    requires (forall q :: 0 <= q < |s| ==> !Matches(s, d.open, q)) ||
             (forall q :: 0 <= q <= |s| ==> !Matches(s, d.close, q))
    ensures RemoveComments(d, s) == s
    decreases |s|
  {
    if s != [] {
      var j := Search(s, d.close, |d.open|);
      assert j == -1 || Matches(s, d.close, j);
      assert !CommentFirst(d, s);
      forall q | 0 <= q <= |s| - 1 ensures Matches(s[1..], d.open, q) <==> Matches(s, d.open, 1 + q) {
        MatchesDrop(s, d.open, 1, q);
      }
      forall q | 0 <= q <= |s| - 1 ensures Matches(s[1..], d.close, q) <==> Matches(s, d.close, 1 + q) {
        MatchesDrop(s, d.close, 1, q);
      }
      NoCommentUnchanged(d, s[1..]);
      assert s == [s[0]] + s[1..];
    }
  }

  /** A comment that starts the text is skipped as a whole. */
  lemma SkipComment(d: Delims, s: String, e: nat)
    requires d.open != [] && s != [] && CommentFirst(d, s)
    requires e == Search(s, d.close, |d.open|) + |d.close|
    ensures e <= |s| && RemoveComments(d, s) == RemoveComments(d, s[e..])
  {
  }

  /** A comment at the start is deleted up to its first closer, whatever
      its body holds (comment markers of the other kind included), and the
      rest is scanned afresh. */
  lemma LeadingComment(d: Delims, body: String, y: String)
    requires d.open != []
    requires forall k :: 0 <= k < |body| ==> !Matches(body + d.close, d.close, k)
    ensures RemoveComments(d, d.open + body + d.close + y) == RemoveComments(d, y)
  {
    var s := d.open + body + d.close + y;
    var e := |d.open| + |body| + |d.close|;
    ClosedComment(d, body, y);
    SkipComment(d, s, e);
    assert s[e..] == y;
  }

  /** A comment after plain text `x` is deleted, and only the comment. */
  lemma CommentRemoved(d: Delims, x: String, body: String, y: String)
    requires d.open != []
    requires forall q :: 0 <= q < |x| ==> !Matches(x + d.open + body + d.close + y, d.open, q)
    requires forall k :: 0 <= k < |body| ==> !Matches(body + d.close, d.close, k)
    ensures RemoveComments(d, x + d.open + body + d.close + y) == x + RemoveComments(d, y)
  {
    var c := d.open + body + d.close + y;
    assert x + d.open + body + d.close + y == x + c;
    PlainPrefix(d, x, c);
    LeadingComment(d, body, y);
  }

  /** In `open + body + close + y` the opener stands first and its first
      closer is the one after `body`. */
  lemma ClosedComment(d: Delims, body: String, y: String)
    requires forall k :: 0 <= k < |body| ==> !Matches(body + d.close, d.close, k)
    ensures var s := d.open + body + d.close + y;
      Matches(s, d.open, 0) && Search(s, d.close, |d.open|) == |d.open| + |body|
  {
    var c := d.open + body + d.close;
    var s := d.open + body + d.close + y;
    var j := |d.open| + |body|;
    assert Matches(s, d.open, 0) && Matches(s, body + d.close, |d.open|) by {
      SliceMatches(s, 0, |c|);
      assert s[0..|c|] == d.open + (body + d.close);
      MatchesConcat(s, d.open, body + d.close, 0);
    }
    forall k | |d.open| <= k <= j ensures Matches(s, d.close, k) <==> k == j {
      MatchesShift(s, body + d.close, |d.open|, k - |d.open|, d.close);
    }
    SearchFirst(s, d.close, |d.open|, j);
  }

  // ------------------------------------------------------------ layout

  /** PCRE's `\s` outside Unicode mode: space, tab, line feed, vertical
      tab, form feed and carriage return. */
  predicate IsRegexSpace(c: char) {
    c == ' ' || c == '\t' || c == '\n' || c == '\U{0B}' || c == '\U{0C}' || c == '\r'
  }

  /** What PHP's `trim` strips by default: space, tab, line feed, carriage
      return, NUL and vertical tab (not form feed). */
  predicate IsTrimmed(c: char) {
    c == ' ' || c == '\t' || c == '\n' || c == '\r' || c == '\U{00}' || c == '\U{0B}'
  }

  /** The end of the whitespace run starting at `i`. */
  function RunEnd(s: String, i: nat): (e: nat)
    requires i <= |s|
    ensures i <= e <= |s| && (e < |s| ==> !IsRegexSpace(s[e]))
    ensures forall k :: i <= k < e ==> IsRegexSpace(s[k])
    decreases |s| - i
  {
    if i < |s| && IsRegexSpace(s[i]) then RunEnd(s, i + 1) else i
  }

  /** The characters of `s` from `i` on that are not whitespace, in order. */
  function VisibleFrom(s: String, i: nat): String
    requires i <= |s|
    decreases |s| - i
  {
    if i == |s| then [] else (if IsRegexSpace(s[i]) then [] else [s[i]]) + VisibleFrom(s, i + 1)
  }

  function Visible(s: String): String {
    VisibleFrom(s, 0)
  }

  /** A single space is all a collapsed run shows of itself. */
  predicate SingleSpaced(r: String) {
    (forall k :: 0 <= k < |r| && IsRegexSpace(r[k]) ==> r[k] == ' ') &&
    (forall k :: 0 <= k < |r| - 1 ==> !IsRegexSpace(r[k]) || !IsRegexSpace(r[k + 1]))
  }

  /** `preg_replace('/\s+/', ' ', s)` from index `i` on: each maximal
      whitespace run becomes one space; every other character is kept, in
      order; the result starts with whitespace exactly where the input
      does. */
  function CollapseFrom(s: String, i: nat): (r: String)
    requires i <= |s|
    ensures SingleSpaced(r)
    ensures Visible(r) == VisibleFrom(s, i)
    ensures r == [] <==> i == |s|
    ensures r != [] ==> (IsRegexSpace(r[0]) <==> IsRegexSpace(s[i]))
    decreases |s| - i
  {
    if i == |s| then []
    else if IsRegexSpace(s[i]) then
      var e := RunEnd(s, i);
      var rest := CollapseFrom(s, e);
      VisibleOfRun(s, i, e);
      VisibleCons(' ', rest);
      [' '] + rest
    else
      var rest := CollapseFrom(s, i + 1);
      VisibleCons(s[i], rest);
      [s[i]] + rest
  }

  function Collapse(s: String): (r: String) {
    CollapseFrom(s, 0)
  }

  /** A whitespace run contributes nothing visible. */
  lemma {:induction false} VisibleOfRun(s: String, i: nat, e: nat)
    requires i <= e <= |s|
    requires forall k :: i <= k < e ==> IsRegexSpace(s[k])
    ensures VisibleFrom(s, i) == VisibleFrom(s, e)
    decreases e - i
  {
    if i < e {
      VisibleOfRun(s, i + 1, e);
    }
  }

  /** The visible characters of `[c] + t`. */
  lemma VisibleCons(c: char, t: String)
    ensures Visible([c] + t) == (if IsRegexSpace(c) then [] else [c]) + Visible(t)
  {
    VisibleAfter([c], t, 0);
  }

  lemma {:induction false} VisibleAfter(x: String, t: String, i: nat)
    requires i <= |t|
    ensures VisibleFrom(x + t, |x| + i) == VisibleFrom(t, i)
    decreases |t| - i
  {
    if i < |t| {
      VisibleAfter(x, t, i + 1);
      assert (x + t)[|x| + i] == t[i];
    }
  }

  /** The first index not stripped by `trim`, scanning forwards. */
  function TrimStart(s: String, i: nat): (a: nat)
    requires i <= |s|
    ensures i <= a <= |s| && (a < |s| ==> !IsTrimmed(s[a]))
    ensures forall k :: i <= k < a ==> IsTrimmed(s[k])
    decreases |s| - i
  {
    if i < |s| && IsTrimmed(s[i]) then TrimStart(s, i + 1) else i
  }

  /** The index after the last character not stripped by `trim`, scanning
      backwards from `j` no further than `lo`. */
  function TrimEnd(s: String, lo: nat, j: nat): (b: nat)
    requires lo <= j <= |s|
    ensures lo <= b <= j && (b > lo ==> !IsTrimmed(s[b - 1]))
    ensures forall k :: b <= k < j ==> IsTrimmed(s[k])
    decreases j
  {
    if j > lo && IsTrimmed(s[j - 1]) then TrimEnd(s, lo, j - 1) else j
  }

  /** `trim(s)`: the middle of `s` left once both ends lose every stripped
      character; it neither starts nor ends with one. */
  function Trim(s: String): (r: String)
    ensures exists a, b ::
      (0 <= a <= b <= |s| && r == s[a..b] &&
       (forall k :: 0 <= k < a ==> IsTrimmed(s[k])) &&
       (forall k :: b <= k < |s| ==> IsTrimmed(s[k])))
    ensures r == [] || (!IsTrimmed(r[0]) && !IsTrimmed(r[|r| - 1]))
  {
    var a := TrimStart(s, 0);
    var b := TrimEnd(s, a, |s|);
    s[a..b]
  }

  /** `normalizeContent`: Twig comments go first, then HTML comments, then
      the layout. */
  function Normalize(content: String): (r: String) {
    Trim(Collapse(RemoveComments(HtmlComment, RemoveComments(TwigComment, content))))
  }

  /** A normalised template has no whitespace at either end, and every
      whitespace run inside it is one plain space. */
  lemma NormalizedShape(content: String)
    ensures var r := Normalize(content);
      (r == [] || (!IsRegexSpace(r[0]) && !IsRegexSpace(r[|r| - 1]))) && SingleSpaced(r)
  {
    var t := Collapse(RemoveComments(HtmlComment, RemoveComments(TwigComment, content)));
    var r := Trim(t);
    assert SingleSpaced(r) by {
      var a, b :| 0 <= a <= b <= |t| && r == t[a..b];
      SingleSpacedSlice(t, a, b);
    }
  }

  /** A piece of single-spaced text is single-spaced. */
  lemma SingleSpacedSlice(t: String, a: nat, b: nat)
    requires a <= b <= |t| && SingleSpaced(t)
    ensures SingleSpaced(t[a..b])
  {
    var r := t[a..b];
    forall k | 0 <= k < |r| ensures r[k] == t[a + k] {
    }
  }

  /** Collapsing keeps every character that is not whitespace, in order. */
  lemma CollapseKeepsText(s: String)
    ensures Visible(Collapse(s)) == Visible(s)
  {
  }

  /** A Twig comment after plain text `x` does not count: the template
      normalises as if it were not there, whatever the comment holds. */
  lemma TwigCommentIgnored(x: String, body: String, y: String)
    requires forall q :: 0 <= q < |x| ==> !Matches(x + "{#" + body + "#}" + y, "{#", q)
    requires forall q :: 0 <= q < |x| ==> !Matches(x + y, "{#", q)
    requires forall k :: 0 <= k < |body| ==> !Matches(body + "#}", "#}", k)
    ensures Normalize(x + "{#" + body + "#}" + y) == Normalize(x + y)
  {
    CommentRemoved(TwigComment, x, body, y);
    PlainPrefix(TwigComment, x, y);
  }

  // ------------------------------------------------------------ trees

  /** The key of a child in a node's array of children. */
  datatype Key = IntKey(n: int) | StrKey(name: String)

  /** A parsed node: its class and its children by key. */
  datatype Node = Node(cls: String, children: map<Key, Node>)

  /** `compareNodes`: the same class, as many children, and every child of
      `n1` has a child under the same key in `n2` that compares equal. */
  function CompareNodes(n1: Node, n2: Node): (r: bool)
    ensures r ==> n1.cls == n2.cls && |n1.children| == |n2.children|
    ensures r ==> forall k :: k in n1.children ==> k in n2.children
    decreases n1
  {
    n1.cls == n2.cls && |n1.children| == |n2.children| &&
    forall k :: k in n1.children ==> k in n2.children && CompareNodes(n1.children[k], n2.children[k])
  }

  /** Every node compares equal to itself. */
  lemma {:induction false} CompareReflexive(n: Node)
    ensures CompareNodes(n, n)
    decreases n
  {
    forall k | k in n.children ensures CompareNodes(n.children[k], n.children[k]) {
      CompareReflexive(n.children[k]);
    }
  }

  /** Key sets of equal size, one inside the other, are the same. */
  lemma SameKeys(m1: map<Key, Node>, m2: map<Key, Node>)
    requires |m1| == |m2| && forall k :: k in m1 ==> k in m2
    ensures m1.Keys == m2.Keys
  {
    var extra := m2.Keys - m1.Keys;
    assert m2.Keys == m1.Keys + extra && m1.Keys * extra == {};
    assert |m1.Keys| == |m1| && |m2.Keys| == |m2|;
    assert |extra| == 0;
  }

  /** The comparison does not depend on the order of its arguments: equal
      counts make the key lookup go both ways. */
  lemma {:induction false} CompareSymmetric(n1: Node, n2: Node)
    requires CompareNodes(n1, n2)
    ensures CompareNodes(n2, n1)
    decreases n1
  {
    SameKeys(n1.children, n2.children);
    forall k | k in n2.children ensures k in n1.children && CompareNodes(n2.children[k], n1.children[k]) {
      CompareSymmetric(n1.children[k], n2.children[k]);
    }
  }

  /** Two nodes equal to a third are equal to each other. */
  lemma {:induction false} CompareTransitive(n1: Node, n2: Node, n3: Node)
    requires CompareNodes(n1, n2) && CompareNodes(n2, n3)
    ensures CompareNodes(n1, n3)
    decreases n1
  {
    forall k | k in n1.children ensures k in n3.children && CompareNodes(n1.children[k], n3.children[k]) {
      CompareTransitive(n1.children[k], n2.children[k], n3.children[k]);
    }
  }

  // ------------------------------------------------------------ templates

  /** The Twig tokenizer and parser: a tree, or `None` when either raises. */
  type Parser = String -> Option<Node>

  /** `compareContents`: equal normalised texts are equivalent outright;
      otherwise both are parsed and their trees compared, and a parse
      failure falls back to the (already unequal) texts. */
  function CompareContents(parse: Parser, content1: String, content2: String): bool {
    var t1, t2 := Normalize(content1), Normalize(content2);
    if t1 == t2 then true
    else match (parse(t1), parse(t2))
      case (Some(a), Some(b)) => CompareNodes(a, b)
      case _ => t1 == t2
  }

  /** Templates that normalise to the same text are equivalent, whatever the
      parser makes of them. */
  lemma SameTextEquivalent(parse: Parser, content1: String, content2: String)
    requires Normalize(content1) == Normalize(content2)
    ensures CompareContents(parse, content1, content2)
  {
  }

  /** Templates that normalise to different texts are equivalent only if both
      parse, to trees that compare equal; a parse failure makes them
      different. */
  lemma DifferentTextNeedsTrees(parse: Parser, content1: String, content2: String)
    requires Normalize(content1) != Normalize(content2)
    ensures CompareContents(parse, content1, content2) <==>
      parse(Normalize(content1)).Some? && parse(Normalize(content2)).Some? &&
      CompareNodes(parse(Normalize(content1)).value, parse(Normalize(content2)).value)
  {
  }

  /** The equivalence is symmetric. */
  lemma ContentsSymmetric(parse: Parser, content1: String, content2: String)
    requires CompareContents(parse, content1, content2)
    ensures CompareContents(parse, content2, content1)
  {
    var t1, t2 := Normalize(content1), Normalize(content2);
    if t1 != t2 {
      CompareSymmetric(parse(t1).value, parse(t2).value);
    }
  }

  /** Adding a Twig comment to a template leaves it equivalent to the
      original. */
  lemma CommentedEquivalent(parse: Parser, x: String, body: String, y: String)
    requires forall q :: 0 <= q < |x| ==> !Matches(x + "{#" + body + "#}" + y, "{#", q)
    requires forall q :: 0 <= q < |x| ==> !Matches(x + y, "{#", q)
    requires forall k :: 0 <= k < |body| ==> !Matches(body + "#}", "#}", k)
    ensures CompareContents(parse, x + "{#" + body + "#}" + y, x + y)
  {
    TwigCommentIgnored(x, body, y);
  }
}
