/** `SearchReplaceStrategy` (phpcomment/strategies/searchreplace_strategy.py):
    conflict-marker blocks are pulled out of an LLM response with a
    non-greedy regular expression, then each block replaces the first match
    of its search text in the content left by the blocks before it. A block
    that matches nothing, or whose regular expression raises, is skipped. */
module SearchReplace {
  import opened PyStr
  import opened Wrappers
  import opened CodeFence
  import opened TextScan

  /** The three fixed parts of a block pattern. */
  datatype Markers = Markers(open: String, divider: String, close: String)

  /** `<<<<<<< SEARCH\n(.*?)\n=======\n(.*?)\n>>>>>>> REPLACE` */
  const BlockPattern: Markers := Markers("<<<<<<< SEARCH\n", "\n=======\n", "\n>>>>>>> REPLACE")

  /** One `(search_text, replace_text)` pair found by `re.findall`. */
  datatype Block = Block(search: String, replace: String)

  /** The text a block pattern matches for a given pair. */
  function Delimited(m: Markers, b: Block): String {
    m.open + b.search + m.divider + b.replace + m.close
  }

  /** Both groups are as short as the non-greedy `(.*?)` makes them: the
      search text is followed by the first divider after it, and the
      replacement by the first end marker after it. */
  predicate Shortest(m: Markers, b: Block) {
    (forall k :: 0 <= k < |b.search| ==> !Matches(b.search + m.divider, m.divider, k)) &&
    (forall k :: 0 <= k < |b.replace| ==> !Matches(b.replace + m.close, m.close, k))
  }

  // ------------------------------------------------------------ extraction

  /** Where the divider and the end marker of a match starting at `p`
      stand, or `None`: the opening marker must stand at `p`, and each lazy
      group stops at the first delimiter after it. A group stopped at a
      later divider cannot help: an end marker after that divider is also
      after the first one. */
  function Span(m: Markers, text: String, p: nat): (r: Option<(nat, nat)>)
    ensures r.Some? ==>
      p + |m.open| <= r.value.0 && r.value.0 + |m.divider| <= r.value.1 &&
      r.value.1 + |m.close| <= |text|
  {
    if !Matches(text, m.open, p) then None
    else
      var i := Search(text, m.divider, p + |m.open|);
      if i == -1 then None
      else
        var j := Search(text, m.close, i + |m.divider|);
        if j == -1 then None else Some((i, j))
  }

  /** The match of a block pattern that starts at `p`, with the index just
      after it, or `None`. */
  function MatchAt(m: Markers, text: String, p: nat): (r: Option<(Block, nat)>)
    ensures r.Some? ==> p + |m.open| + |m.divider| + |m.close| <= r.value.1
  {
    match Span(m, text, p)
    case None => None
    case Some((i, j)) => Some((Block(text[p + |m.open|..i], text[i + |m.divider|..j]), j + |m.close|))
  }

  /** A match is a delimited block whose groups are as short as possible,
      and the search resumes right after it. */
  lemma MatchSound(m: Markers, text: String, p: nat)
    ensures var r := MatchAt(m, text, p);
      r.Some? ==>
        Matches(text, Delimited(m, r.value.0), p) && Shortest(m, r.value.0) &&
        r.value.1 == p + |Delimited(m, r.value.0)|
  {
    match Span(m, text, p)
    case None =>
    case Some((i, j)) =>
      SpanFacts(m, text, p, i, j);
  }

  /** The facts behind `MatchSound`, from the span. */
  lemma SpanFacts(m: Markers, text: String, p: nat, i: nat, j: nat)
    requires Span(m, text, p) == Some((i, j))
    ensures var b := Block(text[p + |m.open|..i], text[i + |m.divider|..j]);
      Matches(text, Delimited(m, b), p) && Shortest(m, b) && j + |m.close| == p + |Delimited(m, b)|
  {
    var a, c := p + |m.open|, i + |m.divider|;
    var b := Block(text[a..i], text[c..j]);
    assert Matches(text, Delimited(m, b), p) by {
      DelimitedOfParts(m, text, p, i, j);
    }
    assert Shortest(m, b) by {
      ShortestGroup(text, a, i, m.divider);
      ShortestGroup(text, c, j, m.close);
    }
  }

  /** The five parts of a match, read off its span, make up the delimited
      block. */
  lemma DelimitedOfParts(m: Markers, text: String, p: nat, i: nat, j: nat)
    requires Span(m, text, p) == Some((i, j))
    ensures Matches(text, Delimited(m, Block(text[p + |m.open|..i], text[i + |m.divider|..j])), p)
  {
    var a, c := p + |m.open|, i + |m.divider|;
    var s, r := text[a..i], text[c..j];
    SliceMatches(text, a, i);
    SliceMatches(text, c, j);
    MatchesConcat(text, m.open, s, p);
    MatchesConcat(text, m.open + s, m.divider, p);
    MatchesConcat(text, m.open + s + m.divider, r, p);
    MatchesConcat(text, m.open + s + m.divider + r, m.close, p);
  }

  /** A group that ends at the first delimiter after it does not contain
      that delimiter. */
  lemma ShortestGroup(text: String, a: nat, i: nat, d: String)
    requires a <= i && Matches(text, d, i)
    requires forall k :: a <= k < i ==> !Matches(text, d, k)
    ensures forall k :: 0 <= k < i - a ==> !Matches(text[a..i] + d, d, k)
  {
    var s := text[a..i];
    SliceMatches(text, a, i);
    MatchesConcat(text, s, d, a);
    forall k | 0 <= k < |s| ensures !Matches(s + d, d, k) {
      MatchesShift(text, s + d, a, k, d);
    }
  }

  /** Conversely, wherever a block's delimited text stands, with both its
      groups as short as they can be, the pattern matches that block. */
  lemma MatchDelimited(m: Markers, text: String, b: Block, p: nat)
    requires Matches(text, Delimited(m, b), p) && Shortest(m, b)
    ensures MatchAt(m, text, p) == Some((b, p + |Delimited(m, b)|))
  {
    DelimitedPieces(m, text, b, p);
    MatchPieces(m, text, p, b.search, b.replace);
  }

  /** An occurrence of a delimited block holds the opening marker, the
      search text with the divider, and the replacement with the end
      marker, one after the other. */
  lemma DelimitedPieces(m: Markers, text: String, b: Block, p: nat)
    requires Matches(text, Delimited(m, b), p)
    ensures Matches(text, m.open, p)
    ensures Matches(text, b.search + m.divider, p + |m.open|)
    ensures Matches(text, b.replace + m.close, p + |m.open| + |b.search| + |m.divider|)
  {
    assert Delimited(m, b) == m.open + (b.search + m.divider) + (b.replace + m.close);
    MatchesConcat(text, m.open + (b.search + m.divider), b.replace + m.close, p);
    MatchesConcat(text, m.open, b.search + m.divider, p);
  }

  /** `MatchDelimited` with the block given by its pieces. */
  lemma MatchPieces(m: Markers, text: String, p: nat, s: String, r: String)
    requires Matches(text, m.open, p)
    requires Matches(text, s + m.divider, p + |m.open|)
    requires Matches(text, r + m.close, p + |m.open| + |s| + |m.divider|)
    requires forall k :: 0 <= k < |s| ==> !Matches(s + m.divider, m.divider, k)
    requires forall k :: 0 <= k < |r| ==> !Matches(r + m.close, m.close, k)
    ensures MatchAt(m, text, p) == Some((Block(s, r), p + |m.open| + |s| + |m.divider| + |r| + |m.close|))
  {
    var a := p + |m.open|;
    var i := a + |s|;
    var c := i + |m.divider|;
    var j := c + |r|;
    assert Span(m, text, p) == Some((i, j)) by {
      FirstDelimiter(text, a, s, m.divider);
      FirstDelimiter(text, c, r, m.close);
      SpanFound(m, text, p, i, j);
    }
    assert text[a..i] == s && text[c..j] == r by {
      GroupOf(text, s, m.divider, a);
      GroupOf(text, r, m.close, c);
    }
    MatchOfSpan(m, text, p, i, j, s, r);
  }

  /** Text followed by a delimiter that does not occur earlier in it: the
      scan finds the delimiter right after the text. */
  lemma FirstDelimiter(text: String, a: nat, s: String, d: String)
    requires Matches(text, s + d, a)
    requires forall k :: 0 <= k < |s| ==> !Matches(s + d, d, k)
    ensures Search(text, d, a) == a + |s|
  {
    MatchesConcat(text, s, d, a);
    forall k | a <= k < a + |s| ensures !Matches(text, d, k) {
      MatchesShift(text, s + d, a, k - a, d);
    }
    SearchFirst(text, d, a, a + |s|);
  }

  /** Where `s + d` stands, `s` is the text before the `d`. */
  lemma GroupOf(text: String, s: String, d: String, a: nat)
    requires Matches(text, s + d, a)
    ensures text[a..a + |s|] == s
  {
    MatchesConcat(text, s, d, a);
    MatchesSlice(text, s, a);
  }

  /** The span once both delimiters have been found. */
  lemma SpanFound(m: Markers, text: String, p: nat, i: nat, j: nat)
    requires Matches(text, m.open, p)
    requires Search(text, m.divider, p + |m.open|) == i
    requires Search(text, m.close, i + |m.divider|) == j
    ensures Span(m, text, p) == Some((i, j))
  {
  }

  /** The match read off a span whose groups are `s` and `r`. */
  lemma MatchOfSpan(m: Markers, text: String, p: nat, i: nat, j: nat, s: String, r: String)
    requires Span(m, text, p) == Some((i, j))
    requires text[p + |m.open|..i] == s
    requires text[i + |m.divider|..j] == r
    ensures MatchAt(m, text, p) == Some((Block(s, r), j + |m.close|))
  {
  }

  /** `re.findall(block_pattern, text[p:], re.DOTALL)`: matches are sought
      left to right, and the search resumes where the last match ended. */
  function Blocks(m: Markers, text: String, p: nat): seq<Block>
    requires m.close != []
    decreases |text| - p
  {
    if p >= |text| then []
    else match MatchAt(m, text, p)
      case Some((b, e)) => [b] + Blocks(m, text, e)
      case None => Blocks(m, text, p + 1)
  }

  /** The pairs `re.findall` returns for a response. */
  function ExtractBlocks(response: String): seq<Block> {
    Blocks(BlockPattern, response, 0)
  }

  /** Every extracted pair comes from a delimited block of the text, with
      both groups as short as possible. */
  lemma {:induction false} BlocksAreDelimited(m: Markers, text: String, p: nat)
    requires m.close != []
    ensures forall b :: b in Blocks(m, text, p) ==>
      Shortest(m, b) && exists q :: p <= q && Matches(text, Delimited(m, b), q)
    decreases |text| - p
  {
    if p < |text| {
      MatchSound(m, text, p);
      match MatchAt(m, text, p)
      case Some((b0, e)) =>
        BlocksAreDelimited(m, text, e);
      case None =>
        BlocksAreDelimited(m, text, p + 1);
    }
  }

  /** A text without an opening marker from `p` on yields no blocks. */
  lemma {:induction false} NoMarkerNoBlocks(m: Markers, text: String, p: nat)
    requires m.close != []
    requires forall q :: p <= q ==> !Matches(text, m.open, q)
    ensures Blocks(m, text, p) == []
    decreases |text| - p
  {
    if p < |text| {
      NoMarkerNoBlocks(m, text, p + 1);
    }
  }

  /** Blocks written one after another. */
  function Render(m: Markers, blocks: seq<Block>): String {
    if blocks == [] then [] else Delimited(m, blocks[0]) + Render(m, blocks[1..])
  }

  /** A text whose tail from `p` is `x + y` has `x` standing at `p` and `y`
      as its tail after it. */
  lemma TailSplit(text: String, p: nat, x: String, y: String)
    requires p <= |text| && text[p..] == x + y
    ensures Matches(text, x, p) && text[p + |x|..] == y
  {
    forall t | 0 <= t < |x| ensures text[p + t] == x[t] {
      assert text[p..][t] == (x + y)[t];
    }
    assert text[p + |x|..] == text[p..][|x|..];
  }

  /** Extraction undoes rendering: blocks written back to back from `p`
      on, with groups that do not contain their closing delimiter, are
      found again, in order. */
  lemma {:induction false} ExtractRendered(m: Markers, text: String, p: nat, blocks: seq<Block>)
    requires m.close != []
    requires forall k :: 0 <= k < |blocks| ==> Shortest(m, blocks[k])
    requires p <= |text| && text[p..] == Render(m, blocks)
    ensures Blocks(m, text, p) == blocks
    decreases |blocks|
  {
    if blocks != [] {
      var b := blocks[0];
      var e := p + |Delimited(m, b)|;
      TailSplit(text, p, Delimited(m, b), Render(m, blocks[1..]));
      MatchDelimited(m, text, b, p);
      ExtractRendered(m, text, e, blocks[1..]);
      assert [b] + blocks[1..] == blocks;
    }
  }

  /** A response made only of blocks gives back exactly those blocks
      (for `BlockPattern`, this is `ExtractBlocks`). */
  lemma RenderedRoundTrip(m: Markers, blocks: seq<Block>)
    requires m.close != []
    requires forall k :: 0 <= k < |blocks| ==> Shortest(m, blocks[k])
    ensures Blocks(m, Render(m, blocks), 0) == blocks
  {
    var text := Render(m, blocks);
    assert text[0..] == text;
    ExtractRendered(m, text, 0, blocks);
  }

  // ---------------------------------------------------------- substitution

  /** `search_text.replace('\\', r'\\')`: every backslash doubled. */
  function EscapeBackslashes(s: String): String {
    if s == [] then []
    else (if s[0] == '\\' then "\\\\" else [s[0]]) + EscapeBackslashes(s[1..])
  }

  /** The text a pattern free of metacharacters matches: `\\` stands for
      one backslash, `\c` for `c`, any other character for itself. */
  function LiteralText(pattern: String): String {
    if pattern == [] then []
    else if pattern[0] == '\\' && |pattern| >= 2 then [pattern[1]] + LiteralText(pattern[2..])
    else [pattern[0]] + LiteralText(pattern[1..])
  }

  /** Doubling the backslashes makes the compiled pattern match the search
      text literally. */
  lemma {:induction false} EscapedMatchesLiterally(s: String)
    ensures LiteralText(EscapeBackslashes(s)) == s
  {
    if s != [] {
      EscapedMatchesLiterally(s[1..]);
      var rest := EscapeBackslashes(s[1..]);
      if s[0] == '\\' {
        assert ("\\\\" + rest)[2..] == rest;
      } else {
        assert ([s[0]] + rest)[1..] == rest;
      }
      assert [s[0]] + s[1..] == s;
    }
  }

  /** The characters that give a regular expression a meaning other than
      its own text (the backslash aside, which is escaped first). */
  const Metachars: set<char> := {'.', '^', '$', '*', '+', '?', '{', '}', '[', ']', '|', '(', ')'}

  /** A block whose search text has no metacharacter and whose replacement
      has no backslash, so that neither `re.compile` nor `subn` can raise
      or read it as anything but text. */
  predicate IsLiteral(b: Block) {
    (forall k :: 0 <= k < |b.search| ==> b.search[k] !in Metachars) && '\\' !in b.replace
  }

  /** `search_re.subn(replace_text, content, count=1)` for a literal block:
      the content with the first match replaced, and the number of
      replacements made. */
  function LiteralSubn(content: String, b: Block): (String, nat) {
    var text := LiteralText(EscapeBackslashes(b.search));
    var i := Find(content, text, 0);
    if i == -1 then (content, 0) else (Splice(content, i, |text|, b.replace), 1)
  }

  /** What compiling a non-literal block and calling `subn` with `count=1`
      gives: the new content and the count, or `None` when either raised. */
  type RegexSubn = (String, Block) -> Option<(String, nat)>

  /** One iteration of the block loop: the `try` body, with an exception
      or a zero count leaving the content as it was. */
  function BlockOutcome(content: String, b: Block, regex: RegexSubn): String {
    var outcome: Option<(String, nat)> := if IsLiteral(b) then Some(LiteralSubn(content, b)) else regex(content, b);
    match outcome
    case None => content
    case Some((newContent, count)) => if count == 0 then content else newContent
  }

  /** The blocks applied in order, each to the content the previous ones left. */
  function ApplyAll(content: String, blocks: seq<Block>, regex: RegexSubn): String
    decreases |blocks|
  {
    if blocks == [] then content
    else BlockOutcome(ApplyAll(content, blocks[..|blocks| - 1], regex), blocks[|blocks| - 1], regex)
  }

  /** What `_apply_search_replace_blocks(original_content, response)` returns. */
  function SearchReplaceResult(originalContent: String, response: String, regex: RegexSubn): String {
    ApplyAll(originalContent, ExtractBlocks(response), regex)
  }

  /** `_apply_search_replace_blocks(original_content, response)` */
  method ApplySearchReplaceBlocks(originalContent: String, response: String, regex: RegexSubn)
    returns (modifiedContent: String)
    ensures modifiedContent == SearchReplaceResult(originalContent, response, regex)
  {
    var blocks := ExtractBlocks(response);
    if blocks == [] {
      return originalContent;
    }
    modifiedContent := originalContent;
    for i := 0 to |blocks|
      invariant modifiedContent == ApplyAll(originalContent, blocks[..i], regex)
    {
      assert blocks[..i + 1][..i] == blocks[..i];
      modifiedContent := BlockOutcome(modifiedContent, blocks[i], regex);
    }
    assert blocks[..|blocks|] == blocks;
  }

  /** A literal block replaces the leftmost occurrence of its search text
      and nothing else; without an occurrence it changes nothing. */
  lemma LiteralBlockReplacesFirst(content: String, b: Block, regex: RegexSubn)
    requires IsLiteral(b)
    ensures Occurrences(content, b.search) == {} ==> BlockOutcome(content, b, regex) == content
    ensures forall i :: OccursAt(content, b.search, i) && (forall j :: 0 <= j < i ==> !OccursAt(content, b.search, j)) ==>
      BlockOutcome(content, b, regex) == content[..i] + b.replace + content[i + |b.search|..]
  {
    EscapedMatchesLiterally(b.search);
    var f := Find(content, b.search, 0);
    if f != -1 {
      assert f in Occurrences(content, b.search);
      forall i | OccursAt(content, b.search, i) && (forall j :: 0 <= j < i ==> !OccursAt(content, b.search, j))
        ensures i == f
      {
        assert OccursAt(content, b.search, f);
      }
    }
  }

  /** A non-literal block whose compilation or substitution raises, or
      that matches nothing, leaves the content as it was. */
  lemma FailingRegexIsSkipped(content: String, b: Block, regex: RegexSubn)
    requires !IsLiteral(b)
    requires regex(content, b) == None || regex(content, b).value.1 == 0
    ensures BlockOutcome(content, b, regex) == content
  {
  }

  /** Running `xs + ys` is running `xs`, then `ys` on the result. */
  lemma {:induction false} ApplyAllSequential(content: String, xs: seq<Block>, ys: seq<Block>, regex: RegexSubn)
    ensures ApplyAll(content, xs + ys, regex) == ApplyAll(ApplyAll(content, xs, regex), ys, regex)
    decreases |ys|
  {
    if ys == [] {
      assert xs + ys == xs;
    } else {
      assert (xs + ys)[..|xs + ys| - 1] == xs + ys[..|ys| - 1];
      ApplyAllSequential(content, xs, ys[..|ys| - 1], regex);
    }
  }

  /** A block that changes nothing can be dropped: the later blocks apply
      as if it had not been there. */
  lemma SkippedBlockIsTransparent(content: String, xs: seq<Block>, b: Block, ys: seq<Block>, regex: RegexSubn)
    requires BlockOutcome(ApplyAll(content, xs, regex), b, regex) == ApplyAll(content, xs, regex)
    ensures ApplyAll(content, xs + [b] + ys, regex) == ApplyAll(content, xs + ys, regex)
  {
    ApplyAllSequential(content, xs + [b], ys, regex);
    ApplyAllSequential(content, xs, ys, regex);
    assert (xs + [b])[..|xs + [b]| - 1] == xs;
  }

  /** A response without a search marker leaves the content unchanged. */
  lemma NoBlocksNoChange(originalContent: String, response: String, regex: RegexSubn)
    requires Occurrences(response, BlockPattern.open) == {}
    ensures SearchReplaceResult(originalContent, response, regex) == originalContent
  {
    forall q | 0 <= q ensures !Matches(response, BlockPattern.open, q) {
      MatchesIsOccursAt(response, BlockPattern.open, q);
      assert OccursAt(response, BlockPattern.open, q) ==> q in Occurrences(response, BlockPattern.open);
    }
    NoMarkerNoBlocks(BlockPattern, response, 0);
  }

  /** `process_llm_response` without its file I/O: the fences are stripped,
      then the blocks are applied to the original file's content. */
  function ProcessResponse(llmResponseRaw: String, originalContent: String, regex: RegexSubn): String {
    SearchReplaceResult(originalContent, StripCodeBlockMarkers(llmResponseRaw), regex)
  }

  /** A fenced response is processed as its body. */
  lemma FencedResponse(lang: String, body: String, originalContent: String, regex: RegexSubn)
    requires AllWord(lang)
    ensures ProcessResponse(Fence + lang + "\n" + body + ClosingFence, originalContent, regex) ==
      SearchReplaceResult(originalContent, body, regex)
  {
    FencedBlock(lang, body);
  }
}
