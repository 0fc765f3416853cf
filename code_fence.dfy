/** `MyHelpers.strip_code_block_markers` (phpcomment/llm/helpers.py): two
    anchored substitutions that take one Markdown fence off the front of an
    LLM response and one off its end. */
module CodeFence {
  import opened PyStr

  const Fence: String := "```"

  /** The text the closing pattern matches: a newline and a fence. */
  const ClosingFence: String := "\n```"

  /** A character of the regex class `\w`, restricted to ASCII. */
  predicate IsWordChar(c: char) {
    ('a' <= c <= 'z') || ('A' <= c <= 'Z') || ('0' <= c <= '9') || c == '_'
  }

  predicate AllWord(w: String) {
    forall k :: 0 <= k < |w| ==> IsWordChar(w[k])
  }

  /** The end of the run of word characters starting at `i` (what the
      greedy `\w*` consumes). */
  function WordRunEnd(s: String, i: nat): (e: nat)
    requires i <= |s|
    ensures i <= e <= |s|
    ensures AllWord(s[i..e])
    ensures e < |s| ==> !IsWordChar(s[e])
    decreases |s| - i
  {
    if i < |s| && IsWordChar(s[i]) then WordRunEnd(s, i + 1) else i
  }

  /** `re.sub(r'^```\w*\n', '', content)`: `^` matches only at index 0, so
      at most one opening fence goes. */
  function StripOpening(content: String): (r: String)
    ensures |r| <= |content| && r == content[|content| - |r|..]
  {
    if StartsWith(content, Fence) then
      var e := WordRunEnd(content, 3);
      if e < |content| && content[e] == '\n' then content[e + 1..] else content
    else content
  }

  /** `re.sub(r'\n```$', '', content)`: `$` matches at the very end and also
      just before a final newline, which is then kept. */
  function StripClosing(content: String): (r: String)
    ensures |r| <= |content|
  {
    if EndsWith(content, ClosingFence) then content[..|content| - 4]
    else if EndsWith(content, ClosingFence + "\n") then content[..|content| - 5] + "\n"
    else content
  }

  /** `strip_code_block_markers(content)` */
  function StripCodeBlockMarkers(content: String): (r: String)
    ensures |r| <= |content|
  {
    StripClosing(StripOpening(content))
  }

  /** The opening substitution removes exactly a fence, its word-character
      language tag and the newline after it, or nothing. */
  lemma OpeningIsFenceLine(content: String)
    ensures var r := StripOpening(content);
      r == content ||
      (exists w :: AllWord(w) && content == Fence + w + "\n" + r)
  {
    var r := StripOpening(content);
    if r != content {
      var e := WordRunEnd(content, 3);
      var w := content[3..e];
      assert content == content[..3] + content[3..e] + content[e..e + 1] + content[e + 1..];
      assert content[..3] == Fence && content[e..e + 1] == "\n";
      assert AllWord(w) && content == Fence + w + "\n" + r;
    }
  }

  /** Conversely, a leading fence line is removed whatever follows it, a
      fence inside the rest included: the tag cannot swallow the newline. */
  lemma OpeningRemovesFenceLine(w: String, rest: String)
    requires AllWord(w)
    ensures StripOpening(Fence + w + "\n" + rest) == rest
  {
    var s := Fence + w + "\n" + rest;
    assert s[..3] == Fence;
    assert forall k :: 3 <= k < 3 + |w| ==> s[k] == w[k - 3];
    assert s[3 + |w|] == '\n';
    WordRunStops(s, 3, 3 + |w|);
    assert s[3 + |w| + 1..] == rest;
  }

  /** The word run from `i` ends at the first non-word character. */
  lemma {:induction false} WordRunStops(s: String, i: nat, e: nat)
    requires i <= e < |s| && !IsWordChar(s[e])
    requires forall k :: i <= k < e ==> IsWordChar(s[k])
    ensures WordRunEnd(s, i) == e
    decreases e - i
  {
    if i < e {
      WordRunStops(s, i + 1, e);
    }
  }

  /** A response that does not start with a fence keeps its start. */
  lemma NoOpeningFence(content: String)
    requires !StartsWith(content, Fence)
    ensures StripOpening(content) == content
  {
  }

  /** A closing fence at the very end is removed with the newline before it. */
  lemma ClosingAtEnd(body: String)
    ensures StripClosing(body + ClosingFence) == body
  {
    var s := body + ClosingFence;
    assert s[|s| - 4..] == ClosingFence && s[..|s| - 4] == body;
  }

  /** A closing fence followed by one final newline is removed, and that
      final newline stays. */
  lemma ClosingBeforeFinalNewline(body: String)
    ensures StripClosing(body + ClosingFence + "\n") == body + "\n"
  {
    var s := body + ClosingFence + "\n";
    assert !EndsWith(s, ClosingFence) by {
      assert s[|s| - 1] == '\n';
    }
    assert s[|s| - 5..] == ClosingFence + "\n" && s[..|s| - 5] == body;
  }

  /** The closing substitution removes exactly a trailing fence (keeping
      a final newline after it), or nothing. */
  lemma ClosingIsFenceLine(content: String)
    ensures var r := StripClosing(content);
      r == content ||
      content == r + ClosingFence ||
      (r != [] && r[|r| - 1] == '\n' && content == r[..|r| - 1] + ClosingFence + "\n")
  {
    var n := |content|;
    if EndsWith(content, ClosingFence) {
      assert content == content[..n - 4] + ClosingFence;
    } else if EndsWith(content, ClosingFence + "\n") {
      var body := content[..n - 5];
      assert content == body + (ClosingFence + "\n");
      assert (body + "\n")[..|body|] == body;
    }
  }

  /** Text that neither starts with a fence nor ends with a closing fence
      (before an optional final newline) is returned unchanged. */
  lemma UnfencedUnchanged(content: String)
    requires !StartsWith(content, Fence)
    requires forall body :: content != body + ClosingFence && content != body + ClosingFence + "\n"
    ensures StripCodeBlockMarkers(content) == content
  {
    ClosingIsFenceLine(content);
  }

  /** One fenced block loses both fences and nothing else: fences inside
      the body are kept, since each substitution is anchored. */
  lemma FencedBlock(lang: String, body: String)
    requires AllWord(lang)
    ensures StripCodeBlockMarkers(Fence + lang + "\n" + body + ClosingFence) == body
  {
    assert Fence + lang + "\n" + body + ClosingFence == Fence + lang + "\n" + (body + ClosingFence);
    OpeningRemovesFenceLine(lang, body + ClosingFence);
    ClosingAtEnd(body);
  }

  /** The docstring's example: a "```php" block holding `X`, that is
      "```php\nX\n```". */
  const PhpExample: String := Fence + "php" + "\n" + "X" + ClosingFence

  lemma PhpBlock()
    ensures StripCodeBlockMarkers(PhpExample) == "X"
  {
    assert AllWord("php");
    FencedBlock("php", "X");
  }
}
