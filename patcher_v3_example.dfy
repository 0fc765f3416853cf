/** The example of phpcomment/cli/test_patcher_v3.py worked through the
    PatcherV3 model: the blank line of the diff ends the first hunk, and the
    result differs from the original only in the `print` line of `hello`. */
module PatcherV3Example {
  import opened PyStr
  import opened Wrappers
  import opened DiffHunks
  import opened PatcherV3

  const HelloDefText: String := "def hello():"
  const HelloPrintText: String := "    print(\"Hello World\")"
  const UniversePrintText: String := "    print(\"Hello, Universe!\")"
  const GoodbyeDefText: String := "def goodbye():"
  const GoodbyePrintText: String := "    print(\"Goodbye World\")"

  const HelloDef: String := HelloDefText + "\n"
  const HelloPrint: String := HelloPrintText + "\n"
  const UniversePrint: String := UniversePrintText + "\n"
  const Blank: String := "\n"
  const GoodbyeDef: String := GoodbyeDefText + "\n"
  const GoodbyePrint: String := GoodbyePrintText + "\n"

  /** The text the first hunk replaces, and its replacement. */
  const HelloBlock: String := HelloDef + HelloPrint
  const UniverseBlock: String := HelloDef + UniversePrint
  /** The text the second hunk keeps as it is. */
  const GoodbyeBlock: String := GoodbyeDef + GoodbyePrint
  /** What follows the `hello` function. */
  const Tail: String := Blank + GoodbyeBlock

  const Original: String := HelloBlock + Tail
  const Expected: String := UniverseBlock + Tail

  const Hunk1: Hunk := [" " + HelloDef, "-" + HelloPrint, "+" + UniversePrint]
  const Hunk2: Hunk := [" " + GoodbyeDef, " " + GoodbyePrint]

  const FromHeaderText: String := "--- a/file.py"
  const ToHeaderText: String := "+++ b/file.py"
  const RangeLineText: String := "@@ -1,5 +1,5 @@"

  const FromHeader: String := FromHeaderText + "\n"
  const ToHeader: String := ToHeaderText + "\n"
  const RangeLine: String := RangeLineText + "\n"

  /** The diff of the test, line by line. */
  const DiffLines: seq<String> :=
    [FromHeader, ToHeader, RangeLine, Hunk1[0], Hunk1[1], Hunk1[2], Blank, Hunk2[0], Hunk2[1]]

  /** A line of printable text after its tag ends at its own '\n'. */
  lemma TaggedLine(tag: String, text: String)
    requires forall k :: 0 <= k < |tag + text| ==> ' ' <= (tag + text)[k] <= '~'
    ensures IsNewlineTerminated(tag + (text + "\n"))
  {
    assert tag + (text + "\n") == (tag + text) + "\n";
    PrintableLine(tag + text);
  }

  lemma HeadersTerminated()
    ensures IsNewlineTerminated(FromHeader) && IsNewlineTerminated(ToHeader) && IsNewlineTerminated(RangeLine)
  {
    TaggedLine([], FromHeaderText);
    TaggedLine([], ToHeaderText);
    TaggedLine([], RangeLineText);
  }

  lemma Hunk1Terminated()
    ensures forall k :: 0 <= k < |Hunk1| ==> IsNewlineTerminated(Hunk1[k])
  {
    TaggedLine(" ", HelloDefText);
    TaggedLine("-", HelloPrintText);
    TaggedLine("+", UniversePrintText);
  }

  lemma Hunk2Terminated()
    ensures forall k :: 0 <= k < |Hunk2| ==> IsNewlineTerminated(Hunk2[k])
  {
    TaggedLine(" ", GoodbyeDefText);
    TaggedLine(" ", GoodbyePrintText);
  }

  lemma DiffLinesTerminated()
    ensures forall k :: 0 <= k < |DiffLines| ==> IsNewlineTerminated(DiffLines[k])
  {
    HeadersTerminated();
    Hunk1Terminated();
    Hunk2Terminated();
    TaggedLine([], []);
  }

  /** The diff text splits back into its lines. */
  lemma DiffLinesAreLines()
    ensures SplitLinesKeepEnds(Concat(DiffLines)) == DiffLines
  {
    DiffLinesTerminated();
    SplitLinesKeepEndsOfLines(DiffLines);
  }

  lemma HeadersAreHeaders() ensures IsHeader(FromHeader) && IsHeader(ToHeader) {
    assert FromHeader[..3] == "---" && ToHeader[..3] == "+++";
  }
  lemma RangeLineCloses() ensures IsCloser(RangeLine) { assert RangeLine[0] == '@'; }
  lemma BlankCloses() ensures IsCloser(Blank) {}
  lemma Hunk1Body() ensures forall k :: 0 <= k < |Hunk1| ==> IsBodyLine(Hunk1[k]) {
    assert Hunk1[0][..3] == " de" && Hunk1[1][..3] == "-  " && Hunk1[2][..3] == "+  ";
  }
  lemma Hunk2Body() ensures forall k :: 0 <= k < |Hunk2| ==> IsBodyLine(Hunk2[k]) {
    assert Hunk2[0][..3] == " de" && Hunk2[1][..3] == "   ";
  }

  /** The two file headers alone make no hunk. */
  lemma HeadersMakeNoHunk()
    ensures Hunks([FromHeader, ToHeader]) == []
  {
    HeadersAreHeaders();
    HeaderIsDropped([FromHeader], ToHeader, []);
    HeaderIsDropped([], FromHeader, []);
    RunOfBodyLines([]);
    assert [FromHeader] + [ToHeader] + [] == [FromHeader, ToHeader];
    assert [] + [FromHeader] + [] == [FromHeader];
    assert [FromHeader] + [] == [] + [FromHeader] + [];
  }

  /** The blank line separates the two runs of tagged lines. */
  lemma BodyMakesTwoHunks()
    ensures Hunks(Hunk1 + [Blank] + Hunk2) == [Hunk1, Hunk2]
  {
    BlankCloses();
    Hunk1Body();
    Hunk2Body();
    CloserSeparatesHunks(Hunk1, Blank, Hunk2);
    RunOfBodyLines(Hunk1);
    RunOfBodyLines(Hunk2);
  }

  /** The headers are dropped, the range line and the blank line each close
      a hunk, and the two runs of tagged lines are the hunks. */
  lemma DiffHunksAreTheTwoBlocks()
    ensures Hunks(DiffLines) == [Hunk1, Hunk2]
  {
    RangeLineCloses();
    var headers := [FromHeader, ToHeader];
    assert DiffLines == headers + [RangeLine] + (Hunk1 + [Blank] + Hunk2);
    CloserSeparatesHunks(headers, RangeLine, Hunk1 + [Blank] + Hunk2);
    HeadersMakeNoHunk();
    BodyMakesTwoHunks();
  }

  lemma Hunk1Lines()
    ensures BeforeText([Hunk1[0]]) == HelloDef && AfterText([Hunk1[0]]) == HelloDef
    ensures BeforeText([Hunk1[1]]) == HelloPrint && AfterText([Hunk1[1]]) == []
    ensures BeforeText([Hunk1[2]]) == [] && AfterText([Hunk1[2]]) == UniversePrint
  {
    ProjectionOfLine(Hunk1[0]);
    ProjectionOfLine(Hunk1[1]);
    ProjectionOfLine(Hunk1[2]);
  }

  lemma Hunk1Projects()
    ensures BeforeText(Hunk1) == HelloBlock
    ensures AfterText(Hunk1) == UniverseBlock
  {
    Hunk1Lines();
    var a, b, c := [Hunk1[0]], [Hunk1[1]], [Hunk1[2]];
    assert Hunk1 == (a + b) + c;
    ProjectionDistributes(a + b, c);
    ProjectionDistributes(a, b);
  }

  lemma Hunk2Projects()
    ensures BeforeText(Hunk2) == GoodbyeBlock
    ensures AfterText(Hunk2) == GoodbyeBlock
  {
    ProjectionOfLine(Hunk2[0]);
    ProjectionOfLine(Hunk2[1]);
    assert Hunk2 == [Hunk2[0]] + [Hunk2[1]];
    ProjectionDistributes([Hunk2[0]], [Hunk2[1]]);
  }

  lemma NoLowerH()
    ensures 'h' !in HelloPrint && 'h' !in Tail
    ensures forall k :: 0 <= k < |HelloDef| && HelloDef[k] == 'h' ==> k == 4
  {
    assert 'h' !in Blank && 'h' !in GoodbyeDef && 'h' !in GoodbyePrint;
  }

  /** The only lower-case 'h' of the original is the one of `hello`. */
  lemma HelloMarker()
    ensures forall k :: 0 <= k < |Original| && Original[k] == 'h' ==> k == 4
  {
    NoLowerH();
    CharInLeft(HelloBlock, Tail, 'h');
    CharInLeft(HelloDef, HelloPrint, 'h');
  }

  /** Only `hello` has a lower-case 'h', so the first hunk matches once. */
  lemma HelloBlockUnique()
    ensures AllMatches(Original, HelloBlock) == [0]
  {
    OccursAtStart(HelloBlock, Tail);
    assert HelloBlock[4] == 'h';
    HelloMarker();
    UniqueOccurrenceByMarker(Original, HelloBlock, 4, 0);
  }

  lemma Hunk1Applies()
    ensures SingleHunkOutcome(Original, HelloBlock, UniverseBlock) == Ok(Expected)
  {
    assert !IsSpace(HelloBlock[0]);
    HelloBlockUnique();
    UniqueMatchAtStartIsReplaced(HelloBlock, Tail, UniverseBlock);
  }

  lemma NoLowerG()
    ensures 'g' !in UniverseBlock && 'g' !in Blank && 'g' !in GoodbyePrint
    ensures forall k :: 0 <= k < |GoodbyeDef| && GoodbyeDef[k] == 'g' ==> k == 4
  {
    assert 'g' !in HelloDef && 'g' !in UniversePrint;
  }

  /** The only lower-case 'g' of the expected text is the one of `goodbye`. */
  lemma GoodbyeMarker()
    ensures forall k :: 0 <= k < |Expected| && Expected[k] == 'g' ==> k == |UniverseBlock + Blank| + 4
  {
    NoLowerG();
    CharInRight(UniverseBlock, Tail, 'g');
    CharInRight(Blank, GoodbyeBlock, 'g');
    CharInLeft(GoodbyeDef, GoodbyePrint, 'g');
  }

  /** Only `goodbye` has a lower-case 'g', so the second hunk matches once. */
  lemma GoodbyeBlockUnique()
    ensures AllMatches(Expected, GoodbyeBlock) == [|UniverseBlock + Blank|]
  {
    var lead := UniverseBlock + Blank;
    assert Expected == lead + GoodbyeBlock + [];
    OccurrenceAt(lead, GoodbyeBlock, []);
    assert GoodbyeBlock[4] == 'g';
    GoodbyeMarker();
    UniqueOccurrenceByMarker(Expected, GoodbyeBlock, 4, |lead|);
  }

  lemma Hunk2Applies()
    ensures SingleHunkOutcome(Expected, GoodbyeBlock, GoodbyeBlock) == Ok(Expected)
  {
    assert !IsSpace(GoodbyeBlock[0]);
    GoodbyeBlockUnique();
    PureContextHunkIsIdentity(Expected, GoodbyeBlock);
  }

  /** The test's expectation: applying the diff replaces the print line of
      `hello` and leaves every other line as it was. */
  lemma FixtureChangesOnlyTheHelloLine()
    ensures ApplyHunks(Original, Hunks(SplitLinesKeepEnds(Concat(DiffLines))), ApplyStep()) == Ok(Expected)
  {
    DiffLinesAreLines();
    DiffHunksAreTheTwoBlocks();
    Hunk1Projects();
    Hunk2Projects();
    Hunk1Applies();
    Hunk2Applies();
    TwoHunks(Original, Hunk1, Hunk2, Expected, Expected, ApplyStep());
  }
}
