/** A style opened again inside itself: a document that comes out wrong, and one that does not. */
module DocumentLimits {
  import opened Text
  import opened Ast
  import opened Inlines
  import opened Events
  import opened Spans
  import opened BuilderModel
  import opened Documents
  import opened DocumentPieces
  import opened DocumentTheorems

  const NESTED := [Words("a ", Range(1, 3)), InStyle(Emphasis, [Words("b", Range(4, 5))], Range(3, 6))]
  const TAIL := Words(" c", Range(6, 8))
  const ITALIC := Format(false, true, false)

  function RunOf(f: Format, text: string): Inline {
    RunIn(f, text, false).element
  }

  /** A document of one paragraph, as it is built and as it is meant. */
  lemma OneParagraph(source: string, content: seq<Piece>, range: Range)
    ensures var doc := [Para(content, range)];
            HandleAll(source, INITIAL, BlocksEvents(doc)).root == Broken(BuiltAll(content, PLAIN))
            && MeaningAll(doc) == Broken(FlowAll(content, PLAIN))
  {
    hide HandleAll, Broken, BuiltAll, FlowAll, BlockEvents;
    var b := Para(content, range);
    assert [b][1..] == [];
    assert BlocksEvents([b]) == BlockEvents(b) + BlocksEvents([]) == BlockEvents(b);
    WaitingTextDropped(source, b, INITIAL);
    assert [] + OwnNodes(b) == OwnNodes(b);
    assert MeaningAll([b]) == Meaning(b) + MeaningAll([]) == Meaning(b);
  }

  lemma OneStyled(f: Format, style: Style, content: seq<Piece>, range: Range)
    ensures BuiltAll([InStyle(style, content, range)], f) == BuiltAll(content, WithStyle(f, style))
    ensures FlowAll([InStyle(style, content, range)], f) == FlowAll(content, WithStyle(f, style))
  {
    hide After, WithStyle;
    var p := InStyle(style, content, range);
    assert [p][1..] == [];
    assert Built(p, f) + [] == Built(p, f) && Flow(p, f) + [] == Flow(p, f);
  }

  lemma OneWord(text: string, range: Range, f: Format)
    requires text != ""
    ensures BuiltAll([Words(text, range)], f) == FlowAll([Words(text, range)], f) == [Elem(RunOf(f, text))]
  {
    assert [Words(text, range)][1..] == [];
    assert [Elem(RunOf(f, text))] + [] == [Elem(RunOf(f, text))];
  }

  lemma NestedBits()
    ensures BuiltAll(NESTED + [TAIL], ITALIC) == [Elem(RunOf(ITALIC, "a ")), Elem(RunOf(ITALIC, "b")), Elem(RunOf(PLAIN, " c"))]
    ensures FlowAll(NESTED + [TAIL], ITALIC) == [Elem(RunOf(ITALIC, "a ")), Elem(RunOf(ITALIC, "b")), Elem(RunOf(ITALIC, " c"))]
  {
    var content := NESTED + [TAIL];
    var inner := NESTED[1];
    assert content[1..] == [inner, TAIL] && content[1..][1..] == [TAIL];
    assert After(content[0], ITALIC) == ITALIC && After(inner, ITALIC) == PLAIN && WithStyle(ITALIC, Emphasis) == ITALIC;
    OneWord("b", Range(4, 5), ITALIC);
    OneWord(" c", Range(6, 8), ITALIC);
    OneWord(" c", Range(6, 8), PLAIN);
    hide After, WithStyle;
    assert BuiltAll(content[1..], ITALIC) == [Elem(RunOf(ITALIC, "b"))] + BuiltAll([TAIL], PLAIN);
    assert FlowAll(content[1..], ITALIC) == [Elem(RunOf(ITALIC, "b"))] + FlowAll([TAIL], ITALIC);
  }

  lemma {:induction false} RunsUnchanged(content: seq<Inline>)
    requires forall k :: 0 <= k < |content| ==> content[k].Run?
    ensures ProcessEach(content) == content
    decreases |content|
  {
    if content != [] { RunsUnchanged(content[1..]); }
  }

  lemma ThreeMerged(x: Inline, y: Inline, z: Inline)
    requires x.Run? && y.Run? && z.Run? && SameStyle(x.run, y.run)
    ensures MergeFrom([], [x, y, z]) == MergeOne([Run(x.run.(content := x.run.content + y.run.content))], z)
  {
    var raw, xy := [x, y, z], Run(x.run.(content := x.run.content + y.run.content));
    assert raw[1..] == [y, z] && raw[1..][1..] == [z] && raw[1..][1..][1..] == [];
    assert MergeOne([], x) == [x] && MergeOne([x], y) == [xy];
    hide MergeOne;
    assert MergeFrom([], raw) == MergeFrom([x], raw[1..]) == MergeFrom([xy], raw[1..][1..]) == MergeOne([xy], z);
  }

  /** Three runs without images make one paragraph, the first two in one style merged. */
  lemma ThreeRuns(x: Inline, y: Inline, z: Inline)
    requires x.Run? && y.Run? && z.Run? && SameStyle(x.run, y.run)
    ensures var xy := Run(x.run.(content := x.run.content + y.run.content));
            Broken([Elem(x), Elem(y), Elem(z)]) ==
            [Paragraph(if SameStyle(x.run, z.run) then [Run(x.run.(content := xy.run.content + z.run.content))] else [xy, z])]
  {
    hide ProcessInlines, ProcessEach, MergeFrom;
    var bits := [Elem(x), Elem(y), Elem(z)];
    assert bits[1..] == [Elem(y), Elem(z)] && bits[1..][1..] == [Elem(z)] && bits[1..][1..][1..] == [];
    assert [] + [x] == [x] && [x] + [y] == [x, y] && [x, y] + [z] == [x, y, z];
    assert Cut([], bits) == Cut([x], bits[1..]) == Cut([x, y], bits[1..][1..]) == Cut([x, y, z], []) == ([], [x, y, z]);
    assert Broken(bits) == [Paragraph(ProcessInlines([x, y, z]))];
    ThreeMerged(x, y, z);
    var xy := Run(x.run.(content := x.run.content + y.run.content));
    assert [xy][..0] == [] && [] + [Run(xy.run.(content := xy.run.content + z.run.content))] == [Run(x.run.(content := xy.run.content + z.run.content))];
    assert [xy] + [z] == [xy, z];
    Processed([x, y, z]);
    RunsUnchanged(MergeFrom([], [x, y, z]));
  }

  lemma Processed(raw: seq<Inline>)
    ensures ProcessInlines(raw) == ProcessEach(MergeFrom([], raw))
  {
  }

  /** In `*a *b* c*` the inner emphasis ends the outer one too: the end of it comes out plain. */
  lemma NestedEmphasisEnds()
    ensures var doc := [Para([InStyle(Emphasis, NESTED + [TAIL], Range(0, 9))], Range(0, 9))];
            HandleAll("*a *b* c*", INITIAL, BlocksEvents(doc)).root == [Paragraph([RunOf(ITALIC, "a b"), RunOf(PLAIN, " c")])]
            && MeaningAll(doc) == [Paragraph([RunOf(ITALIC, "a b c")])]
  {
    hide HandleAll, BlocksEvents, MeaningAll, Broken, BuiltAll, FlowAll;
    var content := [InStyle(Emphasis, NESTED + [TAIL], Range(0, 9))];
    OneParagraph("*a *b* c*", content, Range(0, 9));
    OneStyled(PLAIN, Emphasis, NESTED + [TAIL], Range(0, 9));
    NestedBits();
    ThreeRuns(RunOf(ITALIC, "a "), RunOf(ITALIC, "b"), RunOf(PLAIN, " c"));
    ThreeRuns(RunOf(ITALIC, "a "), RunOf(ITALIC, "b"), RunOf(ITALIC, " c"));
    assert "a " + "b" == "a b" && "a b" + " c" == "a b c";
  }

  /** In `*a *b**` nothing follows it, and nothing is lost. */
  lemma NestedEmphasisLast()
    ensures var doc := [Para([InStyle(Emphasis, NESTED, Range(0, 7))], Range(0, 7))];
            HandleAll("*a *b**", INITIAL, BlocksEvents(doc)).root == MeaningAll(doc)
  {
    hide HandleAll, BlocksEvents, MeaningAll;
    var content := [InStyle(Emphasis, NESTED, Range(0, 7))];
    var doc := [Para(content, Range(0, 7))];
    assert doc[1..] == [] && content[1..] == [] && NESTED[1..][1..] == [];
    assert AllTight(doc);
    assert AllKept(NESTED, ITALIC, ITALIC);
    assert AllKept(content, PLAIN, PLAIN);
    assert AllStylesKept(doc);
    DocumentMeans("*a *b**", doc);
  }
}
