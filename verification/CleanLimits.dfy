/** Why clean streams avoid what they avoid: for each of the three limits a source whose well-nested
    events break it, and whose spans are registered in the wrong order. */
module CleanLimits {
  import opened Text
  import opened Paths
  import opened Ast
  import opened Inlines
  import opened Spans
  import opened Events
  import opened Nesting
  import opened BuilderModel
  import opened SpanOrder

  lemma HandleFirst(source: string, st: State, e: Event, rest: seq<Event>)
    ensures HandleAll(source, st, [e] + rest) == HandleAll(source, Handle(source, st, e), rest)
  {
    assert ([e] + rest)[1..] == rest;
  }

  lemma NestFirst(source: string, n: Nest, e: Event, n': Nest, rest: seq<Event>)
    requires Allows(source, n, e) && WellNested(source, n', rest)
    requires n'.stack == Advance(n, e).stack && n'.cursor == Advance(n, e).cursor
    ensures WellNested(source, n, [e] + rest)
  {
    assert ([e] + rest)[1..] == rest && n' == Advance(n, e);
  }

  lemma NestLast(source: string, n: Nest, e: Event)
    requires Allows(source, n, e) && Advance(n, e).stack == []
    ensures WellNested(source, n, [e])
  {
    assert [e] + [] == [e];
    NestFirst(source, n, e, Advance(n, e), []);
  }

  lemma HandleLast(source: string, st: State, e: Event)
    ensures HandleAll(source, st, [e]) == Handle(source, st, e)
  {
    assert [e] + [] == [e];
    HandleFirst(source, st, e, []);
  }

  ghost predicate OutOfOrder(regs: seq<Reg>) {
    exists i, j :: 0 <= i < |regs| && 0 <= j < |regs| && !InOrder(regs[i], regs[j])
  }

  function PlainRun(text: string): Inline {
    Run(TextRun(text, false, false, false, false))
  }

  /** Text inside a link or an image. */
  lemma TextInLink(source: string, st: State, outer: seq<LinkFrame>, link: LinkFrame, text: string, r: Range)
    requires st.links == outer + [link] && st.format == Format(false, false, false) && st.code == None && !st.inMetadata && text != ""
    ensures Handle(source, st, TextEvent(text, r)) ==
            st.(links := outer + [link.(content := link.content + [PlainRun(text)], renderedChars := link.renderedChars + |text|)])
  {
    hide Get;
    var counted := link.(renderedChars := link.renderedChars + |text|);
    assert st.links[|outer|] == link;
    assert st.links[|outer| := counted] == outer + [counted];
    var full := counted.(content := link.content + [PlainRun(text)]);
    assert (outer + [counted])[|outer| := full] == outer + [full];
  }

  /** An image's one run. */
  lemma ImageRun(r: Range)
    ensures NO_RUNS.Push(1, r, false).runs == [InlineRun(Range(0, 1), r, false)]
  {
  }

  lemma AltOf(text: string)
    ensures AltText([PlainRun(text)]) == text
  {
    assert [PlainRun(text)][1..] == [];
    assert text + "" == text;
  }

  // ----- a heading with text after its image

  const HEADING_SOURCE := "# ![a](u) b"

  function HeadingStream(): seq<Event> {
    [StartEvent(HeadingTag(1), Range(0, 11))] + ([StartEvent(ImageTag("u"), Range(2, 9))] + ([TextEvent("a", Range(4, 5))]
    + ([EndEvent(ImageEnd, Range(2, 9))] + ([TextEvent(" b", Range(9, 11))] + [EndEvent(HeadingEnd, Range(0, 11))]))))
  }

  /** The heading's fragment is registered before the image that precedes it in the source. */
  lemma TextAfterImageInHeading()
    ensures WellNested(HEADING_SOURCE, START, HeadingStream())
    ensures OutOfOrder(HandleAll(HEADING_SOURCE, INITIAL, HeadingStream()).regs)
  {
    AsciiGet(HEADING_SOURCE, Range(0, 11));
    AsciiGet(HEADING_SOURCE, Range(2, 9));
    AsciiGet(HEADING_SOURCE, Range(4, 5));
    AsciiGet(HEADING_SOURCE, Range(9, 11));
    hide *;
    HeadingNests(HEADING_SOURCE);
    HeadingRun(HEADING_SOURCE);
  }

  lemma HeadingNests(source: string)
    requires Get(source, Range(0, 11)).Some? && Get(source, Range(2, 9)).Some?
    requires Get(source, Range(4, 5)).Some? && Get(source, Range(9, 11)).Some?
    ensures WellNested(source, START, HeadingStream())
  {
    hide Get, WellNested;
    var h, image := Open(HeadingTag(1), Range(0, 11)), Open(ImageTag("u"), Range(2, 9));
    var e0, e1, e2, e3, e4, e5 := StartEvent(HeadingTag(1), Range(0, 11)), StartEvent(ImageTag("u"), Range(2, 9)),
      TextEvent("a", Range(4, 5)), EndEvent(ImageEnd, Range(2, 9)), TextEvent(" b", Range(9, 11)), EndEvent(HeadingEnd, Range(0, 11));
    NestLast(source, Nest([h], 11), e5);
    NestFirst(source, Nest([h], 9), e4, Nest([h], 11), [e5]);
    NestFirst(source, Nest([h, image], 5), e3, Nest([h], 9), [e4] + [e5]);
    NestFirst(source, Nest([h, image], 2), e2, Nest([h, image], 5), [e3] + ([e4] + [e5]));
    NestFirst(source, Nest([h], 0), e1, Nest([h, image], 2), [e2] + ([e3] + ([e4] + [e5])));
    NestFirst(source, START, e0, Nest([h], 0), [e1] + ([e2] + ([e3] + ([e4] + [e5]))));
  }

  /** The heading's state: its frame, and what is open, waiting and pending in it. */
  function InHeadingState(split: bool, links: seq<LinkFrame>, waiting: seq<Deferred>, inlines: seq<Inline>, runs: RunAccum): State {
    INITIAL.(frames := [Frame(HeadingFrame(1), Range(0, 11), split)], links := links, deferred := waiting, inlines := inlines, runs := runs)
  }

  function HoistedA(): Deferred {
    Deferred(Image("a", "u"), Range(2, 9), [InlineRun(Range(0, 1), Range(2, 9), false)])
  }

  function RunB(source: string): InlineRun {
    InlineRun(Range(0, 2), Range(9, 11), Get(source, Range(9, 11)) == Some(" b"))
  }

  lemma HeadingRun(source: string)
    ensures OutOfOrder(HandleAll(source, INITIAL, HeadingStream()).regs)
  {
    var e0, e1, e2, e3, e4, e5 := StartEvent(HeadingTag(1), Range(0, 11)), StartEvent(ImageTag("u"), Range(2, 9)),
      TextEvent("a", Range(4, 5)), EndEvent(ImageEnd, Range(2, 9)), TextEvent(" b", Range(9, 11)), EndEvent(HeadingEnd, Range(0, 11));
    assert HeadingStream() == [e0] + ([e1] + ([e2] + ([e3] + ([e4] + [e5]))));
    var s4 := InHeadingState(true, [], [HoistedA()], [PlainRun(" b")], RunAccum([RunB(source)], 2));
    HeadingStarts(source);
    HeadingImage(source);
    HeadingEnds(source, s4);
    hide *;
    HandleFirst(source, INITIAL, e0, [e1] + ([e2] + ([e3] + ([e4] + [e5]))));
    HandleFirst(source, InHeadingState(false, [], [], [], NO_RUNS), e1, [e2] + ([e3] + ([e4] + [e5])));
    HandleFirst(source, InHeadingState(false, [LinkFrame(ImageOf("u"), [], Range(2, 9), 0)], [], [], NO_RUNS), e2, [e3] + ([e4] + [e5]));
    HandleFirst(source, InHeadingState(false, [LinkFrame(ImageOf("u"), [PlainRun("a")], Range(2, 9), 1)], [], [], NO_RUNS), e3, [e4] + [e5]);
    HandleFirst(source, InHeadingState(true, [], [HoistedA()], [], NO_RUNS), e4, [e5]);
    HandleLast(source, s4, e5);
  }

  lemma HeadingStarts(source: string)
    ensures Handle(source, INITIAL, StartEvent(HeadingTag(1), Range(0, 11))) == InHeadingState(false, [], [], [], NO_RUNS)
    ensures Handle(source, InHeadingState(false, [], [], [], NO_RUNS), StartEvent(ImageTag("u"), Range(2, 9))) ==
            InHeadingState(false, [LinkFrame(ImageOf("u"), [], Range(2, 9), 0)], [], [], NO_RUNS)
    ensures Handle(source, InHeadingState(false, [LinkFrame(ImageOf("u"), [], Range(2, 9), 0)], [], [], NO_RUNS), TextEvent("a", Range(4, 5))) ==
            InHeadingState(false, [LinkFrame(ImageOf("u"), [PlainRun("a")], Range(2, 9), 1)], [], [], NO_RUNS)
  {
    TextInLink(source, InHeadingState(false, [LinkFrame(ImageOf("u"), [], Range(2, 9), 0)], [], [], NO_RUNS), [],
               LinkFrame(ImageOf("u"), [], Range(2, 9), 0), "a", Range(4, 5));
    assert [] + [PlainRun("a")] == [PlainRun("a")];
    hide Get, OnText;
  }

  lemma HeadingImage(source: string)
    ensures Handle(source, InHeadingState(false, [LinkFrame(ImageOf("u"), [PlainRun("a")], Range(2, 9), 1)], [], [], NO_RUNS), EndEvent(ImageEnd, Range(2, 9))) ==
            InHeadingState(true, [], [HoistedA()], [], NO_RUNS)
    ensures Handle(source, InHeadingState(true, [], [HoistedA()], [], NO_RUNS), TextEvent(" b", Range(9, 11))) ==
            InHeadingState(true, [], [HoistedA()], [PlainRun(" b")], RunAccum([RunB(source)], 2))
  {
    hide Get, FlushPending, ProcessInlines, PushBlock;
    var frame := Frame(HeadingFrame(1), Range(0, 11), false);
    assert [frame][0 := frame.(split := true)] == [frame.(split := true)];
    AltOf("a");
    ImageRun(Range(2, 9));
    hide AltText;
    var st := InHeadingState(false, [LinkFrame(ImageOf("u"), [PlainRun("a")], Range(2, 9), 1)], [], [], NO_RUNS);
    assert PopLink(st).links == [];
    assert [] + [HoistedA()] == [HoistedA()];
    assert CloseImage(st) == InHeadingState(true, [], [HoistedA()], [], NO_RUNS);
  }

  lemma HeadingEnds(source: string, s4: State)
    requires s4 == InHeadingState(true, [], [HoistedA()], [PlainRun(" b")], RunAccum([RunB(source)], 2))
    ensures OutOfOrder(Handle(source, s4, EndEvent(HeadingEnd, Range(0, 11))).regs)
  {
    hide CloseHeading, ProcessInlines, Get;
    HeadingEndRun(s4, RunB(source), Heading(1, ProcessInlines([PlainRun(" b")])));
    CommonAt([0], [1], 0);
    var regs := Handle(source, s4, EndEvent(HeadingEnd, Range(0, 11))).regs;
    assert !InOrder(regs[0], regs[1]);
  }

  lemma HeadingEndRun(st: State, run: InlineRun, node: AstNode)
    requires st == InHeadingState(true, [], [HoistedA()], [PlainRun(" b")], RunAccum([run], 2))
    requires node == Heading(1, ProcessInlines([PlainRun(" b")])) && run.source == Range(9, 11)
    ensures OnEnd(st, HeadingEnd).regs ==
            [Reg([0], Range(9, 11), [run], node), Reg([1], HoistedA().source, HoistedA().runs, HoistedA().node)]
  {
    hide ProcessInlines;
    var image := HoistedA();
    var reset := INITIAL.(deferred := [image]);
    assert ResetInlines(PopFrame(st)) == reset;
    var first := Reg([0], Range(9, 11), [run], node);
    var frame := st.frames[0];
    var pushed := PushBlock(reset, node, SplitAdjusted(frame, [run]), [run]);
    assert pushed == reset.(root := [node], regs := [first]);
    var drained := pushed.(deferred := []);
    assert DrainFrom(drained, [image]) == DrainFrom(PushBlock(drained, image.node, Some(image.source), image.runs), []);
  }

  // ----- text waiting in an item when a rule arrives

  const ITEM_SOURCE := "- a\n  ***"

  function ItemStream(): seq<Event> {
    [StartEvent(ListTag(None), Range(0, 9))] + ([StartEvent(ItemTag, Range(0, 9))] + ([TextEvent("a", Range(2, 3))]
    + ([RuleEvent(Range(6, 9))] + ([EndEvent(ItemEnd, Range(0, 9))] + [EndEvent(ListEnd, Range(0, 9))]))))
  }

  /** The rule is registered before the text that precedes it, which waits for the item to end. */
  lemma RuleOvertakesItemText()
    ensures WellNested(ITEM_SOURCE, START, ItemStream())
    ensures OutOfOrder(HandleAll(ITEM_SOURCE, INITIAL, ItemStream()).regs)
  {
    AsciiGet(ITEM_SOURCE, Range(0, 9));
    AsciiGet(ITEM_SOURCE, Range(2, 3));
    AsciiGet(ITEM_SOURCE, Range(6, 9));
    hide *;
    ItemNests(ITEM_SOURCE);
    ItemRun(ITEM_SOURCE);
  }

  lemma ItemNests(source: string)
    requires Get(source, Range(0, 9)).Some? && Get(source, Range(2, 3)).Some? && Get(source, Range(6, 9)).Some?
    ensures WellNested(source, START, ItemStream())
  {
    hide Get, WellNested;
    var list, item := Open(ListTag(None), Range(0, 9)), Open(ItemTag, Range(0, 9));
    var e0, e1, e2, e3, e4, e5 := StartEvent(ListTag(None), Range(0, 9)), StartEvent(ItemTag, Range(0, 9)), TextEvent("a", Range(2, 3)),
      RuleEvent(Range(6, 9)), EndEvent(ItemEnd, Range(0, 9)), EndEvent(ListEnd, Range(0, 9));
    NestLast(source, Nest([list], 9), e5);
    NestFirst(source, Nest([list, item], 9), e4, Nest([list], 9), [e5]);
    NestFirst(source, Nest([list, item], 3), e3, Nest([list, item], 9), [e4] + [e5]);
    NestFirst(source, Nest([list, item], 0), e2, Nest([list, item], 3), [e3] + ([e4] + [e5]));
    NestFirst(source, Nest([list], 0), e1, Nest([list, item], 0), [e2] + ([e3] + ([e4] + [e5])));
    NestFirst(source, START, e0, Nest([list], 0), [e1] + ([e2] + ([e3] + ([e4] + [e5]))));
  }

  function RunA(source: string): InlineRun {
    InlineRun(Range(0, 1), Range(2, 3), Get(source, Range(2, 3)) == Some("a"))
  }

  const RULE := Reg([0, 0, 0], Range(6, 9), [], ThematicBreak)

  /** The item's state: what it holds, and what is pending in it. */
  function InItemState(nodes: seq<AstNode>, inlines: seq<Inline>, runs: RunAccum, regs: seq<Reg>): State {
    INITIAL.(frames := [Frame(ListFrame([0], false, []), Range(0, 9), false), Frame(ItemFrame([0, 0], nodes, None), Range(0, 9), false)],
             inlines := inlines, runs := runs, regs := regs)
  }

  lemma ItemRun(source: string)
    ensures OutOfOrder(HandleAll(source, INITIAL, ItemStream()).regs)
  {
    var e0, e1, e2, e3, e4, e5 := StartEvent(ListTag(None), Range(0, 9)), StartEvent(ItemTag, Range(0, 9)), TextEvent("a", Range(2, 3)),
      RuleEvent(Range(6, 9)), EndEvent(ItemEnd, Range(0, 9)), EndEvent(ListEnd, Range(0, 9));
    assert ItemStream() == [e0] + ([e1] + ([e2] + ([e3] + ([e4] + [e5]))));
    var runs := RunAccum([RunA(source)], 1);
    var s1 := INITIAL.(frames := [Frame(ListFrame([0], false, []), Range(0, 9), false)]);
    var s4 := InItemState([ThematicBreak], [PlainRun("a")], runs, [RULE]);
    ItemStarts(source);
    ItemRule(source, runs);
    ItemEnds(source, s4);
    hide *;
    HandleFirst(source, INITIAL, e0, [e1] + ([e2] + ([e3] + ([e4] + [e5]))));
    HandleFirst(source, s1, e1, [e2] + ([e3] + ([e4] + [e5])));
    HandleFirst(source, InItemState([], [], NO_RUNS, []), e2, [e3] + ([e4] + [e5]));
    HandleFirst(source, InItemState([], [PlainRun("a")], runs, []), e3, [e4] + [e5]);
    HandleFirst(source, s4, e4, [e5]);
    HandleLast(source, Handle(source, s4, e4), e5);
  }

  lemma ItemStarts(source: string)
    ensures var s1 := INITIAL.(frames := [Frame(ListFrame([0], false, []), Range(0, 9), false)]);
            Handle(source, INITIAL, StartEvent(ListTag(None), Range(0, 9))) == s1
            && Handle(source, s1, StartEvent(ItemTag, Range(0, 9))) == InItemState([], [], NO_RUNS, [])
    ensures Handle(source, InItemState([], [], NO_RUNS, []), TextEvent("a", Range(2, 3))) ==
            InItemState([], [PlainRun("a")], RunAccum([RunA(source)], 1), [])
  {
    hide Get, ProcessInlines, Trim, PushBlock;
    assert [0] + [0] == [0, 0];
  }

  lemma ItemRule(source: string, runs: RunAccum)
    ensures Handle(source, InItemState([], [PlainRun("a")], runs, []), RuleEvent(Range(6, 9))) ==
            InItemState([ThematicBreak], [PlainRun("a")], runs, [RULE])
  {
    var st := InItemState([], [PlainRun("a")], runs, []);
    assert [0, 0] + [0] == [0, 0, 0];
    assert ContainerIndex(st.frames) == Some(1);
    hide ContainerIndex;
    var full := Frame(ItemFrame([0, 0], [] + [ThematicBreak], None), Range(0, 9), false);
    assert st.frames[1 := full] == [st.frames[0], full];
    assert [] + [ThematicBreak] == [ThematicBreak] && [] + [RULE] == [RULE];
  }

  lemma ItemEnds(source: string, s4: State)
    requires s4 == InItemState([ThematicBreak], [PlainRun("a")], RunAccum([RunA(source)], 1), [RULE])
    ensures OutOfOrder(Handle(source, Handle(source, s4, EndEvent(ItemEnd, Range(0, 9))), EndEvent(ListEnd, Range(0, 9))).regs)
  {
    hide FlushPending, CloseContainer, ProcessInlines, Get;
    ItemEndRun(s4, RunA(source));
    var regs := Handle(source, Handle(source, s4, EndEvent(ItemEnd, Range(0, 9))), EndEvent(ListEnd, Range(0, 9))).regs;
    assert regs[0] == regs[..2][0] && regs[1] == regs[..2][1];
    CommonAt([0, 0, 0], [0, 0, 1], 2);
    assert !InOrder(regs[0], regs[1]);
  }

  lemma ItemEndRun(st: State, run: InlineRun)
    requires st == InItemState([ThematicBreak], [PlainRun("a")], RunAccum([run], 1), [RULE]) && run.source == Range(2, 3)
    ensures var fragment := Reg([0, 0, 1], Range(2, 3), [run], Paragraph(ProcessInlines([PlainRun("a")])));
            var s5 := OnEnd(st, ItemEnd);
            |s5.regs| >= 2 && s5.regs[..2] == [RULE, fragment]
            && |OnEnd(s5, ListEnd).regs| >= 2 && OnEnd(s5, ListEnd).regs[..2] == [RULE, fragment]
  {
    hide ProcessInlines;
    var node := Paragraph(ProcessInlines([PlainRun("a")]));
    var fragment := Reg([0, 0, 1], Range(2, 3), [run], node);
    ItemFlush(st, run, node, fragment);
    var flushed := InItemState([ThematicBreak, node], [], NO_RUNS, [RULE, fragment]);
    hide FlushPending;
    assert OnEnd(st, ItemEnd) == CloseContainer(flushed, ItemEnd);
    CloseAppends(flushed, ItemEnd);
    CloseAppends(CloseContainer(flushed, ItemEnd), ListEnd);
    hide CloseContainer;
    assert flushed.regs[..2] == [RULE, fragment];
  }

  lemma CloseAppends(st: State, end: TagEnd)
    ensures st.regs <= CloseContainer(st, end).regs
  {
  }

  lemma ItemFlush(st: State, run: InlineRun, node: AstNode, fragment: Reg)
    requires st == InItemState([ThematicBreak], [PlainRun("a")], RunAccum([run], 1), [RULE]) && run.source == Range(2, 3)
    requires node == Paragraph(ProcessInlines([PlainRun("a")])) && fragment == Reg([0, 0, 1], Range(2, 3), [run], node)
    ensures FlushPending(st) == InItemState([ThematicBreak, node], [], NO_RUNS, [RULE, fragment])
  {
    hide ProcessInlines;
    var item' := Frame(ItemFrame([0, 0], [ThematicBreak] + [node], None), Range(0, 9), false);
    assert [0, 0] + [1] == [0, 0, 1] && [ThematicBreak] + [node] == [ThematicBreak, node] && [RULE] + [fragment] == [RULE, fragment];
    assert st.frames[1 := item'] == [st.frames[0], item'];
    assert ContainerIndex(st.frames) == Some(1);
    assert NextPath(st.frames, 0) == [0, 0, 1];
  }

  // ----- a link that renders text around an image

  const LINK_SOURCE := "[a![b](c)d](u)"

  function LinkStream(): seq<Event> {
    [StartEvent(ParagraphTag, Range(0, 14))] + ([StartEvent(LinkTag(External("u")), Range(0, 14))] + ([TextEvent("a", Range(1, 2))]
    + ([StartEvent(ImageTag("c"), Range(2, 9))] + ([TextEvent("b", Range(4, 5))] + ([EndEvent(ImageEnd, Range(2, 9))]
    + ([TextEvent("d", Range(9, 10))] + ([EndEvent(LinkEnd, Range(0, 14))] + [EndEvent(ParagraphEnd, Range(0, 14))])))))))
  }

  /** The image is registered first, and the paragraph's one run, the whole link, contains it. */
  lemma LinkAroundImage()
    ensures WellNested(LINK_SOURCE, START, LinkStream())
    ensures OutOfOrder(HandleAll(LINK_SOURCE, INITIAL, LinkStream()).regs)
  {
    AsciiGet(LINK_SOURCE, Range(0, 14));
    AsciiGet(LINK_SOURCE, Range(1, 2));
    AsciiGet(LINK_SOURCE, Range(2, 9));
    AsciiGet(LINK_SOURCE, Range(4, 5));
    AsciiGet(LINK_SOURCE, Range(9, 10));
    hide *;
    LinkNests(LINK_SOURCE);
    LinkRun(LINK_SOURCE);
  }

  lemma LinkNests(source: string)
    requires Get(source, Range(0, 14)).Some? && Get(source, Range(1, 2)).Some? && Get(source, Range(2, 9)).Some?
    requires Get(source, Range(4, 5)).Some? && Get(source, Range(9, 10)).Some?
    ensures WellNested(source, START, LinkStream())
  {
    hide Get, WellNested;
    var p, l := Open(ParagraphTag, Range(0, 14)), Open(LinkTag(External("u")), Range(0, 14));
    var e3, e4 := StartEvent(ImageTag("c"), Range(2, 9)), TextEvent("b", Range(4, 5));
    var e5, e6, e7, e8 := EndEvent(ImageEnd, Range(2, 9)), TextEvent("d", Range(9, 10)), EndEvent(LinkEnd, Range(0, 14)), EndEvent(ParagraphEnd, Range(0, 14));
    var tail := [e3] + ([e4] + ([e5] + ([e6] + ([e7] + [e8]))));
    LinkTailNests(source, p, l, e3, e4, e5, e6, e7, e8);
    var e0, e1, e2 := StartEvent(ParagraphTag, Range(0, 14)), StartEvent(LinkTag(External("u")), Range(0, 14)), TextEvent("a", Range(1, 2));
    NestFirst(source, Nest([p, l], 0), e2, Nest([p, l], 2), tail);
    NestFirst(source, Nest([p], 0), e1, Nest([p, l], 0), [e2] + tail);
    NestFirst(source, START, e0, Nest([p], 0), [e1] + ([e2] + tail));
  }

  lemma LinkEndNests(source: string, p: Open, l: Open, e6: Event, e7: Event, e8: Event)
    requires p == Open(ParagraphTag, Range(0, 14)) && l == Open(LinkTag(External("u")), Range(0, 14))
    requires e6 == TextEvent("d", Range(9, 10)) && e7 == EndEvent(LinkEnd, Range(0, 14)) && e8 == EndEvent(ParagraphEnd, Range(0, 14))
    requires Get(source, Range(9, 10)).Some?
    ensures WellNested(source, Nest([p, l], 9), [e6] + ([e7] + [e8]))
  {
    hide Get, WellNested;
    NestLast(source, Nest([p], 14), e8);
    NestFirst(source, Nest([p, l], 10), e7, Nest([p], 14), [e8]);
    NestFirst(source, Nest([p, l], 9), e6, Nest([p, l], 10), [e7] + [e8]);
  }

  lemma LinkTailNests(source: string, p: Open, l: Open, e3: Event, e4: Event, e5: Event, e6: Event, e7: Event, e8: Event)
    requires p == Open(ParagraphTag, Range(0, 14)) && l == Open(LinkTag(External("u")), Range(0, 14))
    requires e3 == StartEvent(ImageTag("c"), Range(2, 9)) && e4 == TextEvent("b", Range(4, 5)) && e5 == EndEvent(ImageEnd, Range(2, 9))
    requires e6 == TextEvent("d", Range(9, 10)) && e7 == EndEvent(LinkEnd, Range(0, 14)) && e8 == EndEvent(ParagraphEnd, Range(0, 14))
    requires Get(source, Range(2, 9)).Some? && Get(source, Range(4, 5)).Some? && Get(source, Range(9, 10)).Some?
    ensures WellNested(source, Nest([p, l], 2), [e3] + ([e4] + ([e5] + ([e6] + ([e7] + [e8])))))
  {
    hide Get, WellNested;
    var i := Open(ImageTag("c"), Range(2, 9));
    LinkEndNests(source, p, l, e6, e7, e8);
    NestFirst(source, Nest([p, l, i], 5), e5, Nest([p, l], 9), [e6] + ([e7] + [e8]));
    NestFirst(source, Nest([p, l, i], 2), e4, Nest([p, l, i], 5), [e5] + ([e6] + ([e7] + [e8])));
    NestFirst(source, Nest([p, l], 2), e3, Nest([p, l, i], 2), [e4] + ([e5] + ([e6] + ([e7] + [e8]))));
  }

  function LinkOpen(content: seq<Inline>): LinkFrame {
    LinkFrame(LinkTo(External("u")), content, Range(0, 14), |content|)
  }

  function ImageOpen(content: seq<Inline>): LinkFrame {
    LinkFrame(ImageOf("c"), content, Range(2, 9), |content|)
  }

  function ImageReg(): Reg {
    Reg([0], Range(2, 9), [InlineRun(Range(0, 1), Range(2, 9), false)], Image("b", "c"))
  }

  /** The paragraph's state, before its image has closed and after. */
  function InLinkState(links: seq<LinkFrame>): State {
    INITIAL.(frames := [Frame(ParagraphFrame, Range(0, 14), false)], links := links)
  }

  function PastImageState(links: seq<LinkFrame>, inlines: seq<Inline>, runs: RunAccum): State {
    INITIAL.(frames := [Frame(ParagraphFrame, Range(0, 14), true)], links := links, inlines := inlines, runs := runs,
             root := [Image("b", "c")], regs := [ImageReg()])
  }

  lemma LinkRun(source: string)
    ensures OutOfOrder(HandleAll(source, INITIAL, LinkStream()).regs)
  {
    var e0, e1, e2, e3 := StartEvent(ParagraphTag, Range(0, 14)), StartEvent(LinkTag(External("u")), Range(0, 14)),
      TextEvent("a", Range(1, 2)), StartEvent(ImageTag("c"), Range(2, 9));
    var e4, e5, e6, e7, e8 := TextEvent("b", Range(4, 5)), EndEvent(ImageEnd, Range(2, 9)), TextEvent("d", Range(9, 10)),
      EndEvent(LinkEnd, Range(0, 14)), EndEvent(ParagraphEnd, Range(0, 14));
    assert LinkStream() == [e0] + ([e1] + ([e2] + ([e3] + ([e4] + ([e5] + ([e6] + ([e7] + [e8])))))));
    var element := ExternalLink("u", ProcessInlines([PlainRun("a"), PlainRun("d")]));
    var s8 := PastImageState([], [element], RunAccum([InlineRun(Range(0, 2), Range(0, 14), false)], 2));
    LinkStarts(source);
    LinkImageStarts(source);
    LinkImageEnds(source);
    LinkEnds(source, element);
    LinkParagraphEnds(source, element, s8);
    hide *;
    HandleFirst(source, INITIAL, e0, [e1] + ([e2] + ([e3] + ([e4] + ([e5] + ([e6] + ([e7] + [e8])))))));
    HandleFirst(source, InLinkState([]), e1, [e2] + ([e3] + ([e4] + ([e5] + ([e6] + ([e7] + [e8]))))));
    HandleFirst(source, InLinkState([LinkOpen([])]), e2, [e3] + ([e4] + ([e5] + ([e6] + ([e7] + [e8])))));
    HandleFirst(source, InLinkState([LinkOpen([PlainRun("a")])]), e3, [e4] + ([e5] + ([e6] + ([e7] + [e8]))));
    HandleFirst(source, InLinkState([LinkOpen([PlainRun("a")]), ImageOpen([])]), e4, [e5] + ([e6] + ([e7] + [e8])));
    HandleFirst(source, InLinkState([LinkOpen([PlainRun("a")]), ImageOpen([PlainRun("b")])]), e5, [e6] + ([e7] + [e8]));
    HandleFirst(source, PastImageState([LinkOpen([PlainRun("a")])], [], NO_RUNS), e6, [e7] + [e8]);
    HandleFirst(source, PastImageState([LinkOpen([PlainRun("a"), PlainRun("d")])], [], NO_RUNS), e7, [e8]);
    HandleLast(source, s8, e8);
  }

  lemma LinkStarts(source: string)
    ensures Handle(source, INITIAL, StartEvent(ParagraphTag, Range(0, 14))) == InLinkState([])
    ensures Handle(source, InLinkState([]), StartEvent(LinkTag(External("u")), Range(0, 14))) == InLinkState([LinkOpen([])])
    ensures Handle(source, InLinkState([LinkOpen([])]), TextEvent("a", Range(1, 2))) == InLinkState([LinkOpen([PlainRun("a")])])
  {
    TextInLink(source, InLinkState([LinkOpen([])]), [], LinkOpen([]), "a", Range(1, 2));
    assert [] + [PlainRun("a")] == [PlainRun("a")];
    hide Get, OnText;
  }

  lemma LinkImageStarts(source: string)
    ensures Handle(source, InLinkState([LinkOpen([PlainRun("a")])]), StartEvent(ImageTag("c"), Range(2, 9))) ==
            InLinkState([LinkOpen([PlainRun("a")]), ImageOpen([])])
    ensures Handle(source, InLinkState([LinkOpen([PlainRun("a")]), ImageOpen([])]), TextEvent("b", Range(4, 5))) ==
            InLinkState([LinkOpen([PlainRun("a")]), ImageOpen([PlainRun("b")])])
  {
    TextInLink(source, InLinkState([LinkOpen([PlainRun("a")]), ImageOpen([])]), [LinkOpen([PlainRun("a")])], ImageOpen([]), "b", Range(4, 5));
    assert [] + [PlainRun("b")] == [PlainRun("b")];
    hide Get, OnText;
  }

  lemma LinkImageEnds(source: string)
    ensures Handle(source, InLinkState([LinkOpen([PlainRun("a")]), ImageOpen([PlainRun("b")])]), EndEvent(ImageEnd, Range(2, 9))) ==
            PastImageState([LinkOpen([PlainRun("a")])], [], NO_RUNS)
    ensures Handle(source, PastImageState([LinkOpen([PlainRun("a")])], [], NO_RUNS), TextEvent("d", Range(9, 10))) ==
            PastImageState([LinkOpen([PlainRun("a"), PlainRun("d")])], [], NO_RUNS)
  {
    var st := InLinkState([LinkOpen([PlainRun("a")]), ImageOpen([PlainRun("b")])]);
    TextInLink(source, PastImageState([LinkOpen([PlainRun("a")])], [], NO_RUNS), [], LinkOpen([PlainRun("a")]), "d", Range(9, 10));
    assert [PlainRun("a")] + [PlainRun("d")] == [PlainRun("a"), PlainRun("d")];
    AltOf("b");
    ImageRun(Range(2, 9));
    hide Get, ProcessInlines, OnText, AltText;
    assert st.links[..1] == [st.links[0]];
    var frame := Frame(ParagraphFrame, Range(0, 14), false);
    assert [frame][0 := frame.(split := true)] == [frame.(split := true)];
    assert ContainerIndex([frame.(split := true)]) == None by { assert ContainerIndex([]) == None; assert [frame.(split := true)][..0] == []; }
    hide ContainerIndex;
    var marked := InLinkState([LinkOpen([PlainRun("a")])]).(frames := [frame.(split := true)]);
    assert CloseImage(st) == PushBlock(FlushPending(marked), Image("b", "c"), Some(Range(2, 9)), ImageReg().runs);
    assert FlushPending(marked) == marked;
    assert [] + [ImageReg()] == [ImageReg()] && [] + [Image("b", "c")] == [Image("b", "c")];
  }

  lemma LinkEnds(source: string, element: Inline)
    requires element == ExternalLink("u", ProcessInlines([PlainRun("a"), PlainRun("d")]))
    ensures Handle(source, PastImageState([LinkOpen([PlainRun("a"), PlainRun("d")])], [], NO_RUNS), EndEvent(LinkEnd, Range(0, 14))) ==
            PastImageState([], [element], RunAccum([InlineRun(Range(0, 2), Range(0, 14), false)], 2))
  {
    hide ProcessInlines;
  }

  lemma LinkParagraphEnds(source: string, element: Inline, s8: State)
    requires s8 == PastImageState([], [element], RunAccum([InlineRun(Range(0, 2), Range(0, 14), false)], 2))
    ensures OutOfOrder(Handle(source, s8, EndEvent(ParagraphEnd, Range(0, 14))).regs)
  {
    hide ProcessInlines;
    var run := InlineRun(Range(0, 2), Range(0, 14), false);
    var regs := Handle(source, s8, EndEvent(ParagraphEnd, Range(0, 14))).regs;
    assert PopFrame(s8).frames == [];
    assert regs == [ImageReg(), Reg([1], Range(0, 14), [run], Paragraph(ProcessInlines([element])))];
    CommonAt([0], [1], 0);
    assert !InOrder(regs[0], regs[1]);
  }
}
