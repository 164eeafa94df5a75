/** The builder's stack machine computes what a document means. */
module DocumentTheorems {
  import opened Text
  import opened Paths
  import opened Ast
  import opened Inlines
  import opened Events
  import opened Spans
  import opened BuilderModel
  import opened BlockTree
  import opened Documents
  import opened DocumentPieces
  import opened DocumentStyles

  /** Between blocks nothing is open but containers. */
  ghost predicate Rest(st: State) {
    st.format == PLAIN && st.code == None && !st.inMetadata && st.links == [] && st.deferred == [] && !InHeading(st.frames)
  }

  /** From `st` to `st'` some nodes were attached, and nothing is left over. */
  ghost predicate Did(st: State, st': State, nodes: seq<AstNode>) {
    Rest(st') && Grown(st, st', nodes) && st'.inlines == []
  }

  /** What was attached is no more and no less than one sequence of nodes. */
  lemma GrownOnce(st: State, st': State, nodes: seq<AstNode>, other: seq<AstNode>)
    requires Grown(st, st', nodes)
    ensures Grown(st, st', other) <==> nodes == other
  {
    var at := ContainerIndex(st.frames);
    var before := if at.Some? then st.frames[at.value].kind.nodes else st.root;
    if Grown(st, st', other) {
      assert before + nodes == before + other;
      assert (before + nodes)[|before|..] == nodes && (before + other)[|before|..] == other;
    }
  }

  // ----- frames opened and closed again

  /** A leaf's frame holds no blocks: what was attached meanwhile went around it. */
  lemma LeafPopped(st: State, kind: FrameKind, range: Range, st0: State, st1: State, nodes: seq<AstNode>)
    requires !kind.HoldsChildren() && st0.frames == st.frames + [Frame(kind, range, false)] && st0.root == st.root
    requires Grown(st0, st1, nodes)
    ensures st1.frames != [] && Top(st1.frames).kind == kind && Grown(st, PopFrame(st1), nodes)
  {
    assert st0.frames[..|st0.frames| - 1] == st.frames;
    assert ContainerIndex(st0.frames) == ContainerIndex(st.frames);
  }

  /** A container's frame holds what was attached since it opened. */
  lemma ContainerPopped(st: State, kind: FrameKind, range: Range, st0: State, st1: State, nodes: seq<AstNode>)
    requires kind.HoldsChildren() && st0.frames == st.frames + [Frame(kind, range, false)] && st0.root == st.root
    requires Grown(st0, st1, nodes)
    ensures st1.frames != [] && Top(st1.frames).source == range && Top(st1.frames).kind == kind.(nodes := kind.nodes + nodes)
    ensures Grown(st, PopFrame(st1), [])
  {
    assert ContainerIndex(st0.frames) == Some(|st.frames|);
    NothingGrown(st, PopFrame(st1));
  }

  lemma ContainerGrows(st: State, node: AstNode, path: BlockPath, source: Range)
    ensures var st' := PushContainer(st, node, path, source);
            Grown(st, st', [node]) && Aligned(st, st') && st'.inlines == st.inlines
  {
  }

  /** A container that opened and closed attaches one node, with what was attached inside. */
  lemma ContainerRuns(st: State, kind: FrameKind, range: Range, st0: State, st1: State, inner: seq<AstNode>, end: TagEnd)
    requires kind.HoldsChildren() && kind.nodes == [] && ClosesFrame(end, kind) && Rest(st) && Rest(st1)
    requires st0.frames == st.frames + [Frame(kind, range, false)] && st0.root == st.root && Grown(st0, st1, inner)
    ensures var st' := CloseContainer(st1, end);
            Rest(st') && st'.inlines == st1.inlines && Grown(st, st', [NodeOf(kind.(nodes := inner))])
  {
    ContainerPopped(st, kind, range, st0, st1, inner);
    assert kind.nodes + inner == inner;
    var popped, full := PopFrame(st1), kind.(nodes := inner);
    hide Grown, PushContainer, ContainerIndex;
    ContainerGrows(popped, NodeOf(full), full.path, range);
    var done := PushContainer(popped, NodeOf(full), full.path, range);
    assert CloseContainer(st1, end) == done;
    GrownTwice(st, popped, done, [], [NodeOf(full)]);
    assert [] + [NodeOf(full)] == [NodeOf(full)];
    GrownSame(st, done, [NodeOf(full)]);
  }

  // ----- leaves

  lemma DrainGrows(st: State, waiting: seq<Deferred>)
    ensures var st' := DrainFrom(st, waiting);
            Grown(st, st', DeferredNodes(waiting)) && Aligned(st, st') && st'.inlines == st.inlines
    decreases |waiting|
  {
    hide PushBlock, Grown;
    if waiting == [] {
      NothingGrown(st, st);
    } else {
      var next := PushBlock(st, waiting[0].node, Some(waiting[0].source), waiting[0].runs);
      PushGrows(st, waiting[0].node, Some(waiting[0].source), waiting[0].runs);
      DrainGrows(next, waiting[1..]);
      GrownTwice(st, next, DrainFrom(next, waiting[1..]), [waiting[0].node], DeferredNodes(waiting[1..]));
      FirstDeferred(waiting);
    }
  }

  lemma {:induction false} FirstDeferred(waiting: seq<Deferred>)
    requires waiting != []
    ensures DeferredNodes(waiting) == [waiting[0].node] + DeferredNodes(waiting[1..])
    decreases |waiting|
  {
    if |waiting| > 1 {
      var init := waiting[..|waiting| - 1];
      FirstDeferred(init);
      assert waiting[1..][..|waiting| - 2] == init[1..];
    }
  }

  /** A heading attaches its content as built, which is what it means exactly when the content
      keeps its styles. */
  lemma HeadingDid(source: string, level: nat, content: seq<Piece>, range: Range, st: State)
    requires Rest(st) && st.inlines == []
    ensures var st' := HandleAll(source, st, BlockEvents(Head(level, content, range)));
            Did(st, st', HeadingOf(level, BuiltAll(content, PLAIN)))
            && (Did(st, st', Meaning(Head(level, content, range))) <==> AllKept(content, PLAIN, PLAIN))
  {
    hide HandleAll, ProcessInlines, FlowAll, BuiltAll, AllKept, AnyOpens, Elems, Images, Grown;
    var bits := BuiltAll(content, PLAIN);
    BetweenTags(source, st, HeadingTag(level), PiecesEvents(content), range);
    var st0 := OnStart(st, HeadingTag(level), range);
    PiecesAfter(source, content, st0);
    var st1 := HandleAll(source, st0, PiecesEvents(content));
    HeadingText(st, level, range, st1, bits);
    HeadingClosed(st, level, range, st1, bits);
    HeadingKept(level, content);
    GrownOnce(st, CloseHeading(st1), HeadingOf(level, bits), HeadingOf(level, FlowAll(content, PLAIN)));
  }

  /** What a heading's pieces leave: its text, and its images still waiting. */
  lemma HeadingText(st: State, level: nat, range: Range, st1: State, bits: seq<Bit>)
    requires Rest(st) && st.inlines == [] && TakenIn(OnStart(st, HeadingTag(level), range), st1, bits) && st1.format == PLAIN
    ensures Grown(OnStart(st, HeadingTag(level), range), st1, []) && st1.inlines == Elems(bits)
    ensures DeferredNodes(st1.deferred) == Images(bits)
    ensures st1.code == None && !st1.inMetadata && st1.links == []
  {
    hide Elems, Images, Grown, Cut, InlineText;
    assert DeferredNodes([]) == [];
    assert [] + Elems(bits) == Elems(bits) && [] + Images(bits) == Images(bits);
  }

  lemma HeadingClosed(st: State, level: nat, range: Range, st1: State, bits: seq<Bit>)
    requires Rest(st) && Grown(OnStart(st, HeadingTag(level), range), st1, [])
    requires st1.inlines == Elems(bits) && DeferredNodes(st1.deferred) == Images(bits)
    requires st1.format == PLAIN && st1.code == None && !st1.inMetadata && st1.links == []
    ensures Did(st, CloseHeading(st1), HeadingOf(level, bits))
  {
    hide Elems, Images, ProcessInlines, DeferredNodes, ContainerIndex;
    LeafPopped(st, HeadingFrame(level), range, OnStart(st, HeadingTag(level), range), st1, []);
    hide Grown, PushBlock, DrainFrom;
    var frame, popped := Top(st1.frames), PopFrame(st1);
    var node := Heading(level, ProcessInlines(Elems(bits)));
    var text := ResetInlines(popped);
    assert Grown(st, text, []) by { SameGrown(st, popped, text, []); }
    var pushed := PushBlock(text, node, SplitAdjusted(frame, st1.runs.runs), st1.runs.runs);
    PushGrows(text, node, SplitAdjusted(frame, st1.runs.runs), st1.runs.runs);
    GrownTwice(st, text, pushed, [], [node]);
    assert [] + [node] == [node];
    var ready := pushed.(deferred := []);
    assert Grown(st, ready, [node]) by { SameGrown(st, pushed, ready, [node]); }
    DrainGrows(ready, pushed.deferred);
    assert CloseHeading(st1) == DrainFrom(ready, pushed.deferred);
    GrownTwice(st, ready, CloseHeading(st1), [node], Images(bits));
    GrownSame(st, CloseHeading(st1), [node] + Images(bits));
  }

  lemma SameGrown(st: State, a: State, b: State, nodes: seq<AstNode>)
    requires Grown(st, a, nodes) && b.frames == a.frames && b.root == a.root
    ensures Grown(st, b, nodes)
  {
  }

  /** So does a paragraph. */
  lemma ParagraphDid(source: string, content: seq<Piece>, range: Range, st: State)
    requires Rest(st) && st.inlines == []
    ensures var st' := HandleAll(source, st, BlockEvents(Para(content, range)));
            Did(st, st', Broken(BuiltAll(content, PLAIN)))
            && (Did(st, st', Meaning(Para(content, range))) <==> AllKept(content, PLAIN, PLAIN))
  {
    hide HandleAll, FlowAll, BuiltAll, AllKept, AnyOpens, ParagraphOf, Cut, Grown;
    var bits := BuiltAll(content, PLAIN);
    BetweenTags(source, st, ParagraphTag, PiecesEvents(content), range);
    var st0 := OnStart(st, ParagraphTag, range);
    PiecesAfter(source, content, st0);
    var st1 := HandleAll(source, st0, PiecesEvents(content));
    ParagraphText(st0, st1, bits);
    ParagraphClosed(st, range, st1, Cut([], bits).0);
    ParagraphKept(content);
    GrownOnce(st, CloseParagraph(st1), Broken(bits), Broken(FlowAll(content, PLAIN)));
  }

  lemma ParagraphText(st0: State, st1: State, bits: seq<Bit>)
    requires TakenIn(st0, st1, bits) && !InHeading(st0.frames) && st0.links == []
    ensures Grown(st0, st1, Cut(st0.inlines, bits).0) && st1.inlines == Cut(st0.inlines, bits).1
    ensures st1.code == st0.code && st1.inMetadata == st0.inMetadata && st1.links == []
    ensures st1.deferred == st0.deferred
  {
    hide Grown, Cut, Elems, InlineText, Images;
  }

  lemma ParagraphClosed(st: State, range: Range, st1: State, nodes: seq<AstNode>)
    requires Rest(st) && Grown(OnStart(st, ParagraphTag, range), st1, nodes)
    requires st1.format == PLAIN && st1.code == None && !st1.inMetadata && st1.links == [] && st1.deferred == []
    ensures Did(st, CloseParagraph(st1), nodes + ParagraphOf(st1.inlines))
  {
    hide ProcessInlines, ContainerIndex;
    LeafPopped(st, ParagraphFrame, range, OnStart(st, ParagraphTag, range), st1, nodes);
    hide Grown, PushBlock;
    var frame, popped := Top(st1.frames), PopFrame(st1);
    var text := ResetInlines(popped);
    assert Grown(st, text, nodes) by { SameGrown(st, popped, text, nodes); }
    if st1.inlines == [] {
      assert CloseParagraph(st1) == popped.(runs := NO_RUNS);
      assert nodes + [] == nodes;
      SameGrown(st, popped, CloseParagraph(st1), nodes);
    } else {
      var node := Paragraph(ProcessInlines(st1.inlines));
      PushGrows(text, node, SplitAdjusted(frame, st1.runs.runs), st1.runs.runs);
      GrownTwice(st, text, CloseParagraph(st1), nodes, [node]);
    }
    GrownSame(st, CloseParagraph(st1), nodes + ParagraphOf(st1.inlines));
  }

  /** Text events in a code block add up, whatever ranges they carry. */
  lemma {:induction false} CodeTexts(source: string, texts: seq<(string, Range)>, st: State)
    requires st.code.Some? && !st.inMetadata
    ensures var st' := HandleAll(source, st, TextEvents(texts));
            st'.code.Some? && st'.code.value.language == st.code.value.language
            && st'.code.value.code == st.code.value.code + CodeText(texts) && st'.(code := st.code) == st
    decreases |texts|
  {
    var code := st.code.value.code;
    if texts == [] {
      assert code + "" == code;
    } else {
      var next := OnText(source, st, texts[0].0, texts[0].1);
      HandleConcat(source, st, [TextEvent(texts[0].0, texts[0].1)], TextEvents(texts[1..]));
      HandleOne(source, st, TextEvent(texts[0].0, texts[0].1));
      assert next.code.value.code == code + texts[0].0;
      CodeTexts(source, texts[1..], next);
      assert (code + texts[0].0) + CodeText(texts[1..]) == code + (texts[0].0 + CodeText(texts[1..]));
    }
  }

  /** Text inside front matter is not part of the document. */
  lemma {:induction false} FrontTexts(source: string, texts: seq<(string, Range)>, st: State)
    requires st.inMetadata
    ensures HandleAll(source, st, TextEvents(texts)) == st
    decreases |texts|
  {
    if texts != [] {
      HandleConcat(source, st, [TextEvent(texts[0].0, texts[0].1)], TextEvents(texts[1..]));
      HandleOne(source, st, TextEvent(texts[0].0, texts[0].1));
      FrontTexts(source, texts[1..], st);
    }
  }

  /** A heading or a paragraph as it is built. */
  function OwnNodes(b: Block): seq<AstNode>
    requires b.Head? || b.Para?
  {
    match b
    case Head(level, content, _) => HeadingOf(level, BuiltAll(content, PLAIN))
    case Para(content, _) => Broken(BuiltAll(content, PLAIN))
  }

  /** Whatever text waits, a heading or a paragraph drops it. */
  lemma WaitingTextDropped(source: string, b: Block, st: State)
    requires (b.Head? || b.Para?) && Rest(st)
    ensures var st' := HandleAll(source, st, BlockEvents(b));
            Did(st, st', OwnNodes(b)) && (Did(st, st', Meaning(b)) <==> StylesKept(b))
  {
    hide HandleAll, Grown, HeadingOf, Broken, BuiltAll, FlowAll, AllKept;
    var clear := ResetInlines(st);
    match b
    case Head(level, content, range) =>
      BetweenTags(source, st, HeadingTag(level), PiecesEvents(content), range);
      BetweenTags(source, clear, HeadingTag(level), PiecesEvents(content), range);
      HeadingDid(source, level, content, range, clear);
      SameStart(st, clear, HandleAll(source, clear, BlockEvents(b)), OwnNodes(b));
      SameStart(st, clear, HandleAll(source, clear, BlockEvents(b)), Meaning(b));
    case Para(content, range) =>
      BetweenTags(source, st, ParagraphTag, PiecesEvents(content), range);
      BetweenTags(source, clear, ParagraphTag, PiecesEvents(content), range);
      ParagraphDid(source, content, range, clear);
      SameStart(st, clear, HandleAll(source, clear, BlockEvents(b)), OwnNodes(b));
      SameStart(st, clear, HandleAll(source, clear, BlockEvents(b)), Meaning(b));
  }

  lemma SameStart(a: State, b: State, st': State, nodes: seq<AstNode>)
    requires a.frames == b.frames && a.root == b.root
    ensures Grown(a, st', nodes) <==> Grown(b, st', nodes)
  {
  }

  lemma CodeKeepsText(source: string, info: Option<string>, texts: seq<(string, Range)>, range: Range, st: State)
    requires Rest(st)
    ensures var st' := HandleAll(source, st, BlockEvents(Code(info, texts, range)));
            st'.inlines == st.inlines && Rest(st') && Grown(st, st', [CodeBlock(Language(info), CodeText(texts))])
  {
    hide HandleAll, PushBlock, Trim, TextEvents, Grown, ContainerIndex;
    var tag := if info.Some? then FencedTag(info.value) else IndentedTag;
    BetweenTags(source, st, tag, TextEvents(texts), range);
    CodeTexts(source, texts, OnStart(st, tag, range));
    var st1 := HandleAll(source, OnStart(st, tag, range), TextEvents(texts));
    var accum := st1.code.value;
    var node := CodeBlock(Language(info), CodeText(texts));
    assert "" + CodeText(texts) == CodeText(texts);
    assert st1.(code := None) == st;
    PushGrows(st, node, Some(accum.source), accum.runs.runs);
    GrownSame(st, CloseCode(st1), [node]);
  }

  /** A rule or a code block goes ahead of waiting text, and what is unseen leaves it. */
  lemma WaitingTextOvertaken(source: string, b: Block, st: State)
    requires (b.Rule? || b.Code? || Unseen(b)) && Rest(st)
    ensures var st' := HandleAll(source, st, BlockEvents(b)); st'.inlines == st.inlines && Rest(st') && Grown(st, st', Meaning(b))
  {
    hide HandleAll, PushBlock, Grown, ContainerIndex;
    match b
    case Rule(range) =>
      HandleOne(source, st, RuleEvent(range));
      PushGrows(st, ThematicBreak, Some(range), []);
      GrownSame(st, HandleAll(source, st, BlockEvents(b)), [ThematicBreak]);
    case Code(info, texts, range) => CodeKeepsText(source, info, texts, range, st);
    case Front(texts, range) => FrontKeepsText(source, texts, range, st);
    case Aside(range) =>
      HandleOne(source, st, OtherEvent(range));
      NothingGrown(st, st);
  }

  lemma FrontKeepsText(source: string, texts: seq<(string, Range)>, range: Range, st: State)
    requires Rest(st)
    ensures var st' := HandleAll(source, st, BlockEvents(Front(texts, range))); st'.inlines == st.inlines && Rest(st') && Grown(st, st', [])
  {
    hide HandleAll, Grown;
    BetweenTags(source, st, MetadataTag, TextEvents(texts), range);
    var st0 := OnStart(st, MetadataTag, range);
    FrontTexts(source, texts, st0);
    NothingGrown(st, OnEnd(st0, MetadataEnd));
  }

  // ----- every block

  lemma QuoteOpened(source: string, blocks: seq<Block>, range: Range, st: State)
    requires Rest(st)
    ensures var st0 := OnStart(st, BlockQuoteTag, range);
            Rest(st0) && st0.inlines == st.inlines && st0.root == st.root
            && st0.frames == st.frames + [Frame(BlockquoteFrame(NextPath(st.frames, |st.root|), []), range, false)]
            && HandleAll(source, st, BlockEvents(Quote(blocks, range))) ==
               CloseContainer(HandleAll(source, st0, BlocksEvents(blocks)), BlockQuoteEnd)
  {
    hide HandleAll, NextPath, BlocksEvents;
    BetweenTags(source, st, BlockQuoteTag, BlocksEvents(blocks), range);
  }

  /** A list flushes what waits before it opens. */
  lemma ListOpened(source: string, start: Option<nat>, items: seq<Item>, range: Range, st: State)
    requires Rest(st)
    ensures var flushed, st0 := FlushPending(st), OnStart(st, ListTag(start), range);
            Rest(flushed) && Grown(st, flushed, ParagraphOf(st.inlines)) && Rest(st0) && st0.inlines == [] && st0.root == flushed.root
            && st0.frames == flushed.frames + [Frame(ListFrame(NextPath(flushed.frames, |flushed.root|), start.Some?, []), range, false)]
            && HandleAll(source, st, BlockEvents(Listing(start, items, range))) ==
               CloseContainer(HandleAll(source, st0, ItemsEvents(items)), ListEnd)
  {
    hide HandleAll, NextPath, ItemsEvents, FlushPending, ContainerIndex;
    BetweenTags(source, st, ListTag(start), ItemsEvents(items), range);
    FlushGrows(st);
    GrownSame(st, FlushPending(st), ParagraphOf(st.inlines));
  }

  /** Nothing in a block is out of its place or out of its style. */
  predicate Right(b: Block) {
    Tight(b) && StylesKept(b)
  }

  /** What a block attaches, and what it leaves waiting. With nothing waiting it attaches what it
      means exactly when it is right. */
  ghost predicate RunsAs(b: Block, pending: seq<Inline>, left: seq<Inline>, nodes: seq<AstNode>) {
    && (pending == [] ==> left == [] && |nodes| == |Meaning(b)| && (nodes == Meaning(b) <==> Right(b)))
    && (b.Listing? ==> left == [] && |nodes| == |ParagraphOf(pending)| + 1 && nodes[..|ParagraphOf(pending)|] == ParagraphOf(pending)
                       && (nodes == ParagraphOf(pending) + Meaning(b) <==> Right(b)))
    && (b.Head? || b.Para? ==> left == [] && |nodes| == |Meaning(b)| && (nodes == Meaning(b) <==> Right(b)))
    && (b.Rule? || b.Code? || Unseen(b) ==> left == pending && nodes == Meaning(b))
    && (b.Quote? ==> (left == [] || left == pending) && |nodes| == 1 && nodes[0].Blockquote?)
  }

  lemma {:induction false} BlockRuns(source: string, b: Block, st: State) returns (nodes: seq<AstNode>)
    requires Rest(st)
    ensures var st' := HandleAll(source, st, BlockEvents(b));
            Rest(st') && Grown(st, st', nodes) && RunsAs(b, st.inlines, st'.inlines, nodes)
    decreases b, 1
  {
    hide HandleAll, Grown, Rest, BlockEvents, MeaningAll, MeaningItems, AllTight, ItemsTight, AllStylesKept, ItemStylesKept, OnStart;
    match b
    case Head(_, _, _) => nodes := LeafRuns(source, b, st);
    case Para(_, _) => nodes := LeafRuns(source, b, st);
    case Quote(blocks, range) =>
      OpenedAtRest(source, b, st);
      var inner := BlocksRun(source, blocks, OnStart(st, BlockQuoteTag, range));
      nodes := QuoteRuns(source, blocks, range, st, inner);
    case Listing(start, items, range) =>
      OpenedAtRest(source, b, st);
      var inner := ItemsRun(source, items, OnStart(st, ListTag(start), range));
      nodes := ListRuns(source, start, items, range, st, inner);
    case _ => WaitingTextOvertaken(source, b, st); nodes := Meaning(b);
  }

  lemma OpenedAtRest(source: string, b: Block, st: State)
    requires Rest(st)
    ensures b.Quote? ==> Rest(OnStart(st, BlockQuoteTag, b.range))
    ensures b.Listing? ==> Rest(OnStart(st, ListTag(b.start), b.range)) && OnStart(st, ListTag(b.start), b.range).inlines == []
  {
    hide *;
    if b.Quote? { QuoteOpened(source, b.blocks, b.range, st); }
    if b.Listing? { ListOpened(source, b.start, b.items, b.range, st); }
  }

  /** A quote, given what its blocks attach. */
  lemma QuoteRuns(source: string, blocks: seq<Block>, range: Range, st: State, inner: seq<AstNode>) returns (nodes: seq<AstNode>)
    requires Rest(st)
    requires var st0 := OnStart(st, BlockQuoteTag, range); var st1 := HandleAll(source, st0, BlocksEvents(blocks));
             Rest(st1) && Grown(st0, st1, inner) && (st1.inlines == [] || st1.inlines == st0.inlines)
             && (st0.inlines == [] ==> |inner| == |MeaningAll(blocks)| && (inner == MeaningAll(blocks) <==> AllTight(blocks) && AllStylesKept(blocks)))
    ensures var b := Quote(blocks, range); var st' := HandleAll(source, st, BlockEvents(b));
            Rest(st') && Grown(st, st', nodes) && RunsAs(b, st.inlines, st'.inlines, nodes)
  {
    QuoteOpened(source, blocks, range, st);
    hide HandleAll, Grown, Rest, BlockEvents, MeaningAll, AllTight, AllStylesKept, NextPath, OnStart;
    var st0 := OnStart(st, BlockQuoteTag, range);
    ContainerRuns(st, BlockquoteFrame(NextPath(st.frames, |st.root|), []), range, st0, HandleAll(source, st0, BlocksEvents(blocks)), inner, BlockQuoteEnd);
    nodes := [Blockquote(inner)];
  }

  lemma ListReads(start: Option<nat>, items: seq<Item>, range: Range, pending: seq<Inline>, inner: seq<AstNode>)
    requires inner == MeaningItems(items) <==> ItemsTight(items) && ItemStylesKept(items)
    ensures RunsAs(Listing(start, items, range), pending, [], ParagraphOf(pending) + [List(start.Some?, inner)])
  {
    hide MeaningItems, ItemsTight, ItemStylesKept, ProcessInlines;
    SameEnd(ParagraphOf(pending), List(start.Some?, inner), List(start.Some?, MeaningItems(items)));
  }

  /** A list, given what its items attach. */
  lemma ListRuns(source: string, start: Option<nat>, items: seq<Item>, range: Range, st: State, inner: seq<AstNode>) returns (nodes: seq<AstNode>)
    requires Rest(st)
    requires var st0 := OnStart(st, ListTag(start), range); Did(st0, HandleAll(source, st0, ItemsEvents(items)), inner)
    requires inner == MeaningItems(items) <==> ItemsTight(items) && ItemStylesKept(items)
    ensures var b := Listing(start, items, range); var st' := HandleAll(source, st, BlockEvents(b));
            Rest(st') && Grown(st, st', nodes) && RunsAs(b, st.inlines, st'.inlines, nodes)
  {
    ListOpened(source, start, items, range, st);
    hide HandleAll, Grown, Rest, BlockEvents, MeaningItems, ItemsTight, ItemStylesKept, FlushPending, NextPath, OnStart, RunsAs, ParagraphOf;
    var flushed, st0 := FlushPending(st), OnStart(st, ListTag(start), range);
    var kind := ListFrame(NextPath(flushed.frames, |flushed.root|), start.Some?, []);
    ContainerRuns(flushed, kind, range, st0, HandleAll(source, st0, ItemsEvents(items)), inner, ListEnd);
    nodes := ParagraphOf(st.inlines) + [List(start.Some?, inner)];
    GrownTwice(st, flushed, HandleAll(source, st, BlockEvents(Listing(start, items, range))), ParagraphOf(st.inlines), [List(start.Some?, inner)]);
    ListReads(start, items, range, st.inlines, inner);
  }

  lemma LeafRuns(source: string, b: Block, st: State) returns (nodes: seq<AstNode>)
    requires (b.Head? || b.Para?) && Rest(st)
    ensures var st' := HandleAll(source, st, BlockEvents(b));
            Rest(st') && Grown(st, st', nodes) && RunsAs(b, st.inlines, st'.inlines, nodes)
  {
    hide HandleAll, Grown, BlockEvents, ProcessInlines, FlowAll, BuiltAll, AllKept, HeadingOf, Broken;
    WaitingTextDropped(source, b, st);
    nodes := OwnNodes(b);
    GrownOnce(st, HandleAll(source, st, BlockEvents(b)), nodes, Meaning(b));
    match b
    case Head(level, content, _) => HeadingKept(level, content);
    case Para(content, _) => ParagraphKept(content);
  }

  lemma SameEnd(a: seq<AstNode>, x: AstNode, y: AstNode)
    ensures a + [x] == a + [y] <==> x == y
  {
    assert (a + [x])[|a|] == x && (a + [y])[|a|] == y;
  }

  /** Parts of the same length make the same whole exactly when they are the same. */
  lemma SameParts(a: seq<AstNode>, b: seq<AstNode>, x: seq<AstNode>, y: seq<AstNode>)
    requires |a| == |x|
    ensures a + b == x + y <==> a == x && b == y
  {
    assert (a + b)[..|a|] == a && (a + b)[|a|..] == b && (x + y)[..|a|] == x && (x + y)[|a|..] == y;
  }

  lemma {:induction false} BlocksRun(source: string, blocks: seq<Block>, st: State) returns (nodes: seq<AstNode>)
    requires Rest(st)
    ensures var st' := HandleAll(source, st, BlocksEvents(blocks));
            Rest(st') && Grown(st, st', nodes) && (st'.inlines == [] || st'.inlines == st.inlines)
            && (st.inlines == [] ==> |nodes| == |MeaningAll(blocks)| && (nodes == MeaningAll(blocks) <==> AllTight(blocks) && AllStylesKept(blocks)))
    decreases blocks, 0
  {
    hide HandleAll, Grown, Rest, BlockEvents, Meaning, Tight, StylesKept;
    if blocks == [] {
      NoEvents(source, st);
      NothingGrown(st, st);
      nodes := [];
    } else {
      HandleConcat(source, st, BlockEvents(blocks[0]), BlocksEvents(blocks[1..]));
      var first := BlockRuns(source, blocks[0], st);
      var next := HandleAll(source, st, BlockEvents(blocks[0]));
      var more := BlocksRun(source, blocks[1..], next);
      GrownTwice(st, next, HandleAll(source, next, BlocksEvents(blocks[1..])), first, more);
      nodes := first + more;
      if st.inlines == [] { SameParts(first, more, Meaning(blocks[0]), MeaningAll(blocks[1..])); }
    }
  }

  // ----- items

  /** An item's frame, with its task marker. */
  lemma ItemOpened(source: string, item: Item, st: State)
    requires Rest(st) && st.inlines == []
    ensures var st0 := Open(st, ItemFrame(NextPath(st.frames, |st.root|), [], Checked(item.task)), item.range);
            Rest(st0) && st0.inlines == []
            && HandleAll(source, st, ItemEvents(item)) ==
               CloseContainer(FlushPending(HandleAll(source, st0, PartsEvents(item.parts))), ItemEnd)
  {
    hide HandleAll, NextPath, PartsEvents, FlushPending, CloseContainer;
    var task := TaskEvents(item.task);
    BetweenTags(source, st, ItemTag, task + PartsEvents(item.parts), item.range);
    var begun := OnStart(st, ItemTag, item.range);
    HandleConcat(source, begun, task, PartsEvents(item.parts));
    if item.task.Some? {
      HandleOne(source, begun, task[0]);
      assert OnTask(begun, item.task.value.checked) == Open(st, ItemFrame(NextPath(st.frames, |st.root|), [], Checked(item.task)), item.range);
    } else {
      NoEvents(source, begun);
    }
  }

  lemma {:induction false} ItemRuns(source: string, item: Item, st: State) returns (inner: seq<AstNode>)
    requires Rest(st) && st.inlines == []
    ensures Did(st, HandleAll(source, st, ItemEvents(item)), [ListItem(inner, Checked(item.task))])
    ensures inner == MeaningParts(item.parts, []) <==> PartsTight(item.parts, []) && PartStylesKept(item.parts)
    decreases item, 1
  {
    hide HandleAll, NextPath, PartsEvents, FlushPending, CloseContainer, MeaningParts, PartsTight, PartStylesKept, Grown, ItemEvents, Rest;
    ItemOpened(source, item, st);
    var kind := ItemFrame(NextPath(st.frames, |st.root|), [], Checked(item.task));
    var st0 := Open(st, kind, item.range);
    inner := PartsRun(source, item.parts, st0, []);
    ContainerRuns(st, kind, item.range, st0, FlushPending(HandleAll(source, st0, PartsEvents(item.parts))), inner, ItemEnd);
  }

  lemma {:induction false} ItemsRun(source: string, items: seq<Item>, st: State) returns (nodes: seq<AstNode>)
    requires Rest(st) && st.inlines == []
    ensures Did(st, HandleAll(source, st, ItemsEvents(items)), nodes)
    ensures nodes == MeaningItems(items) <==> ItemsTight(items) && ItemStylesKept(items)
    decreases items, 0
  {
    hide HandleAll, Grown, ItemEvents, PartsTight, PartStylesKept, MeaningParts, Rest;
    if items == [] {
      NoEvents(source, st);
      NothingGrown(st, st);
      nodes := [];
    } else {
      HandleConcat(source, st, ItemEvents(items[0]), ItemsEvents(items[1..]));
      var inner := ItemRuns(source, items[0], st);
      var next := HandleAll(source, st, ItemEvents(items[0]));
      var more := ItemsRun(source, items[1..], next);
      var first, meant := ListItem(inner, Checked(items[0].task)), ListItem(MeaningParts(items[0].parts, []), Checked(items[0].task));
      GrownTwice(st, next, HandleAll(source, next, ItemsEvents(items[1..])), [first], more);
      nodes := [first] + more;
      SameParts([first], more, [meant], MeaningItems(items[1..]));
      assert [first] == [meant] <==> first == meant by { SameEnd([], first, meant); }
    }
  }

  /** Text waiting before an item's parts adds one paragraph at most. */
  lemma {:induction false} OneMore(parts: seq<Part>, p: seq<Inline>, q: seq<Inline>)
    ensures |MeaningParts(parts, p)| <= |MeaningParts(parts, q)| + 1
    decreases |parts|
  {
    hide FlowAll, Meaning, Cut;
    if parts != [] {
      match parts[0]
      case Bare(content) =>
        var bits := FlowAll(content, PLAIN);
        CutOneMore(p, q, bits);
        if Cut(p, bits).1 != Cut(q, bits).1 { OneMore(parts[1..], Cut(p, bits).1, Cut(q, bits).1); }
      case Inner(block) =>
        if Unseen(block) { OneMore(parts[1..], p, q); }
    }
  }

  lemma {:induction false} CutOneMore(p: seq<Inline>, q: seq<Inline>, bits: seq<Bit>)
    ensures if Cut(p, bits).1 == Cut(q, bits).1 then |Cut(p, bits).0| <= |Cut(q, bits).0| + 1
            else |Cut(p, bits).0| == |Cut(q, bits).0|
    decreases |bits|
  {
    if bits != [] && bits[0].Elem? {
      CutOneMore(p + [bits[0].element], q + [bits[0].element], bits[1..]);
    }
  }

  /** Whether the nodes an item's content became are what it means, where `meant` should have
      waited before it and `pending` did. */
  ghost predicate PartsAs(parts: seq<Part>, pending: seq<Inline>, meant: seq<Inline>, nodes: seq<AstNode>) {
    && |nodes| <= |MeaningParts(parts, meant)|
    && (nodes == MeaningParts(parts, meant) ==> PartsTight(parts, meant) && PartStylesKept(parts) && Reads(pending) == Reads(meant))
    && (pending == meant && PartsTight(parts, meant) && PartStylesKept(parts) ==> nodes == MeaningParts(parts, meant))
  }

  /** An item's content, up to the flush at its end: never more than it means, and just that
      exactly when it is tight and keeps its styles. */
  lemma {:induction false} PartsRun(source: string, parts: seq<Part>, st: State, meant: seq<Inline>) returns (nodes: seq<AstNode>)
    requires Rest(st) && AllAlike(st.inlines, meant)
    ensures Did(st, FlushPending(HandleAll(source, st, PartsEvents(parts))), nodes)
    ensures PartsAs(parts, st.inlines, meant, nodes)
    decreases parts, 0
  {
    hide HandleAll, Grown, FlushPending, Cut, FlowAll, BuiltAll, PartStyleKept, Rest, PartEvents, PartsAs, PartRunsAs, AllAlike;
    if parts == [] {
      NoEvents(source, st);
      EndsFlushed(st);
      nodes := ParagraphOf(st.inlines);
      NoParts(st.inlines, meant);
    } else {
      HandleConcat(source, st, PartEvents(parts[0]), PartsEvents(parts[1..]));
      var first := PartRuns(source, parts[0], st);
      var next := HandleAll(source, st, PartEvents(parts[0]));
      var left := MeantLeft(parts[0], st.inlines, next.inlines, meant, first);
      var more := PartsRun(source, parts[1..], next, left);
      GrownTwice(st, next, FlushPending(HandleAll(source, next, PartsEvents(parts[1..]))), first, more);
      nodes := first + more;
      FirstPart(parts, st.inlines, next.inlines, meant, left, first, more);
    }
  }

  lemma NoParts(pending: seq<Inline>, meant: seq<Inline>)
    requires AllAlike(pending, meant)
    ensures PartsAs([], pending, meant, ParagraphOf(pending))
  {
    hide Reads, ProcessInlines, Alike;
    if ParagraphOf(pending) == ParagraphOf(meant) { ParagraphReads(pending, meant); }
  }

  /** What should wait after a part, where `meant` should have waited before it. */
  ghost function LeftMeant(part: Part, left: seq<Inline>, meant: seq<Inline>): seq<Inline> {
    match part
    case Bare(content) => Cut(meant, FlowAll(content, PLAIN)).1
    case Inner(_) => if left == [] then [] else meant
  }

  lemma MeantLeft(part: Part, pending: seq<Inline>, left: seq<Inline>, meant: seq<Inline>, nodes: seq<AstNode>)
    returns (meant': seq<Inline>)
    requires AllAlike(pending, meant) && PartRunsAs(part, pending, left, nodes)
    ensures meant' == LeftMeant(part, left, meant) && AllAlike(left, meant')
  {
    hide Alike, Cut, FlowAll, BuiltAll, Right, Meaning, BitsAlike, ProcessInlines;
    meant' := LeftMeant(part, left, meant);
    match part
    case Bare(content) =>
      AllBuiltAlike(content, PLAIN, PLAIN);
      AlikeCut(pending, BuiltAll(content, PLAIN), meant, FlowAll(content, PLAIN));
    case Inner(block) => assert left == [] || left == pending;
  }

  lemma EndsFlushed(st: State)
    requires Rest(st)
    ensures Did(st, FlushPending(st), ParagraphOf(st.inlines))
  {
    hide FlushPending, ContainerIndex;
    FlushGrows(st);
    GrownSame(st, FlushPending(st), ParagraphOf(st.inlines));
  }

  /** What one part attaches at once, and what it leaves waiting. */
  ghost predicate PartRunsAs(part: Part, pending: seq<Inline>, left: seq<Inline>, nodes: seq<AstNode>) {
    match part
    case Bare(content) => var cut := Cut(pending, BuiltAll(content, PLAIN)); nodes == cut.0 && left == cut.1
    case Inner(block) => RunsAs(block, pending, left, nodes)
  }

  lemma {:induction false} PartRuns(source: string, part: Part, st: State) returns (nodes: seq<AstNode>)
    requires Rest(st)
    ensures var st' := HandleAll(source, st, PartEvents(part));
            Rest(st') && Grown(st, st', nodes) && PartRunsAs(part, st.inlines, st'.inlines, nodes)
    decreases part, 1
  {
    hide HandleAll, Grown, Cut, BuiltAll, AnyOpens, RunsAs, PiecesEvents, BlockEvents, ContainerIndex;
    match part
    case Bare(content) =>
      PiecesAfter(source, content, st);
      var next := HandleAll(source, st, PiecesEvents(content));
      ParagraphText(st, next, BuiltAll(content, PLAIN));
      nodes := Cut(st.inlines, BuiltAll(content, PLAIN)).0;
      GrownSame(st, next, nodes);
    case Inner(block) => nodes := BlockRuns(source, block, st);
  }

  /** How the first part and the rest make up an item's content. */
  lemma FirstPart(parts: seq<Part>, pending: seq<Inline>, left: seq<Inline>, meant: seq<Inline>, meant': seq<Inline>,
                  first: seq<AstNode>, more: seq<AstNode>)
    requires parts != [] && AllAlike(pending, meant) && PartRunsAs(parts[0], pending, left, first)
    requires meant' == LeftMeant(parts[0], left, meant) && PartsAs(parts[1..], left, meant', more)
    ensures PartsAs(parts, pending, meant, first + more)
  {
    hide Cut, FlowAll, BuiltAll, Reads, ProcessInlines, AllAlike, PartsAs, AllKept, Right, Meaning;
    SameLength(pending, meant);
    match parts[0]
    case Bare(content) => BarePart(content, parts, pending, left, meant, first, more);
    case Inner(block) =>
      if Unseen(block) {
        UnseenPart(block, parts, pending, meant, more);
        HowMany(block);
        assert first + more == more;
      } else if pending == [] || block.Listing? {
        PlacedPart(block, parts, pending, meant, first, more);
      } else {
        assert |more| <= |MeaningParts(parts[1..], meant')| by { AtMost(parts[1..], left, meant', more); }
        MisplacedPart(block, parts[1..], pending, left, meant, first, more);
        BlockFirst(block, parts, meant);
        Unmet(parts, pending, meant, first + more);
      }
  }

  lemma SameLength(a: seq<Inline>, b: seq<Inline>)
    requires AllAlike(a, b)
    ensures |a| == |b|
  {
  }

  lemma AtMost(parts: seq<Part>, pending: seq<Inline>, meant: seq<Inline>, nodes: seq<AstNode>)
    requires PartsAs(parts, pending, meant, nodes)
    ensures |nodes| <= |MeaningParts(parts, meant)|
  {
  }

  /** What a first part contributes: bare text, */
  lemma BareFirst(content: seq<Piece>, parts: seq<Part>, meant: seq<Inline>)
    requires parts != [] && parts[0] == Bare(content)
    ensures var cut := Cut(meant, FlowAll(content, PLAIN));
            MeaningParts(parts, meant) == cut.0 + MeaningParts(parts[1..], cut.1) && (PartsTight(parts, meant) <==> PartsTight(parts[1..], cut.1))
    ensures PartStylesKept(parts) <==> AllKept(content, PLAIN, PLAIN) && PartStylesKept(parts[1..])
  {
    hide Cut, FlowAll, AllKept;
  }

  /** a block that is not seen, */
  lemma UnseenFirst(block: Block, parts: seq<Part>, meant: seq<Inline>)
    requires parts != [] && parts[0] == Inner(block) && Unseen(block)
    ensures MeaningParts(parts, meant) == MeaningParts(parts[1..], meant)
    ensures PartsTight(parts, meant) <==> PartsTight(parts[1..], meant)
    ensures PartStylesKept(parts) <==> PartStylesKept(parts[1..])
  {
    assert StylesKept(block);
  }

  /** or any other block. */
  lemma BlockFirst(block: Block, parts: seq<Part>, meant: seq<Inline>)
    requires parts != [] && parts[0] == Inner(block) && !Unseen(block)
    ensures MeaningParts(parts, meant) == ParagraphOf(meant) + Meaning(block) + MeaningParts(parts[1..], [])
    ensures PartsTight(parts, meant) <==> (meant == [] || block.Listing?) && Tight(block) && PartsTight(parts[1..], [])
    ensures PartStylesKept(parts) <==> StylesKept(block) && PartStylesKept(parts[1..])
  {
    hide ParagraphOf, Meaning, Tight, StylesKept;
  }

  lemma HowMany(b: Block)
    ensures Unseen(b) ==> Meaning(b) == []
    ensures b.Listing? ==> |Meaning(b)| == 1
  {
  }

  lemma Unmet(parts: seq<Part>, pending: seq<Inline>, meant: seq<Inline>, nodes: seq<AstNode>)
    requires |nodes| <= |MeaningParts(parts, meant)| && nodes != MeaningParts(parts, meant) && !PartsTight(parts, meant)
    ensures PartsAs(parts, pending, meant, nodes)
  {
  }

  lemma BarePart(content: seq<Piece>, parts: seq<Part>, pending: seq<Inline>, left: seq<Inline>, meant: seq<Inline>,
                 first: seq<AstNode>, more: seq<AstNode>)
    requires parts != [] && parts[0] == Bare(content) && AllAlike(pending, meant)
    requires (first, left) == Cut(pending, BuiltAll(content, PLAIN))
    requires PartsAs(parts[1..], left, Cut(meant, FlowAll(content, PLAIN)).1, more)
    ensures PartsAs(parts, pending, meant, first + more)
  {
    hide Cut, FlowAll, BuiltAll, Reads, ProcessInlines, AllAlike, BitsAlike, AllKept, MeaningParts, PartsTight, PartStylesKept;
    var rest := parts[1..];
    var built, flow := BuiltAll(content, PLAIN), FlowAll(content, PLAIN);
    AllBuiltAlike(content, PLAIN, PLAIN);
    AlikeCut(pending, built, meant, flow);
    var cut := Cut(meant, flow);
    BareFirst(content, parts, meant);
    SameParts(first, more, cut.0, MeaningParts(rest, cut.1));
    if first + more == MeaningParts(parts, meant) {
      CutReads(pending, built, meant, flow);
      ReadsAlike(content);
    }
    if AllKept(content, PLAIN, PLAIN) { AllKeptBuilt(content, PLAIN, PLAIN); }
  }

  lemma UnseenPart(block: Block, parts: seq<Part>, pending: seq<Inline>, meant: seq<Inline>, more: seq<AstNode>)
    requires parts != [] && parts[0] == Inner(block) && Unseen(block) && PartsAs(parts[1..], pending, meant, more)
    ensures PartsAs(parts, pending, meant, more)
  {
    hide Reads, MeaningParts, PartsTight, PartStylesKept;
    UnseenFirst(block, parts, meant);
  }

  lemma ReadsAlike(content: seq<Piece>)
    requires Reads(Elems(BuiltAll(content, PLAIN))) == Reads(Elems(FlowAll(content, PLAIN)))
    ensures AllKept(content, PLAIN, PLAIN)
  {
    hide StyledText, Elems, BuiltAll, FlowAll, AllKept;
    AllReadsKept(content, PLAIN, PLAIN, []);
  }

  lemma PlacedFirst(block: Block, pending: seq<Inline>, meant: seq<Inline>, first: seq<AstNode>)
    requires (pending == [] || block.Listing?) && |pending| == |meant| && RunsAs(block, pending, [], first)
    requires first == ParagraphOf(meant) + Meaning(block)
    ensures Reads(pending) == Reads(meant) && Right(block)
  {
    hide Reads, ProcessInlines, Right, Meaning;
    if pending != [] {
      assert first[..1] == ParagraphOf(meant);
      ParagraphReads(pending, meant);
    }
  }

  lemma PlacedPart(block: Block, parts: seq<Part>, pending: seq<Inline>, meant: seq<Inline>, first: seq<AstNode>, more: seq<AstNode>)
    requires parts != [] && parts[0] == Inner(block) && !Unseen(block) && (pending == [] || block.Listing?) && |pending| == |meant|
    requires RunsAs(block, pending, [], first) && PartsAs(parts[1..], [], [], more)
    ensures PartsAs(parts, pending, meant, first + more)
  {
    hide Reads, ProcessInlines, MeaningParts, PartsTight, PartStylesKept, Tight, StylesKept, Meaning;
    var whole := ParagraphOf(meant) + Meaning(block);
    assert pending == [] ==> whole == Meaning(block);
    HowMany(block);
    BlockFirst(block, parts, meant);
    SameParts(first, more, whole, MeaningParts(parts[1..], []));
    if first == whole {
      PlacedFirst(block, pending, meant, first);
    }
  }
  /** A block that drops, overtakes or takes in the text waiting before it. */
  lemma MisplacedPart(block: Block, rest: seq<Part>, pending: seq<Inline>, left: seq<Inline>, meant: seq<Inline>,
                      first: seq<AstNode>, more: seq<AstNode>)
    requires pending != [] && meant != [] && !block.Listing? && !Unseen(block) && RunsAs(block, pending, left, first)
    requires |more| <= |MeaningParts(rest, LeftMeant(Inner(block), left, meant))|
    ensures var whole := ParagraphOf(meant) + Meaning(block) + MeaningParts(rest, []);
            |first + more| <= |whole| && first + more != whole
  {
    hide MeaningParts, ProcessInlines, Right;
    OneMore(rest, LeftMeant(Inner(block), left, meant), []);
    var whole := ParagraphOf(meant) + Meaning(block) + MeaningParts(rest, []);
    assert whole[0].Paragraph?;
    if block.Head? || block.Para? {
      assert left == [];
    } else {
      assert |first| == 1 && !first[0].Paragraph? && (first + more)[0] == first[0];
      assert |Meaning(block)| == 1;
    }
  }

  // ----- documents

  /** For every document, whatever its ranges and whatever the source: the AST built from its
      events is what it means if and only if it is tight and keeps its styles, and nothing is
      left open. */
  lemma DocumentMeans(source: string, doc: seq<Block>)
    ensures var st := HandleAll(source, INITIAL, BlocksEvents(doc));
            (st.root == MeaningAll(doc) <==> AllTight(doc) && AllStylesKept(doc))
            && st.frames == [] && st.inlines == [] && st.links == [] && st.deferred == []
  {
    hide HandleAll;
    var nodes := BlocksRun(source, doc, INITIAL);
    assert [] + nodes == nodes;
  }

  // ----- the two conditions, where they fail

  lemma GivenBack(p: Piece, f: Format)
    ensures After(p, f) == f <==> forall style :: HasStyle(f, style) ==> !Opens(p, style)
  {
    hide Opens;
    assert HasStyle(f, Strong) <==> f.bold;
    assert HasStyle(f, Emphasis) <==> f.italic;
    assert HasStyle(f, Strikethrough) <==> f.strikethrough;
    if After(p, f) == f {
      forall style | HasStyle(f, style) ensures !Opens(p, style) {
        match style case Strong => case Emphasis => case Strikethrough =>
      }
    }
  }

  /** A piece gives back the style in force before it exactly when it opens none of the styles
      in force. */
  lemma StyleRestoredExactly(source: string, p: Piece, st: State)
    requires st.code.None? && !st.inMetadata
    ensures HandleAll(source, st, PieceEvents(p)).format == st.format <==> forall style :: HasStyle(st.format, style) ==> !Opens(p, style)
  {
    hide HandleAll, TextAfter, LinksAfter, Opens, Built;
    PieceAfter(source, p, st);
    GivenBack(p, st.format);
  }

  /** A block leaves the text waiting in its item in its place exactly when there is none, or the
      block is a list; and it comes out as it means exactly when it is right. */
  lemma WaitingTextKept(source: string, b: Block, st: State)
    requires Rest(st)
    ensures Did(st, HandleAll(source, st, BlockEvents(b)), ParagraphOf(st.inlines) + Meaning(b)) <==>
            Right(b) && (st.inlines == [] || b.Listing?)
  {
    hide HandleAll, BlockEvents, ProcessInlines, Grown, Rest, Right;
    var nodes := BlockRuns(source, b, st);
    assert st.inlines == [] ==> ParagraphOf(st.inlines) + Meaning(b) == Meaning(b);
    GrownOnce(st, HandleAll(source, st, BlockEvents(b)), nodes, ParagraphOf(st.inlines) + Meaning(b));
  }
}
