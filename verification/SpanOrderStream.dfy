/** Every event of a clean stream keeps the invariant, so the finished registrations are in
    document order. */
module SpanOrderStream {
  import opened Text
  import opened Paths
  import opened Ast
  import opened Inlines
  import opened Spans
  import opened Events
  import opened Nesting
  import opened CleanStreams
  import opened BuilderModel
  import opened RunCounts
  import opened BlockTree
  import opened BlockPaths
  import opened SpanOrder
  import opened SpanOrderPush
  import opened SpanOrderSteps
  import opened SpanOrderBlocks
  import opened SpanOrderFlags

  // ----- the layout

  /** Between blocks nothing is deferred, and without waiting text nothing is pending. */
  lemma BetweenBlocks(source: string, st: State, c: Care)
    requires Geo(source, st, c) && !InLeaf(c.nest.stack)
    ensures !UnderHeading(c.nest.stack) && st.deferred == []
    ensures st.frames != [] ==> Top(st.frames).kind.HoldsChildren()
    ensures !c.pending ==> st.inlines == [] && st.runs.runs == []
  {
    hide Layout, Sound, NestGeo;
    if !c.pending { NoTextNoRuns(source, st); }
  }

  /** What is known where a block may begin. */
  lemma BlockFacts(source: string, st: State, c: Care, r: Range)
    requires Geo(source, st, c) && !InLeaf(c.nest.stack) && !Verbatim(c.nest.stack) && c.marks == [] && FitsAt(source, c.nest, r)
    ensures Sound(st, c.nest.stack) && TreeInv(st) && TreeInv(ResetInlines(st)) && Counted(source, st)
    ensures Layout(source, st, [], c.nest.cursor) && st.links == [] && st.deferred == [] && st.code == None
    ensures TruthfulSpan(source, r) && c.nest.cursor <= r.start < r.end
    ensures st.frames != [] ==> Top(st.frames).kind.HoldsChildren()
    ensures !c.pending ==> st.inlines == [] && st.runs.runs == []
  {
    hide Layout, Counted, Get, Tree, InLeaf, UnderHeading, LinksMatch;
    BetweenBlocks(source, st, c);
    LinksAndMarks(source, st, c.marks, c.nest.cursor);
  }

  lemma StartLeafLayout(source: string, st: State, c: Care, tag: Tag, r: Range)
    requires Geo(source, st, c) && Allows(source, c.nest, StartEvent(tag, r)) && Avoids(c, StartEvent(tag, r)) && IsLeafTag(tag)
    ensures Layout(source, OnStart(st, tag, r), [], r.start)
  {
    hide Geo, Layout, Counted, Sound, FitsAt, TruthfulSpan, TreeInv, InLeaf, Verbatim;
    BlockFacts(source, st, c, r);
    ResetLayout(source, st, [], c.nest.cursor);
    var kind := if tag.HeadingTag? then HeadingFrame(tag.level) else ParagraphFrame;
    OpenLayout(source, ResetInlines(st), c.nest.cursor, Frame(kind, r, false));
  }

  lemma StartContainerLayout(source: string, st: State, c: Care, tag: Tag, r: Range)
    requires Geo(source, st, c) && Allows(source, c.nest, StartEvent(tag, r)) && Avoids(c, StartEvent(tag, r))
    requires tag.BlockQuoteTag? || tag.ItemTag?
    ensures Layout(source, OnStart(st, tag, r), [], r.start)
  {
    hide Geo, Layout, Counted, Sound, FitsAt, TruthfulSpan, TreeInv, InLeaf, Verbatim;
    BlockFacts(source, st, c, r);
    var path := NextPath(st.frames, |st.root|);
    var kind := if tag.BlockQuoteTag? then BlockquoteFrame(path, []) else ItemFrame(path, [], None);
    OpenLayout(source, st, c.nest.cursor, Frame(kind, r, false));
  }

  lemma StartListLayout(source: string, st: State, c: Care, start: Option<nat>, r: Range)
    requires Geo(source, st, c)
    requires Allows(source, c.nest, StartEvent(ListTag(start), r)) && Avoids(c, StartEvent(ListTag(start), r))
    ensures Layout(source, OnStart(st, ListTag(start), r), [], r.start)
  {
    hide Geo, Layout, Counted, Sound, FitsAt, TruthfulSpan, TreeInv, InLeaf, Verbatim, FlushPending, Bounded, SameOutline;
    BlockFacts(source, st, c, r);
    AtTheCursor(source, st, [], c.nest.cursor, c.nest.cursor);
    FlushSound(st, c.nest.stack);
    LayoutFlush(source, st, [], c.nest.cursor, c.nest.cursor);
    var flushed := FlushPending(st);
    SoundTree(flushed, c.nest.stack);
    OpenLayout(source, flushed, c.nest.cursor,
               Frame(ListFrame(NextPath(flushed.frames, |flushed.root|), start.Some?, []), r, false));
  }

  lemma StartCodeLayout(source: string, st: State, c: Care, tag: Tag, r: Range)
    requires Geo(source, st, c) && Allows(source, c.nest, StartEvent(tag, r)) && Avoids(c, StartEvent(tag, r)) && IsCodeTag(tag)
    ensures Layout(source, OnStart(st, tag, r), [], r.start)
  {
    hide Geo, Layout, Counted, Sound, FitsAt, TruthfulSpan, TreeInv, InLeaf, Verbatim, Trim;
    BlockFacts(source, st, c, r);
    LayoutGrows(source, st, [], c.nest.cursor, r.start);
    AtTheCursor(source, st, [], c.nest.cursor, r.start);
    OpenCodeLayout(source, st, r.start, OnStart(st, tag, r).code.value);
  }

  lemma OpenCodeLayout(source: string, st: State, hi: nat, accum: CodeAccum)
    requires Layout(source, st, [], hi) && TruthfulSpan(source, accum.source) && accum.source.start == hi && accum.runs == NO_RUNS
    requires Bounded(st.regs, hi) && Lo(st.frames) <= hi
    ensures Layout(source, st.(code := Some(accum)), [], hi)
  {
    hide FramesGeo, RegsGeo, LinksGeo, DeferredGeo, LeafGeo, Get;
  }

  lemma StartLayout(source: string, st: State, c: Care, tag: Tag, r: Range)
    requires Geo(source, st, c) && Allows(source, c.nest, StartEvent(tag, r)) && Avoids(c, StartEvent(tag, r))
    ensures Layout(source, OnStart(st, tag, r), Watch(c, StartEvent(tag, r)).marks, r.start)
  {
    hide Geo, Layout, InLeaf, Get;
    match tag {
      case HeadingTag(_) => StartLeafLayout(source, st, c, tag, r);
      case ParagraphTag => StartLeafLayout(source, st, c, tag, r);
      case BlockQuoteTag => StartContainerLayout(source, st, c, tag, r);
      case ListTag(start) => StartListLayout(source, st, c, start, r);
      case ItemTag => StartContainerLayout(source, st, c, tag, r);
      case FencedTag(_) => StartCodeLayout(source, st, c, tag, r);
      case IndentedTag => StartCodeLayout(source, st, c, tag, r);
      case LinkTag(target) => OpenLinkLayout(source, st, c, LinkTo(target), r);
      case ImageTag(url) => OpenLinkLayout(source, st, c, ImageOf(url), r);
      case _ => NeutralLayout(source, st, c, OnStart(st, tag, r), r.start);
    }
  }

  /** Steps the layout does not see. */
  lemma NeutralLayout(source: string, st: State, c: Care, st': State, hi: nat)
    requires Geo(source, st, c) && c.nest.cursor <= hi
    requires st'.frames == st.frames && st'.regs == st.regs && st'.runs == st.runs && st'.links == st.links
    requires st'.code == st.code && st'.deferred == st.deferred
    ensures Layout(source, st', c.marks, hi)
  {
    hide Layout, Counted, Sound, Consistent, NestGeo;
    LayoutGrows(source, st, c.marks, c.nest.cursor, hi);
    InlinesDoNotMatter(source, st, st', c.marks, hi);
  }

  lemma TaskLayout(source: string, st: State, marks: seq<Mark>, hi: nat, checked: bool)
    requires Layout(source, st, marks, hi)
    ensures Layout(source, OnTask(st, checked), marks, hi)
  {
    OutlineRegs(source, st.frames, OnTask(st, checked).frames, st.regs);
    hide RegsGeo, Get, LinkGeo, DeferredReg;
  }

  lemma EndContainerLayout(source: string, st: State, c: Care, end: TagEnd, r: Range)
    requires Geo(source, st, c) && Allows(source, c.nest, EndEvent(end, r)) && Avoids(c, EndEvent(end, r))
    requires end.BlockQuoteEnd? || end.ListEnd?
    ensures Layout(source, OnEnd(st, end), [], r.end)
  {
    ContainerFacts(source, st, c, end, r);
    EndIsClose(st, end);
    hide Geo, Layout, Get, Allows, Avoids, TreeInv, OnEnd, CloseContainer, TruthfulSpan;
    CloseContainerLayout(source, st, c.nest.stack, end, r, c.nest.cursor);
  }

  lemma EndIsClose(st: State, end: TagEnd)
    requires end.BlockQuoteEnd? || end.ListEnd?
    ensures OnEnd(st, end) == CloseContainer(st, end)
  {
  }

  /** What is known of the container that closes. */
  lemma ContainerFacts(source: string, st: State, c: Care, end: TagEnd, r: Range)
    requires Geo(source, st, c) && Allows(source, c.nest, EndEvent(end, r)) && Avoids(c, EndEvent(end, r))
    requires end.BlockQuoteEnd? || end.ListEnd? || end.ItemEnd?
    ensures TreeInv(st) && st.frames != [] && Top(st.frames).kind.HoldsChildren() && ClosesFrame(end, Top(st.frames).kind)
    ensures Layout(source, st, [], c.nest.cursor) && st.links == [] && c.marks == [] && st.code == None && st.deferred == []
    ensures !end.ItemEnd? ==> st.runs.runs == []
    ensures Top(st.frames).source == r && TruthfulSpan(source, r) && c.nest.cursor <= r.end
    ensures forall k :: 0 <= k < |st.frames| - 1 ==> st.frames[k].kind.HoldsChildren()
  {
    hide Layout, Counted, Get, Tree;
    BlockOnTopNoLinks(st, c);
    LinksAndMarks(source, st, c.marks, c.nest.cursor);
    assert !InLeaf(c.nest.stack);
    BetweenBlocks(source, st, c);
  }

  lemma StateFacts(source: string, st: State, c: Care)
    requires Geo(source, st, c)
    ensures Sound(st, c.nest.stack) && TreeInv(st) && Counted(source, st)
  {
  }

  lemma SoundTree(st: State, stack: seq<Open>)
    requires Sound(st, stack)
    ensures TreeInv(st)
  {
  }

  lemma EndItemLayout(source: string, st: State, c: Care, r: Range)
    requires Geo(source, st, c) && Allows(source, c.nest, EndEvent(ItemEnd, r)) && Avoids(c, EndEvent(ItemEnd, r))
    ensures Layout(source, OnEnd(st, ItemEnd), [], r.end)
  {
    hide Geo, Layout, Get, Counted, Sound, Allows, Avoids, FlushPending, InLeaf, SameOutline, TruthfulSpan, Bounded, CloseContainer;
    StateFacts(source, st, c);
    ContainerFacts(source, st, c, ItemEnd, r);
    var stack, hi := c.nest.stack, c.nest.cursor;
    AtTheCursor(source, st, [], hi, hi);
    FlushSound(st, stack);
    LayoutFlush(source, st, [], hi, hi);
    var flushed := FlushPending(st);
    FlushedTop(source, st, c, flushed, r);
    SoundTree(flushed, stack);
    CloseContainerLayout(source, flushed, stack, ItemEnd, r, hi);
  }

  /** A flush leaves the item on top, with its source. */
  lemma FlushedTop(source: string, st: State, c: Care, flushed: State, r: Range)
    requires Allows(source, c.nest, EndEvent(ItemEnd, r)) && Sound(flushed, c.nest.stack)
    requires SameOutline(st.frames, flushed.frames)
    requires forall k :: 0 <= k < |st.frames| - 1 ==> st.frames[k].kind.HoldsChildren()
    ensures flushed.frames != [] && Top(flushed.frames).kind.ItemFrame? && Top(flushed.frames).source == r
    ensures forall k :: 0 <= k < |flushed.frames| - 1 ==> flushed.frames[k].kind.HoldsChildren()
  {
    hide TreeInv;
  }

  lemma CursorInTag(source: string, st: State, c: Care, end: TagEnd, r: Range)
    requires Geo(source, st, c) && Allows(source, c.nest, EndEvent(end, r))
    ensures c.nest.cursor <= r.end
  {
    hide Counted, Sound, Consistent, Layout, Get;
  }

  lemma EndLayout(source: string, st: State, c: Care, end: TagEnd, r: Range)
    requires Geo(source, st, c) && Allows(source, c.nest, EndEvent(end, r)) && Avoids(c, EndEvent(end, r))
    ensures Layout(source, OnEnd(st, end), Watch(c, EndEvent(end, r)).marks, r.end)
  {
    hide Layout, InLeaf, UnderHeading, Get, Geo, Allows, Avoids, CloseHeading, CloseParagraph, CloseContainer, CloseCode, CloseLink, CloseImage, FlushPending;
    CursorInTag(source, st, c, end, r);
    match end {
      case HeadingEnd =>
        HeadingFacts(source, st, c, r);
        CloseHeadingLayout(source, st, c, r);
      case ParagraphEnd =>
        ParagraphFacts(source, st, c, r);
        CloseParagraphLayout(source, st, c, r);
      case BlockQuoteEnd =>
        ContainerFacts(source, st, c, end, r);
        EndContainerLayout(source, st, c, end, r);
      case ListEnd =>
        ContainerFacts(source, st, c, end, r);
        EndContainerLayout(source, st, c, end, r);
      case ItemEnd =>
        ContainerFacts(source, st, c, end, r);
        EndItemLayout(source, st, c, r);
      case CodeBlockEnd =>
        CodeFacts(source, st, c, r);
        CloseCodeLayout(source, st, c, r);
      case LinkEnd => CloseLinkLayout(source, st, c, r);
      case ImageEnd => CloseImageLayout(source, st, c, r);
      case _ => NeutralLayout(source, st, c, OnEnd(st, end), r.end);
    }
  }

  lemma ParagraphFacts(source: string, st: State, c: Care, r: Range)
    requires Geo(source, st, c) && Allows(source, c.nest, EndEvent(ParagraphEnd, r))
    ensures c.marks == [] && st.deferred == []
  {
    hide Layout, Counted, Get, Tree;
    BlockOnTopNoLinks(st, c);
    LinksAndMarks(source, st, c.marks, c.nest.cursor);
    PopSound(st, c.nest.stack);
  }

  lemma CodeFacts(source: string, st: State, c: Care, r: Range)
    requires Geo(source, st, c) && Allows(source, c.nest, EndEvent(CodeBlockEnd, r))
    ensures c.marks == []
  {
    hide Layout, Counted, Get, Sound;
    BlockOnTopNoLinks(st, c);
    LinksAndMarks(source, st, c.marks, c.nest.cursor);
  }

  lemma RuleLayout(source: string, st: State, c: Care, r: Range)
    requires Geo(source, st, c) && Allows(source, c.nest, RuleEvent(r)) && Avoids(c, RuleEvent(r))
    ensures Layout(source, PushBlock(st, ThematicBreak, Some(r), []), [], r.end)
  {
    hide Geo, Layout, Counted, Sound, FitsAt, TruthfulSpan, TreeInv, InLeaf, Verbatim, Bounded;
    BlockFacts(source, st, c, r);
    AtTheCursor(source, st, [], c.nest.cursor, r.start);
    LayoutGrows(source, st, [], c.nest.cursor, r.end);
    LayoutPush(source, st, ThematicBreak, r, [], [], r.end);
  }

  lemma StepLayout(source: string, st: State, c: Care, e: Event)
    requires Geo(source, st, c) && Allows(source, c.nest, e) && Avoids(c, e)
    ensures Layout(source, Handle(source, st, e), Next(c, e).marks, Next(c, e).nest.cursor)
  {
    hide Geo, Layout, InLeaf, UnderHeading, Get, OnStart, OnEnd, PushBlock;
    match e {
      case StartEvent(tag, r) => StartLayout(source, st, c, tag, r);
      case EndEvent(end, r) => EndLayout(source, st, c, end, r);
      case TextEvent(text, r) => TextLayout(source, st, c, text, r);
      case CodeEvent(text, r) => RenderedLayout(source, st, c, text, true, r);
      case RuleEvent(r) => RuleLayout(source, st, c, r);
      case BreakEvent(r) => RenderedLayout(source, st, c, "\n", false, r);
      case TaskEvent(checked, r) =>
        NeutralLayout(source, st, c, st, r.end);
        TaskLayout(source, st, c.marks, r.end, checked);
      case OtherEvent(r) => NeutralLayout(source, st, c, st, r.end);
    }
  }

  // ----- the whole stream

  lemma StepGeo(source: string, st: State, c: Care, e: Event)
    requires Geo(source, st, c) && Allows(source, c.nest, e) && Avoids(c, e)
    ensures Geo(source, Handle(source, st, e), Next(c, e))
  {
    StepLayout(source, st, c, e);
    StepConsistent(source, st, c, e);
    hide Layout, Consistent, Counted, Sound, NestGeo, Handle, Avoids, Allows, Watch, Advance;
    HandleCounts(source, st, e);
    HandleSound(source, st, c.nest, e);
    NestAdvances(source, c.nest, e);
  }

  lemma StartGeo(source: string)
    ensures Geo(source, INITIAL, START_CARE)
  {
    InitialCounts(source);
  }

  lemma {:induction false} StreamGeo(source: string, st: State, c: Care, events: seq<Event>) returns (end: Care)
    requires Geo(source, st, c) && Clean(source, c, events)
    ensures Geo(source, HandleAll(source, st, events), end) && end.nest.stack == []
    decreases |events|
  {
    hide Geo, Avoids, Allows, Handle;
    if events == [] {
      end := c;
    } else {
      StepGeo(source, st, c, events[0]);
      end := StreamGeo(source, Handle(source, st, events[0]), Next(c, events[0]), events[1..]);
    }
  }

  /** At the end of a clean stream every registered span is a non-empty piece of the source that
      holds its runs, an ancestor's span contains its descendants', and of two other blocks the
      earlier one ends before the later one starts. */
  lemma CleanStreamInOrder(source: string, events: seq<Event>)
    requires Clean(source, START_CARE, events)
    ensures var regs := HandleAll(source, INITIAL, events).regs;
            (forall i :: 0 <= i < |regs| ==> TruthfulReg(source, regs[i]))
            && (forall i, j :: 0 <= i < |regs| && 0 <= j < |regs| ==> InOrder(regs[i], regs[j]))
  {
    StartGeo(source);
    var end := StreamGeo(source, INITIAL, START_CARE, events);
  }
}
