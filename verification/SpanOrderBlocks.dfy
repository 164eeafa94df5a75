/** Blocks opening and closing in a clean stream keep the layout. */
module SpanOrderBlocks {
  import opened Text
  import opened Paths
  import opened Ast
  import opened Inlines
  import opened Spans
  import opened Events
  import opened Nesting
  import opened CleanStreams
  import opened BuilderModel
  import opened RunCounts
  import opened BlockTree
  import opened BlockPaths
  import opened Resolve
  import opened SpanOrder
  import opened SpanOrderPush
  import opened SpanOrderSteps

  // ----- images

  lemma MarkSplitLayout(source: string, st: State, marks: seq<Mark>, hi: nat)
    requires Layout(source, st, marks, hi)
    ensures Layout(source, st.(frames := MarkSplit(st.frames)), marks, hi)
    ensures Lo(MarkSplit(st.frames)) == Lo(st.frames) && SameOutline(st.frames, MarkSplit(st.frames))
  {
    OutlineRegs(source, st.frames, MarkSplit(st.frames), st.regs);
    hide RegsGeo, Get, LinkGeo, DeferredReg;
  }

  lemma AllHoldLayout(source: string, st: State, marks: seq<Mark>, hi: nat)
    requires Layout(source, st, marks, hi)
    ensures Layout(source, st, AllHold(marks), hi) && |st.links| == |marks|
  {
    hide RegsGeo, Get;
    forall i | 0 <= i < |st.links|
      ensures LinkGeo(source, st.links[i], AllHold(marks)[i], st.regs, st.deferred, Lo(st.frames), hi)
    {
      assert LinkGeo(source, st.links[i], marks[i], st.regs, st.deferred, Lo(st.frames), hi);
    }
  }

  lemma AltRunWithin(source: string, chars: nat, r: Range)
    requires TruthfulSpan(source, r)
    ensures RunsWithin(source, NO_RUNS.Push(chars, r, false).runs, r)
  {
  }

  /** An image inside a heading waits behind the earlier ones. */
  lemma DeferLayout(source: string, st: State, marks: seq<Mark>, hi: nat, d: Deferred)
    requires Layout(source, st, marks, hi) && DeferredReg(source, d, Lo(st.frames), hi)
    requires forall i :: 0 <= i < |st.deferred| ==> st.deferred[i].source.end <= d.source.start
    requires forall i :: 0 <= i < |marks| ==> !marks[i].image
    requires Bounded(st.regs, d.source.start) && forall k :: 0 <= k < |st.runs.runs| ==> st.runs.runs[k].source.end <= d.source.start
    ensures Layout(source, st.(deferred := st.deferred + [d]), marks, hi)
  {
    hide RegsGeo, Get;
    forall i | 0 <= i < |st.links|
      ensures LinkGeo(source, st.links[i], marks[i], st.regs, st.deferred + [d], Lo(st.frames), hi)
    {
      assert LinkGeo(source, st.links[i], marks[i], st.regs, st.deferred, Lo(st.frames), hi);
    }
  }

  /** What is left once the image's frame is popped, the leaf marked and the links marked. */
  lemma UnwrapLayout(source: string, st: State, c: Care, r: Range)
    requires Geo(source, st, c) && Allows(source, c.nest, EndEvent(ImageEnd, r)) && st.links != []
    ensures |c.marks| == |st.links|
    ensures var marked := PopLink(st).(frames := MarkSplit(st.frames));
            Layout(source, marked, AllHold(Init(c.marks)), r.end)
    ensures Lo(MarkSplit(st.frames)) == Lo(st.frames) && SameOutline(st.frames, MarkSplit(st.frames))
  {
    hide Counted, Sound, Consistent, Layout, Get;
    assert c.nest.cursor <= r.end;
    PopLinkLayout(source, st, c.marks, c.nest.cursor);
    MarkSplitLayout(source, PopLink(st), Init(c.marks), c.nest.cursor);
    var marked := PopLink(st).(frames := MarkSplit(st.frames));
    AllHoldLayout(source, marked, Init(c.marks), c.nest.cursor);
    LayoutGrows(source, marked, AllHold(Init(c.marks)), c.nest.cursor, r.end);
  }

  /** What is known of the image that closes. */
  lemma ImageFacts(source: string, st: State, c: Care, r: Range)
    requires Geo(source, st, c) && Allows(source, c.nest, EndEvent(ImageEnd, r))
    ensures st.links != [] && Top(st.links).source == r && Top(st.links).kind.ImageOf? && |c.marks| == |st.links|
    ensures forall i :: 0 <= i < |c.marks| - 1 ==> !c.marks[i].image
    ensures TruthfulSpan(source, r) && Lo(st.frames) <= r.start && Bounded(st.regs, r.start)
    ensures forall d :: 0 <= d < |st.deferred| ==> st.deferred[d].source.end <= r.start
    ensures forall k :: 0 <= k < |st.runs.runs| ==> st.runs.runs[k].source.end <= r.start
    ensures st.code == None
    ensures InHeading(st.frames) <==> UnderHeading(c.nest.stack)
    ensures !InHeading(st.frames) ==> st.deferred == []
    ensures FramesGeo(source, st.frames, c.nest.cursor) && c.nest.cursor <= r.end
  {
    hide Counted, Sound, Get, InLeaf, UnderHeading;
    assert FramesGeo(source, st.frames, c.nest.cursor) by { FramesOfLayout(source, st, c.marks, c.nest.cursor); }
    hide Layout;
    assert st.links != [] && Top(st.links).source == r && Top(st.links).kind.ImageOf?;
    LinkFacts(source, st, c.marks, c.nest.cursor);
  }

  lemma FramesOfLayout(source: string, st: State, marks: seq<Mark>, hi: nat)
    requires Layout(source, st, marks, hi)
    ensures FramesGeo(source, st.frames, hi)
  {
  }

  lemma CloseImageLayout(source: string, st: State, c: Care, r: Range)
    requires Geo(source, st, c) && Allows(source, c.nest, EndEvent(ImageEnd, r))
    ensures Layout(source, CloseImage(st), Watch(c, EndEvent(ImageEnd, r)).marks, r.end)
  {
    hide Layout, Get, RunsWithin, Counted, FramesMatch, Tree, Consistent, NestGeo, FramesGeo, Bounded, TruthfulSpan;
    ImageFacts(source, st, c, r);
    UnwrapLayout(source, st, c, r);
    var frame := Top(st.links);
    var marked := PopLink(st).(frames := MarkSplit(st.frames));
    var altText, marks := AltText(frame.content), AllHold(Init(c.marks));
    var runs := NO_RUNS.Push(|altText|, r, false).runs;
    var node := Image(altText, frame.kind.url);
    AltRunWithin(source, |altText|, r);
    if InHeading(st.frames) {
      hide Geo;
      DeferLayout(source, marked, marks, r.end, Deferred(node, r, runs));
    } else {
      assert Sound(marked, c.nest.stack) && Counted(source, marked) by {
        SplitSound(PopLink(st), c.nest.stack);
        PopCounts(source, st);
        FramesDoNotCount(source, PopLink(st), MarkSplit(st.frames));
      }
      hide Geo, Sound;
      HoistLayout(source, marked, marks, node, r, runs, c.nest.stack);
    }
  }

  /** An image outside a heading: what precedes it is flushed, then it is pushed. */
  lemma HoistLayout(source: string, st: State, marks: seq<Mark>, node: AstNode, r: Range, runs: seq<InlineRun>, stack: seq<Open>)
    requires Sound(st, stack) && Counted(source, st) && Layout(source, st, marks, r.end) && Flushable(st, marks)
    requires TruthfulSpan(source, r) && RunsWithin(source, runs, r) && Lo(st.frames) <= r.start
    requires Bounded(st.regs, r.start) && forall k :: 0 <= k < |st.runs.runs| ==> st.runs.runs[k].source.end <= r.start
    ensures Layout(source, PushBlock(FlushPending(st), node, Some(r), runs), marks, r.end)
  {
    LayoutFlush(source, st, marks, r.end, r.start);
    FlushSound(st, stack);
    FramesOfLayout(source, st, marks, r.end);
    StartsBelow(source, st.frames, r.end, r.start);
    hide Layout, Counted, FramesMatch, Tree, FlushPending, Get;
    LayoutPush(source, FlushPending(st), node, r, runs, marks, r.end);
  }

  // ----- opening

  /** A frame that opens with nothing pending. */
  lemma OpenLayout(source: string, st: State, hi: nat, frame: Frame)
    requires TreeInv(st) && Layout(source, st, [], hi) && st.links == [] && st.deferred == [] && st.code == None
    requires st.runs.runs == [] && hi <= frame.source.start && TruthfulSpan(source, frame.source)
    requires frame.kind.HoldsChildren() ==> frame.kind.path == NextPath(st.frames, |st.root|)
    ensures Layout(source, st.(frames := st.frames + [frame]), [], frame.source.start)
  {
    AtTheCursor(source, st, [], hi, frame.source.start);
    OpenRegsGeo(source, st.frames, st.root, st.regs, frame);
    FramesOfLayout(source, st, [], hi);
    hide RegsGeo, Get, LinkGeo, DeferredReg;
    assert Top(st.frames + [frame]) == frame;
    OpenFramesGeo(source, st.frames, hi, frame);
  }

  lemma OpenFramesGeo(source: string, frames: seq<Frame>, hi: nat, frame: Frame)
    requires FramesGeo(source, frames, hi) && hi <= frame.source.start && TruthfulSpan(source, frame.source)
    ensures FramesGeo(source, frames + [frame], frame.source.start)
  {
  }

  // ----- closing

  /** The layout once the innermost frame is gone and nothing inline is pending. */
  lemma PopLayout(source: string, st: State, hi: nat)
    requires st.frames != [] && Layout(source, st, [], hi) && st.links == [] && st.code == None
    requires forall k :: 0 <= k < |st.frames| - 1 ==> st.frames[k].kind.HoldsChildren()
    ensures Layout(source, ResetInlines(PopFrame(st)), [], hi)
  {
    hide RegsGeo, Get, DeferredGeo;
    PopRegsGeo(source, st.frames, st.regs);
    assert Lo(Init(st.frames)) <= Lo(st.frames);
    LowerDeferred(source, st.deferred, st.regs, st.runs.runs, Lo(Init(st.frames)), Lo(st.frames), hi);
  }

  lemma LowerDeferred(source: string, deferred: seq<Deferred>, regs: seq<Reg>, runs: seq<InlineRun>, lo': nat, lo: nat, hi: nat)
    requires DeferredGeo(source, deferred, regs, runs, lo, hi) && lo' <= lo
    ensures DeferredGeo(source, deferred, regs, [], lo', hi)
  {
    hide Get, RunsWithin;
    forall d | 0 <= d < |deferred| ensures DeferredReg(source, deferred[d], lo', hi) {
      assert DeferredReg(source, deferred[d], lo, hi);
    }
  }

  /** A closing leaf registers its tag, or the extent of its runs if an image left it. */
  lemma CloseLeafLayout(source: string, st: State, stack: seq<Open>, node: AstNode, r: Range, hi: nat)
    requires st.frames != [] && Layout(source, st, [], hi) && st.links == [] && st.code == None && hi <= r.end
    requires Sound(ResetInlines(PopFrame(st)), stack) && Top(st.frames).source == r && TruthfulSpan(source, r)
    requires !Top(st.frames).kind.HoldsChildren() && (!Top(st.frames).split ==> st.deferred == [])
    requires forall k :: 0 <= k < |st.frames| - 1 ==> st.frames[k].kind.HoldsChildren()
    ensures var runs := st.runs.runs;
            Layout(source, PushBlock(ResetInlines(PopFrame(st)), node, SplitAdjusted(Top(st.frames), runs), runs), [], r.end)
  {
    var reset, runs := ResetInlines(PopFrame(st)), st.runs.runs;
    var span := SplitAdjusted(Top(st.frames), runs);
    PopLayout(source, st, hi);
    LayoutGrows(source, reset, [], hi, r.end);
    LeafFacts(source, st, hi);
    if span.None? {
      LayoutAttach(source, reset, node, [], r.end);
    } else {
      if Top(st.frames).split {
        ExtentHolds(source, runs, st.regs, r.start, hi);
      } else {
        RunsAreWithin(source, runs, st.regs, r, hi);
      }
      assert forall k :: 0 <= k < |reset.frames| ==> reset.frames[k].source.start <= r.start;
      hide Layout, FramesMatch, Tree, RunsGeo, RunsWithin, Get;
      LayoutPush(source, reset, node, span.value, runs, [], r.end);
    }
  }

  lemma LeafFacts(source: string, st: State, hi: nat)
    requires st.frames != [] && Layout(source, st, [], hi) && !Top(st.frames).kind.HoldsChildren()
    ensures RunsGeo(source, st.runs.runs, st.regs, Top(st.frames).source.start, hi)
    ensures !Top(st.frames).split ==> Bounded(st.regs, Top(st.frames).source.start)
    ensures st.deferred != [] ==> forall k :: 0 <= k < |st.runs.runs| ==> st.runs.runs[k].source.end <= st.deferred[0].source.start
    ensures forall k :: 0 <= k < |st.frames| ==> st.frames[k].source.start <= Top(st.frames).source.start
  {
    hide RegsGeo, Get, LinkGeo, DeferredReg;
  }

  /** The images hoisted out of a heading follow it. */
  lemma {:induction false} DrainLayout(source: string, st: State, waiting: seq<Deferred>, stack: seq<Open>, lo: nat, hi: nat)
    requires Sound(st, stack) && Layout(source, st, [], hi) && Settled(st, [], hi) && st.deferred == []
    requires forall d :: 0 <= d < |waiting| ==> DeferredReg(source, waiting[d], lo, hi)
    requires forall d :: 0 < d < |waiting| ==> waiting[d - 1].source.end <= waiting[d].source.start
    requires waiting != [] ==> Bounded(st.regs, waiting[0].source.start)
    requires forall k :: 0 <= k < |st.frames| ==> st.frames[k].source.start <= lo
    ensures Layout(source, DrainFrom(st, waiting), [], hi)
    decreases |waiting|
  {
    hide Layout, Get, Sound, TruthfulSpan, RunsWithin, Bounded, RegsGeo, FramesGeo, LinksGeo;
    if waiting != [] {
      var d := waiting[0];
      assert DeferredReg(source, d, lo, hi);
      assert TreeInv(st) by { TreeOfSound(st, stack); }
      LayoutPush(source, st, d.node, d.source, d.runs, [], hi);
      PushSound(st, d.node, Some(d.source), d.runs, stack);
      var st' := PushBlock(st, d.node, Some(d.source), d.runs);
      PushedOutline(st, d.node, d.source, d.runs);
      BoundedLater(st'.regs, waiting);
      hide PushBlock;
      DrainLayout(source, st', waiting[1..], stack, lo, hi);
    }
  }

  lemma TreeOfSound(st: State, stack: seq<Open>)
    requires Sound(st, stack)
    ensures TreeInv(st)
  {
  }

  /** Pushing keeps the frames' outline and everything that is not the tree or the registrations. */
  lemma PushedOutline(st: State, node: AstNode, span: Range, runs: seq<InlineRun>)
    ensures var st' := PushBlock(st, node, Some(span), runs);
            SameOutline(st.frames, st'.frames) && (st.frames != [] ==> Top(st'.frames).split == Top(st.frames).split)
            && st'.links == st.links && st'.code == st.code && st'.runs == st.runs && st'.deferred == st.deferred
  {
    AttachOutline(st.frames, node);
  }

  lemma BoundedLater(regs: seq<Reg>, waiting: seq<Deferred>)
    requires waiting != [] && Bounded(regs, waiting[0].source.end)
    requires forall d :: 0 < d < |waiting| ==> waiting[d - 1].source.end <= waiting[d].source.start
    ensures waiting[1..] != [] ==> Bounded(regs, waiting[1..][0].source.start)
  {
  }

  lemma CloseHeadingLayout(source: string, st: State, c: Care, r: Range)
    requires Geo(source, st, c) && Allows(source, c.nest, EndEvent(HeadingEnd, r))
    ensures Layout(source, CloseHeading(st), [], r.end)
  {
    hide Geo, Allows, Layout, Sound, Get, DeferredReg, Bounded, TruthfulSpan, SplitAdjusted, SameOutline;
    HeadingFacts(source, st, c, r);
    HeadingDeferred(source, st, c, r);
    var stack, hi := c.nest.stack, c.nest.cursor;
    var frame, reset := Top(st.frames), ResetInlines(PopFrame(st));
    var node := Heading(frame.kind.level, ProcessInlines(st.inlines));
    var pushed := PushBlock(reset, node, SplitAdjusted(frame, st.runs.runs), st.runs.runs);
    CloseLeafLayout(source, st, Init(stack), node, r, hi);
    PushSound(reset, node, SplitAdjusted(frame, st.runs.runs), st.runs.runs, Init(stack));
    PushedDeferred(source, st, node, r, hi);
    DropDeferredLayout(source, pushed, r.end);
    SettledHeading(st, pushed, r.end);
    SoundWithoutDeferred(pushed, Init(stack));
    hide PushBlock;
    DrainLayout(source, pushed.(deferred := []), pushed.deferred, Init(stack), r.start, r.end);
  }

  lemma SoundWithoutDeferred(st: State, stack: seq<Open>)
    requires Sound(st, stack)
    ensures Sound(st.(deferred := []), stack)
  {
  }

  lemma SettledHeading(st: State, pushed: State, hi: nat)
    requires st.frames != [] && SameOutline(Init(st.frames), pushed.frames)
    requires forall k :: 0 <= k < |st.frames| - 1 ==> st.frames[k].kind.HoldsChildren()
    requires pushed.links == [] && pushed.code == None && pushed.runs == NO_RUNS
    ensures Settled(pushed.(deferred := []), [], hi)
  {
  }

  /** What is known of the heading that closes. */
  lemma HeadingFacts(source: string, st: State, c: Care, r: Range)
    requires Geo(source, st, c) && Allows(source, c.nest, EndEvent(HeadingEnd, r))
    ensures st.frames != [] && Top(st.frames).kind.HeadingFrame? && Top(st.frames).source == r && TruthfulSpan(source, r)
    ensures st.links == [] && c.marks == [] && st.code == None && c.nest.cursor <= r.end
    ensures Layout(source, st, [], c.nest.cursor)
    ensures c.nest.stack != [] && Sound(ResetInlines(PopFrame(st)), Init(c.nest.stack))
    ensures !Top(st.frames).split ==> st.deferred == []
    ensures forall k :: 0 <= k < |st.frames| - 1 ==> st.frames[k].kind.HoldsChildren()
  {
    hide Counted, Get, Layout;
    BlockOnTopNoLinks(st, c);
    LinksAndMarks(source, st, c.marks, c.nest.cursor);
    PopSound(st, c.nest.stack);
  }

  /** Where the images hoisted out of a heading lie. */
  lemma HeadingDeferred(source: string, st: State, c: Care, r: Range)
    requires Geo(source, st, c) && st.frames != [] && Top(st.frames).source == r && c.nest.cursor <= r.end
    ensures forall d :: 0 <= d < |st.deferred| ==> DeferredReg(source, st.deferred[d], r.start, r.end)
    ensures forall d :: 0 < d < |st.deferred| ==> st.deferred[d - 1].source.end <= st.deferred[d].source.start
  {
    hide Counted, Get, Sound, NestGeo, Consistent;
    forall d | 0 <= d < |st.deferred| ensures DeferredReg(source, st.deferred[d], r.start, r.end) {
      assert DeferredReg(source, st.deferred[d], Lo(st.frames), c.nest.cursor);
    }
  }

  /** The heading itself ends before the first of them. */
  lemma PushedDeferred(source: string, st: State, node: AstNode, r: Range, hi: nat)
    requires st.frames != [] && Layout(source, st, [], hi) && Top(st.frames).source == r
    requires !Top(st.frames).kind.HoldsChildren() && (!Top(st.frames).split ==> st.deferred == [])
    ensures var runs := st.runs.runs;
            var pushed := PushBlock(ResetInlines(PopFrame(st)), node, SplitAdjusted(Top(st.frames), runs), runs);
            pushed.deferred == st.deferred && pushed.links == st.links && pushed.code == st.code && pushed.runs == NO_RUNS
            && (st.deferred != [] ==> Bounded(pushed.regs, st.deferred[0].source.start))
            && SameOutline(Init(st.frames), pushed.frames)
            && forall k :: 0 <= k < |pushed.frames| ==> pushed.frames[k].source.start <= r.start
  {
    hide Layout, RunsGeo;
    LeafFacts(source, st, hi);
    DeferredFacts(source, st, hi);
    AttachOutline(Init(st.frames), node);
    var reset, runs := ResetInlines(PopFrame(st)), st.runs.runs;
    var span := SplitAdjusted(Top(st.frames), runs);
    var reg := if span.Some? then [Reg(NextPath(reset.frames, |reset.root|), span.value, runs, node)] else [];
    AttachIs(reset.(regs := reset.regs + reg), node);
    assert reset.regs + [] == reset.regs;
    assert PushBlock(reset, node, span, runs) == Attach(reset.(regs := reset.regs + reg), node);
    hide PushBlock, Attach, AttachIn, RootAfter, NextPath;
  }

  lemma DeferredFacts(source: string, st: State, hi: nat)
    requires Layout(source, st, [], hi)
    ensures st.deferred != [] ==> Bounded(st.regs, st.deferred[0].source.start)
  {
    hide RegsGeo, Get, LinkGeo, DeferredReg;
  }

  lemma DropDeferredLayout(source: string, st: State, hi: nat)
    requires Layout(source, st, [], hi)
    ensures Layout(source, st.(deferred := []), [], hi)
  {
    hide Get, RegsGeo;
  }

  lemma CloseParagraphLayout(source: string, st: State, c: Care, r: Range)
    requires Geo(source, st, c) && Allows(source, c.nest, EndEvent(ParagraphEnd, r)) && st.deferred == []
    ensures Layout(source, CloseParagraph(st), [], r.end)
  {
    hide Counted, Get;
    var stack, hi := c.nest.stack, c.nest.cursor;
    BlockOnTopNoLinks(st, c);
    assert c.marks == [] by { LinksAndMarks(source, st, c.marks, hi); }
    PopSound(st, stack);
    if st.inlines == [] {
      PopLayout(source, st, hi);
      LayoutGrows(source, ResetInlines(PopFrame(st)), [], hi, r.end);
      InlinesDoNotMatter(source, ResetInlines(PopFrame(st)), CloseParagraph(st), [], r.end);
    } else {
      CloseLeafLayout(source, st, Init(stack), Paragraph(ProcessInlines(st.inlines)), r, hi);
    }
  }

  lemma CloseContainerLayout(source: string, st: State, stack: seq<Open>, end: TagEnd, r: Range, hi: nat)
    requires TreeInv(st) && st.frames != [] && Top(st.frames).kind.HoldsChildren() && ClosesFrame(end, Top(st.frames).kind)
    requires Layout(source, st, [], hi) && st.links == [] && st.code == None && st.deferred == [] && st.runs.runs == []
    requires Top(st.frames).source == r && TruthfulSpan(source, r) && hi <= r.end
    requires forall k :: 0 <= k < |st.frames| - 1 ==> st.frames[k].kind.HoldsChildren()
    ensures Layout(source, CloseContainer(st, end), [], r.end)
  {
    var frame := Top(st.frames);
    var reg := Reg(frame.kind.path, r, [], NodeOf(frame.kind));
    var outer := Init(st.frames);
    FramesOfLayout(source, st, [], hi);
    LayoutGrows(source, st, [], hi, r.end);
    CloseRegsGeo(source, st.frames, st.root, st.regs, reg);
    AttachOutline(outer, reg.node);
    OutlineRegs(source, outer, AttachIn(outer, reg.node), st.regs + [reg]);
    AttachIs(PopFrame(st).(regs := st.regs + [reg]), reg.node);
    hide RegsGeo, Get, TreeInv, AttachIn;
    ClosedLayout(source, st, CloseContainer(st, end), r.end);
  }

  lemma ClosedLayout(source: string, st: State, st': State, hi: nat)
    requires st.frames != [] && Layout(source, st, [], hi)
    requires st.links == [] && st.code == None && st.deferred == [] && st.runs.runs == []
    requires forall k :: 0 <= k < |st.frames| - 1 ==> st.frames[k].kind.HoldsChildren()
    requires st' == st.(frames := st'.frames, root := st'.root, regs := st'.regs) && SameOutline(Init(st.frames), st'.frames)
    requires RegsGeo(source, st'.frames, st'.regs) && Bounded(st'.regs, hi)
    ensures Layout(source, st', [], hi)
  {
    hide RegsGeo, Get;
  }

  /** What is known of the code block that closes. */
  lemma ClosingCode(source: string, st: State, c: Care, r: Range)
    requires Geo(source, st, c) && Allows(source, c.nest, EndEvent(CodeBlockEnd, r))
    ensures st.code.Some? && st.code.value.source == r && TruthfulSpan(source, r) && c.nest.cursor <= r.end
    ensures TreeInv(st) && Layout(source, st, [], c.nest.cursor)
    ensures st.links == [] && st.deferred == [] && st.runs.runs == []
    ensures st.frames != [] ==> Top(st.frames).kind.HoldsChildren()
  {
    hide Get, Layout, Tree, Counted, LinksMatch;
    BlockOnTopNoLinks(st, c);
    LinksAndMarks(source, st, c.marks, c.nest.cursor);
    NoTextNoRuns(source, st);
  }

  /** The code block's runs lie in it, after everything registered. */
  lemma CodeRunsWithin(source: string, st: State, hi: nat, r: Range)
    requires Layout(source, st, [], hi) && st.code.Some? && st.code.value.source == r && hi <= r.end
    ensures RunsWithin(source, st.code.value.runs.runs, r) && Bounded(st.regs, r.start) && Lo(st.frames) <= r.start
  {
    hide Get, RegsGeo, FramesGeo, LinksGeo, DeferredGeo;
    RunsAreWithin(source, st.code.value.runs.runs, [], r, hi);
  }

  lemma CloseCodeLayout(source: string, st: State, c: Care, r: Range)
    requires Geo(source, st, c) && Allows(source, c.nest, EndEvent(CodeBlockEnd, r))
    ensures Layout(source, CloseCode(st), [], r.end)
  {
    hide Geo, Allows, Layout, TreeInv, TruthfulSpan, RunsWithin, Bounded;
    ClosingCode(source, st, c, r);
    var accum, st' := st.code.value, st.(code := None);
    LayoutGrows(source, st, [], c.nest.cursor, r.end);
    CodeRunsWithin(source, st, r.end, r);
    FramesOfLayout(source, st, [], r.end);
    StartsBelow(source, st.frames, r.end, r.start);
    DropCodeLayout(source, st, r.end);
    assert TreeInv(st') by { CodeNotInTree(st, None); }
    LayoutPush(source, st', CodeBlock(accum.language, accum.code), r, accum.runs.runs, [], r.end);
  }

  lemma CodeNotInTree(st: State, code: Option<CodeAccum>)
    requires TreeInv(st)
    ensures TreeInv(st.(code := code))
  {
  }

  lemma DropCodeLayout(source: string, st: State, hi: nat)
    requires Layout(source, st, [], hi)
    ensures Layout(source, st.(code := None), [], hi)
  {
    hide Get, RegsGeo, RunsGeo, LinksGeo, DeferredGeo, FramesGeo, LeafGeo;
  }
}
