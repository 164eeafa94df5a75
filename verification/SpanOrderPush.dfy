/** Pushing a block into the layout: a flush, a hoisted image, a closing leaf or code block. */
module SpanOrderPush {
  import opened Text
  import opened Paths
  import opened Ast
  import opened Inlines
  import opened Spans
  import opened Events
  import opened CleanStreams
  import opened BuilderModel
  import opened RunCounts
  import opened BlockTree
  import opened Resolve
  import opened SpanOrder

  /** Nothing pending lies before the end of the new block. */
  ghost predicate Settled(st: State, marks: seq<Mark>, end: nat) {
    && st.runs.runs == [] && st.code == None
    && (st.frames != [] ==> Top(st.frames).kind.HoldsChildren() || Top(st.frames).split)
    && |st.links| == |marks| && (marks != [] ==> marks[0].holds)
    && (forall i :: 0 <= i < |marks| ==> !marks[i].image)
    && (st.deferred != [] ==> end <= st.deferred[0].source.start)
  }

  lemma LayoutPush(source: string, st: State, node: AstNode, span: Range, runs: seq<InlineRun>, marks: seq<Mark>, hi: nat)
    requires TreeInv(st) && Layout(source, st, marks, hi) && Settled(st, marks, span.end)
    requires TruthfulSpan(source, span) && RunsWithin(source, runs, span) && span.end <= hi
    requires Bounded(st.regs, span.start) && forall k :: 0 <= k < |st.frames| ==> st.frames[k].source.start <= span.start
    ensures Layout(source, PushBlock(st, node, Some(span), runs), marks, hi)
    ensures Bounded(PushBlock(st, node, Some(span), runs).regs, span.end)
  {
    var reg := Reg(NextPath(st.frames, |st.root|), span, runs, node);
    PushRegsGeo(source, st.frames, st.root, st.regs, reg);
    AttachOutline(st.frames, node);
    OutlineRegs(source, st.frames, AttachIn(st.frames, node), st.regs + [reg]);
    AttachIs(st.(regs := st.regs + [reg]), node);
    hide AttachIn, RegsGeo, RootAfter, NextPath, Get, TreeInv;
    LayoutRegs(source, st, PushBlock(st, node, Some(span), runs), marks, hi, span.end);
  }

  /** Only the frames' outline and the registrations changed. */
  lemma LayoutRegs(source: string, st: State, st': State, marks: seq<Mark>, hi: nat, end: nat)
    requires Layout(source, st, marks, hi) && Settled(st, marks, end) && end <= hi
    requires st' == st.(frames := st'.frames, root := st'.root, regs := st'.regs)
    requires SameOutline(st.frames, st'.frames) && (st.frames != [] ==> Top(st'.frames).split == Top(st.frames).split)
    requires RegsGeo(source, st'.frames, st'.regs) && Bounded(st'.regs, end)
    ensures Layout(source, st', marks, hi)
  {
    hide RegsGeo, Get;
    assert Lo(st'.frames) == Lo(st.frames);
    forall i | 0 <= i < |st.links|
      ensures LinkGeo(source, st.links[i], marks[i], st'.regs, st.deferred, Lo(st.frames), hi)
    {
      assert LinkGeo(source, st.links[i], marks[i], st.regs, st.deferred, Lo(st.frames), hi);
    }
  }

  /** Attaching a node without a span leaves the layout alone. */
  lemma LayoutAttach(source: string, st: State, node: AstNode, marks: seq<Mark>, hi: nat)
    requires Layout(source, st, marks, hi)
    ensures Layout(source, Attach(st, node), marks, hi)
  {
    AttachOutline(st.frames, node);
    OutlineRegs(source, st.frames, AttachIn(st.frames, node), st.regs);
    AttachIs(st, node);
    hide RegsGeo, Get;
    var st' := Attach(st, node);
    assert Lo(st'.frames) == Lo(st.frames);
    assert st.frames != [] ==> Top(st'.frames).split == Top(st.frames).split;
  }

  // ----- runs

  lemma NoTextNoRuns(source: string, st: State)
    requires Counted(source, st) && st.inlines == []
    ensures st.runs.runs == []
  {
  }

  /** The extent of pending runs is a real range that holds them all. */
  lemma ExtentHolds(source: string, runs: seq<InlineRun>, regs: seq<Reg>, lo: nat, hi: nat)
    requires RunsGeo(source, runs, regs, lo, hi) && runs != []
    ensures RunExtent(runs).Some?
    ensures var span := RunExtent(runs).value;
            TruthfulSpan(source, span) && RunsWithin(source, runs, span) && lo <= span.start && span.end <= hi
            && Bounded(regs, span.start)
  {
    var last := |runs| - 1;
    GetLength(source, runs[0].source);
    GetLength(source, runs[last].source);
    if last > 0 { RunsApart(runs, 0, last); }
    GetExists(source, RunExtent(runs).value);
    hide Get;
    forall k | 0 <= k < |runs| ensures Contains(RunExtent(runs).value, runs[k].source) {
      if 0 < k { RunsApart(runs, 0, k); }
      if k < last { RunsApart(runs, k, last); }
    }
  }

  lemma RunsAreWithin(source: string, runs: seq<InlineRun>, regs: seq<Reg>, span: Range, hi: nat)
    requires RunsGeo(source, runs, regs, span.start, hi) && hi <= span.end
    ensures RunsWithin(source, runs, span)
  {
  }

  /** The state in which a flush finds nothing of its own in the way. */
  ghost predicate Flushable(st: State, marks: seq<Mark>) {
    && st.code == None && st.deferred == []
    && (st.frames != [] ==> Top(st.frames).kind.HoldsChildren() || Top(st.frames).split)
    && |st.links| == |marks| && (marks != [] ==> marks[0].holds)
    && (forall i :: 0 <= i < |marks| ==> !marks[i].image)
  }

  lemma ResetLayout(source: string, st: State, marks: seq<Mark>, hi: nat)
    requires Layout(source, st, marks, hi)
    ensures Layout(source, ResetInlines(st), marks, hi)
  {
    hide RegsGeo, Get, LinkGeo, DeferredReg;
  }

  /** Frames, links and deferred images survive a flush; what was registered and pending before
      `x` is registered before `x`. */
  lemma LayoutFlush(source: string, st: State, marks: seq<Mark>, hi: nat, x: nat)
    requires TreeInv(st) && Counted(source, st) && Layout(source, st, marks, hi) && Flushable(st, marks)
    requires Bounded(st.regs, x) && forall k :: 0 <= k < |st.runs.runs| ==> st.runs.runs[k].source.end <= x
    ensures Layout(source, FlushPending(st), marks, hi) && Bounded(FlushPending(st).regs, x)
    ensures FlushPending(st).inlines == [] && FlushPending(st).runs == NO_RUNS
    ensures var st' := FlushPending(st);
            SameOutline(st.frames, st'.frames) && (st.frames != [] ==> Top(st'.frames).split == Top(st.frames).split)
            && st'.links == st.links && st'.deferred == st.deferred && st'.code == st.code
            && st'.inMetadata == st.inMetadata
  {
    hide Layout, Tree, Counted, Flushable, ProcessInlines, ContainerIndex, Bounded;
    var reset, node := ResetInlines(st), Paragraph(ProcessInlines(st.inlines));
    ResetLayout(source, st, marks, hi);
    if st.inlines == [] {
      assert FlushPending(st) == reset;
    } else {
      AttachOutline(st.frames, node);
      AttachIs(if RunExtent(st.runs.runs).Some? then PushBlock(reset, node, RunExtent(st.runs.runs), st.runs.runs) else reset, node);
      FlushedLayout(source, st, reset, node, marks, hi, x);
    }
  }

  lemma FlushedLayout(source: string, st: State, reset: State, node: AstNode, marks: seq<Mark>, hi: nat, x: nat)
    requires reset == ResetInlines(st) && TreeInv(reset) && Flushable(st, marks)
    requires Layout(source, st, marks, hi) && Layout(source, reset, marks, hi)
    requires Bounded(st.regs, x) && forall k :: 0 <= k < |st.runs.runs| ==> st.runs.runs[k].source.end <= x
    ensures var st' := PushBlock(reset, node, RunExtent(st.runs.runs), st.runs.runs);
            Layout(source, st', marks, hi) && Bounded(st'.regs, x)
  {
    var runs := st.runs.runs;
    if runs == [] {
      LayoutAttach(source, reset, node, marks, hi);
    } else {
      ExtentHolds(source, runs, st.regs, Lo(st.frames), hi);
      var span := RunExtent(runs).value;
      StartsBelow(source, st.frames, hi, span.start);
      LayoutPush(source, reset, node, span, runs, marks, hi);
    }
  }

  /** A byte at or after the innermost frame's start is at or after every open frame's. */
  lemma StartsBelow(source: string, frames: seq<Frame>, hi: nat, x: nat)
    requires FramesGeo(source, frames, hi) && Lo(frames) <= x
    ensures forall k :: 0 <= k < |frames| ==> frames[k].source.start <= x
  {
  }
}
