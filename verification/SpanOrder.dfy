/** Where registered spans lie while a clean stream is being consumed. */
module SpanOrder {
  import opened Text
  import opened Paths
  import opened Ast
  import opened Inlines
  import opened Spans
  import opened Events
  import opened Nesting
  import opened CleanStreams
  import opened BuilderModel
  import opened RunCounts
  import opened BlockTree
  import opened BlockPaths

  // ----- registrations

  /** Everything registered so far ends by byte `x`. */
  ghost predicate Bounded(regs: seq<Reg>, x: nat) {
    forall i :: 0 <= i < |regs| ==> regs[i].source.end <= x
  }

  /** A registration lies inside an open container, or ended before it opened. */
  ghost predicate Around(frame: Frame, reg: Reg) {
    frame.kind.HoldsChildren() ==>
      if frame.kind.path <= reg.path then frame.source.start <= reg.source.start
      else reg.source.end <= frame.source.start
  }

  ghost predicate InOrder(a: Reg, b: Reg) {
    && (a.path <= b.path ==> Contains(a.source, b.source))
    && (Before(a.path, b.path) ==> a.source.end <= b.source.start)
  }

  /** Runs in source order inside a span. */
  ghost predicate RunsWithin(source: string, runs: seq<InlineRun>, span: Range) {
    && Ascending(runs)
    && forall k :: 0 <= k < |runs| ==> Contains(span, runs[k].source) && Get(source, runs[k].source).Some?
  }

  ghost predicate TruthfulReg(source: string, reg: Reg) {
    TruthfulSpan(source, reg.source) && RunsWithin(source, reg.runs, reg.source)
  }

  ghost predicate RegsGeo(source: string, frames: seq<Frame>, regs: seq<Reg>) {
    && (forall k, i :: 0 <= k < |frames| && 0 <= i < |regs| ==> Around(frames[k], regs[i]))
    && (forall i, j :: 0 <= i < |regs| && 0 <= j < |regs| ==> InOrder(regs[i], regs[j]))
    && (forall i :: 0 <= i < |regs| ==> TruthfulReg(source, regs[i]))
  }

  /** Open frames are real ranges, each starting no earlier than the one around it. */
  ghost predicate FramesGeo(source: string, frames: seq<Frame>, cursor: nat) {
    && (forall k :: 0 <= k < |frames| ==> TruthfulSpan(source, frames[k].source) && frames[k].source.start <= cursor)
    && (forall j, k :: 0 <= j < k < |frames| ==> frames[j].source.start <= frames[k].source.start)
  }

  function Lo(frames: seq<Frame>): nat {
    if frames == [] then 0 else Top(frames).source.start
  }

  ghost predicate SameOutline(frames: seq<Frame>, frames': seq<Frame>) {
    && |frames'| == |frames|
    && forall k :: 0 <= k < |frames| ==>
         frames'[k].source == frames[k].source && frames'[k].kind.HoldsChildren() == frames[k].kind.HoldsChildren()
         && frames'[k].kind.HeadingFrame? == frames[k].kind.HeadingFrame?
         && (frames[k].kind.HoldsChildren() ==> frames'[k].kind.path == frames[k].kind.path)
  }

  lemma OutlineRegs(source: string, frames: seq<Frame>, frames': seq<Frame>, regs: seq<Reg>)
    requires SameOutline(frames, frames') && RegsGeo(source, frames, regs)
    ensures RegsGeo(source, frames', regs)
  {
    forall k, i | 0 <= k < |frames'| && 0 <= i < |regs| ensures Around(frames'[k], regs[i]) {
      assert Around(frames[k], regs[i]);
    }
  }

  lemma AttachOutline(frames: seq<Frame>, node: AstNode)
    ensures SameOutline(frames, AttachIn(frames, node))
  {
  }

  /** Every open container's path starts the path of the next block. */
  lemma {:induction false} OpenStartsNext(frames: seq<Frame>, rootLen: nat, k: nat)
    requires FramesOk(frames, rootLen) && k < |frames| && frames[k].kind.HoldsChildren()
    ensures frames[k].kind.path <= NextPath(frames, rootLen)
    decreases |frames|
  {
    NextPathIn(frames, rootLen);
    if k < |frames| - 1 {
      OpenStartsNext(Init(frames), rootLen, k);
      var p, q := frames[k].kind.path, NextPath(Init(frames), rootLen);
      if Top(frames).kind.HoldsChildren() { assert p <= q + [|Top(frames).kind.nodes|]; }
    }
  }

  /** A new block that starts after everything registered keeps the registrations in order. */
  lemma PushRegsGeo(source: string, frames: seq<Frame>, root: seq<AstNode>, regs: seq<Reg>, reg: Reg)
    requires Tree(frames, root, regs) && RegsGeo(source, frames, regs) && TruthfulReg(source, reg)
    requires reg.path == NextPath(frames, |root|) && Bounded(regs, reg.source.start)
    requires forall k :: 0 <= k < |frames| ==> frames[k].source.start <= reg.source.start
    ensures RegsGeo(source, frames, regs + [reg]) && Bounded(regs + [reg], reg.source.end)
  {
    var regs' := regs + [reg];
    forall k, i | 0 <= k < |frames| && 0 <= i < |regs'| ensures Around(frames[k], regs'[i]) {
      if i < |regs| { assert Around(frames[k], regs[i]); }
      else if frames[k].kind.HoldsChildren() { OpenStartsNext(frames, |root|, k); }
    }
    Trichotomy(reg.path, reg.path);
    forall i | 0 <= i < |regs| ensures InOrder(regs[i], reg) && InOrder(reg, regs[i]) {
      LocatedBefore(frames, root, regs[i].path, regs[i].node);
      Trichotomy(regs[i].path, reg.path);
      Trichotomy(reg.path, regs[i].path);
    }
    forall i, j | 0 <= i < |regs'| && 0 <= j < |regs'| ensures InOrder(regs'[i], regs'[j]) {
      if i < |regs| && j < |regs| { assert InOrder(regs[i], regs[j]); }
    }
  }

  /** So does a container closing around what was registered inside it. */
  lemma CloseRegsGeo(source: string, frames: seq<Frame>, root: seq<AstNode>, regs: seq<Reg>, reg: Reg)
    requires frames != [] && Top(frames).kind.HoldsChildren()
    requires Tree(frames, root, regs) && RegsGeo(source, frames, regs) && TruthfulReg(source, reg)
    requires reg.path == Top(frames).kind.path && reg.source == Top(frames).source && Bounded(regs, reg.source.end)
    requires forall k :: 0 <= k < |frames| ==> frames[k].source.start <= reg.source.start
    ensures RegsGeo(source, Init(frames), regs + [reg]) && Bounded(regs + [reg], reg.source.end)
  {
    var outer, regs' := Init(frames), regs + [reg];
    forall k, i | 0 <= k < |outer| && 0 <= i < |regs'| ensures Around(outer[k], regs'[i]) {
      assert outer[k] == frames[k];
      if i < |regs| { assert Around(frames[k], regs[i]); }
      else if outer[k].kind.HoldsChildren() { OpenStartsNext(outer, |root|, k); }
    }
    Trichotomy(reg.path, reg.path);
    forall i | 0 <= i < |regs| ensures InOrder(regs[i], reg) && InOrder(reg, regs[i]) {
      assert Around(Top(frames), regs[i]);
      CloseInOrder(frames, root, regs[i]);
      Trichotomy(regs[i].path, reg.path);
      Trichotomy(reg.path, regs[i].path);
    }
    forall i, j | 0 <= i < |regs'| && 0 <= j < |regs'| ensures InOrder(regs'[i], regs'[j]) {
      if i < |regs| && j < |regs| { assert InOrder(regs[i], regs[j]); }
    }
  }

  /** What is registered under a closing container has a longer path; the rest comes before it. */
  lemma CloseInOrder(frames: seq<Frame>, root: seq<AstNode>, reg: Reg)
    requires frames != [] && Top(frames).kind.HoldsChildren() && FramesOk(frames, |root|)
    requires Located(frames, root, reg.path, reg.node)
    ensures var p := Top(frames).kind.path;
            if p <= reg.path then p != reg.path else Before(reg.path, p)
  {
    if !(Top(frames).kind.path <= reg.path) {
      LocatedBefore(Init(frames), root, reg.path, reg.node);
    }
  }

  /** A container that opens after everything registered has nothing inside it yet. */
  lemma OpenRegsGeo(source: string, frames: seq<Frame>, root: seq<AstNode>, regs: seq<Reg>, frame: Frame)
    requires Tree(frames, root, regs) && RegsGeo(source, frames, regs) && Bounded(regs, frame.source.start)
    requires frame.kind.HoldsChildren() ==> frame.kind.path == NextPath(frames, |root|)
    ensures RegsGeo(source, frames + [frame], regs)
  {
    forall i | 0 <= i < |regs| ensures Around(frame, regs[i]) {
      LocatedBefore(frames, root, regs[i].path, regs[i].node);
      Trichotomy(regs[i].path, NextPath(frames, |root|));
    }
    forall k, i | 0 <= k < |frames + [frame]| && 0 <= i < |regs| ensures Around((frames + [frame])[k], regs[i]) {
      if k < |frames| { assert Around(frames[k], regs[i]); }
    }
  }

  lemma PopRegsGeo(source: string, frames: seq<Frame>, regs: seq<Reg>)
    requires frames != [] && RegsGeo(source, frames, regs)
    ensures RegsGeo(source, Init(frames), regs)
  {
    forall k, i | 0 <= k < |Init(frames)| && 0 <= i < |regs| ensures Around(Init(frames)[k], regs[i]) {
      assert Around(frames[k], regs[i]);
    }
  }

  // ----- what is pending

  /** Pending runs are real ranges in source order between the innermost frame's start and `hi`. */
  ghost predicate RunsGeo(source: string, runs: seq<InlineRun>, regs: seq<Reg>, lo: nat, hi: nat) {
    && Ascending(runs)
    && (forall k :: 0 <= k < |runs| ==> TruthfulSpan(source, runs[k].source) && lo <= runs[k].source.start && runs[k].source.end <= hi)
    && (runs != [] ==> Bounded(regs, runs[0].source.start))
  }

  /** An unsplit leaf will register its whole tag. */
  ghost predicate LeafGeo(frames: seq<Frame>, regs: seq<Reg>) {
    frames != [] && !Top(frames).kind.HoldsChildren() && !Top(frames).split ==> Bounded(regs, Lo(frames))
  }

  ghost predicate CodeGeo(source: string, code: Option<CodeAccum>, regs: seq<Reg>, lo: nat, hi: nat) {
    code.Some? ==>
      TruthfulSpan(source, code.value.source) && lo <= code.value.source.start <= hi
      && RunsGeo(source, code.value.runs.runs, [], code.value.source.start, hi)
      && Bounded(regs, code.value.source.start)
  }

  ghost predicate LinkGeo(source: string, link: LinkFrame, mark: Mark, regs: seq<Reg>, deferred: seq<Deferred>, lo: nat, hi: nat) {
    && link.kind.ImageOf? == mark.image && (link.renderedChars > 0 ==> mark.text)
    && TruthfulSpan(source, link.source) && lo <= link.source.start <= hi
    && (mark.image ==> Bounded(regs, link.source.start) && forall d :: 0 <= d < |deferred| ==> deferred[d].source.end <= link.source.start)
  }

  /** The outermost link holds the pending runs off, and if it still may render, everything
      registered too. */
  ghost predicate LinksGeo(source: string, links: seq<LinkFrame>, marks: seq<Mark>, regs: seq<Reg>,
                           deferred: seq<Deferred>, runs: seq<InlineRun>, lo: nat, hi: nat) {
    && |links| == |marks|
    && (forall i :: 0 <= i < |links| ==> LinkGeo(source, links[i], marks[i], regs, deferred, lo, hi) && links[0].source.start <= links[i].source.start)
    && (links != [] ==> forall k :: 0 <= k < |runs| ==> runs[k].source.end <= links[0].source.start)
    && (links != [] && !marks[0].holds ==> Bounded(regs, links[0].source.start))
  }

  ghost predicate DeferredReg(source: string, d: Deferred, lo: nat, hi: nat) {
    TruthfulSpan(source, d.source) && RunsWithin(source, d.runs, d.source) && lo <= d.source.start && d.source.end <= hi
  }

  /** Hoisted images wait in source order, after everything registered and pending. */
  ghost predicate DeferredGeo(source: string, deferred: seq<Deferred>, regs: seq<Reg>, runs: seq<InlineRun>, lo: nat, hi: nat) {
    && (forall d :: 0 <= d < |deferred| ==> DeferredReg(source, deferred[d], lo, hi))
    && (forall d :: 0 < d < |deferred| ==> deferred[d - 1].source.end <= deferred[d].source.start)
    && (deferred != [] ==>
          (Bounded(regs, deferred[0].source.start)
           && forall k :: 0 <= k < |runs| ==> runs[k].source.end <= deferred[0].source.start))
  }

  // ----- the whole invariant

  ghost predicate NestGeo(source: string, n: Nest) {
    && (forall i :: 0 <= i < |n.stack| ==>
          TruthfulSpan(source, n.stack[i].source) && n.stack[i].source.start <= n.cursor <= n.stack[i].source.end)
    && (forall i, j :: 0 <= i < j < |n.stack| ==> n.stack[j].source.end <= n.stack[i].source.end)
  }

  /** The open links are the link and image tags still open. */
  ghost predicate LinksMatch(links: seq<LinkFrame>, stack: seq<Open>)
    decreases |stack|
  {
    if stack == [] then links == []
    else
      var tag := Top(stack).tag;
      if IsLinkTag(tag) then
        links != [] && Top(links).source == Top(stack).source && Top(links).kind.ImageOf? == tag.ImageTag?
        && LinksMatch(Init(links), Init(stack))
      else LinksMatch(links, Init(stack))
  }

  /** The builder's flags say what the open tags say. */
  ghost predicate Consistent(st: State, c: Care) {
    var stack := c.nest.stack;
    && (forall k :: 0 <= k < |st.frames| - 1 ==> st.frames[k].kind.HoldsChildren())
    && (InLeaf(stack) <==> st.frames != [] && !Top(st.frames).kind.HoldsChildren())
    && (UnderHeading(stack) <==> InHeading(st.frames))
    && (st.code.Some? <==> InCode(stack))
    && (st.code.Some? ==> st.code.value.source == Top(stack).source && !InLeaf(stack) && !c.pending)
    && (st.inMetadata <==> InMetadata(stack))
    && (Verbatim(stack) ==> st.links == [])
    && (forall i :: 0 <= i < |stack| - 1 ==> !IsCodeTag(stack[i].tag) && !stack[i].tag.MetadataTag?)
    && (!c.pending && !InLeaf(stack) ==> st.inlines == [])
    && (c.pictured ==> UnderHeading(stack))
    && (UnderHeading(stack) ==> (c.pictured <==> Top(st.frames).split))
    && (st.deferred != [] ==> c.pictured)
    && LinksMatch(st.links, stack)
    && (forall i, j :: 0 <= i < j < |stack| && IsLinkTag(stack[i].tag) ==> !IsBlockTag(stack[j].tag))
    && (forall i, j :: 0 <= i < j < |c.marks| ==> !(c.marks[i].image && c.marks[j].image))
  }

  predicate IsLinkTag(tag: Tag) {
    tag.LinkTag? || tag.ImageTag?
  }

  lemma {:induction false} NoLinksNoTags(stack: seq<Open>)
    requires LinksMatch([], stack)
    ensures forall i :: 0 <= i < |stack| ==> !IsLinkTag(stack[i].tag)
    decreases |stack|
  {
    if stack != [] {
      NoLinksNoTags(Init(stack));
      forall i | 0 <= i < |stack| ensures !IsLinkTag(stack[i].tag) {
        if i < |stack| - 1 { assert stack[i] == Init(stack)[i]; }
      }
    }
  }

  lemma {:induction false} NoTagsNoLinks(links: seq<LinkFrame>, stack: seq<Open>)
    requires LinksMatch(links, stack) && forall i :: 0 <= i < |stack| ==> !IsLinkTag(stack[i].tag)
    ensures links == []
    decreases |stack|
  {
    if stack != [] {
      assert !IsLinkTag(Top(stack).tag);
      NoTagsNoLinks(links, Init(stack));
    }
  }

  /** Under a block tag no link is open. */
  lemma BlockOnTopNoLinks(st: State, c: Care)
    requires Consistent(st, c) && c.nest.stack != [] && IsBlockTag(Top(c.nest.stack).tag)
    ensures st.links == []
  {
    NoTagsNoLinks(st.links, c.nest.stack);
  }

  /** Where everything lies when the stream has been consumed up to `hi`. */
  ghost predicate Layout(source: string, st: State, marks: seq<Mark>, hi: nat) {
    var lo := Lo(st.frames);
    && FramesGeo(source, st.frames, hi)
    && RegsGeo(source, st.frames, st.regs)
    && Bounded(st.regs, hi)
    && RunsGeo(source, st.runs.runs, st.regs, lo, hi)
    && LeafGeo(st.frames, st.regs)
    && CodeGeo(source, st.code, st.regs, lo, hi)
    && LinksGeo(source, st.links, marks, st.regs, st.deferred, st.runs.runs, lo, hi)
    && DeferredGeo(source, st.deferred, st.regs, st.runs.runs, lo, hi)
  }

  ghost predicate Geo(source: string, st: State, c: Care) {
    && Counted(source, st)
    && Sound(st, c.nest.stack)
    && NestGeo(source, c.nest)
    && Consistent(st, c)
    && Layout(source, st, c.marks, c.nest.cursor)
  }

  lemma LayoutGrows(source: string, st: State, marks: seq<Mark>, hi: nat, hi': nat)
    requires Layout(source, st, marks, hi) && hi <= hi'
    ensures Layout(source, st, marks, hi')
  {
    hide Get, RegsGeo, LinksGeo, DeferredGeo;
    LinksGrow(source, st, marks, hi, hi');
    DeferredGrows(source, st, hi, hi');
  }

  lemma LinksGrow(source: string, st: State, marks: seq<Mark>, hi: nat, hi': nat)
    requires LinksGeo(source, st.links, marks, st.regs, st.deferred, st.runs.runs, Lo(st.frames), hi) && hi <= hi'
    ensures LinksGeo(source, st.links, marks, st.regs, st.deferred, st.runs.runs, Lo(st.frames), hi')
  {
    hide Get;
    forall i | 0 <= i < |st.links|
      ensures LinkGeo(source, st.links[i], marks[i], st.regs, st.deferred, Lo(st.frames), hi')
    {
      assert LinkGeo(source, st.links[i], marks[i], st.regs, st.deferred, Lo(st.frames), hi);
    }
  }

  lemma DeferredGrows(source: string, st: State, hi: nat, hi': nat)
    requires DeferredGeo(source, st.deferred, st.regs, st.runs.runs, Lo(st.frames), hi) && hi <= hi'
    ensures DeferredGeo(source, st.deferred, st.regs, st.runs.runs, Lo(st.frames), hi')
  {
    hide Get;
    forall d | 0 <= d < |st.deferred| ensures DeferredReg(source, st.deferred[d], Lo(st.frames), hi') {
      assert DeferredReg(source, st.deferred[d], Lo(st.frames), hi);
    }
  }

  lemma NestAdvances(source: string, n: Nest, e: Event)
    requires NestGeo(source, n) && Allows(source, n, e)
    ensures NestGeo(source, Advance(n, e)) && n.cursor <= Advance(n, e).cursor
  {
    hide Get;
    if e.StartEvent? || e.EndEvent? {
      var n' := Advance(n, e);
      forall i | 0 <= i < |n'.stack|
        ensures TruthfulSpan(source, n'.stack[i].source) && n'.stack[i].source.start <= n'.cursor <= n'.stack[i].source.end
      {
        if i < |n.stack| { assert n'.stack[i] == n.stack[i] && TruthfulSpan(source, n.stack[i].source); }
      }
    }
  }
}
