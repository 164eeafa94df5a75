/** For every well-nested stream, block paths are distinct and each leads to its node. */
module BlockPaths {
  import opened Text
  import opened Paths
  import opened Ast
  import opened Inlines
  import opened Spans
  import opened Events
  import opened Nesting
  import opened BuilderModel
  import opened BlockTree

  /** Whether a tag opens a frame of the builder, and of which kind. */
  predicate OpensFrame(tag: Tag) {
    tag.HeadingTag? || tag.ParagraphTag? || tag.BlockQuoteTag? || tag.ListTag? || tag.ItemTag?
  }

  predicate KindOf(tag: Tag, kind: FrameKind) {
    match tag
    case HeadingTag(level) => kind == HeadingFrame(level)
    case ParagraphTag => kind.ParagraphFrame?
    case BlockQuoteTag => kind.BlockquoteFrame?
    case ListTag(start) => kind.ListFrame? && kind.ordered == start.Some?
    case ItemTag => kind.ItemFrame?
    case _ => false
  }

  /** The builder's frames are the frame-opening tags still open. */
  ghost predicate FramesMatch(frames: seq<Frame>, stack: seq<Open>)
    decreases |stack|
  {
    if stack == [] then frames == []
    else if OpensFrame(Top(stack).tag) then
      frames != [] && KindOf(Top(stack).tag, Top(frames).kind) && Top(frames).source == Top(stack).source
      && FramesMatch(Init(frames), Init(stack))
    else FramesMatch(frames, Init(stack))
  }

  ghost predicate SameKinds(frames: seq<Frame>, frames': seq<Frame>) {
    && |frames'| == |frames|
    && forall i :: 0 <= i < |frames| ==>
         frames'[i].source == frames[i].source && forall tag :: KindOf(tag, frames[i].kind) ==> KindOf(tag, frames'[i].kind)
  }

  lemma {:induction false} SameKindsMatch(frames: seq<Frame>, frames': seq<Frame>, stack: seq<Open>)
    requires SameKinds(frames, frames') && FramesMatch(frames, stack)
    ensures FramesMatch(frames', stack)
    decreases |stack|
  {
    if stack != [] {
      if OpensFrame(Top(stack).tag) { SameKindsMatch(Init(frames), Init(frames'), Init(stack)); }
      else { SameKindsMatch(frames, frames', Init(stack)); }
    }
  }

  lemma AttachMatch(frames: seq<Frame>, node: AstNode, stack: seq<Open>)
    requires FramesMatch(frames, stack)
    ensures FramesMatch(AttachIn(frames, node), stack)
  {
    SameKindsMatch(frames, AttachIn(frames, node), stack);
  }

  ghost predicate Sound(st: State, stack: seq<Open>) {
    TreeInv(st) && FramesMatch(st.frames, stack)
  }

  lemma PushSound(st: State, node: AstNode, range: Option<Range>, runs: seq<InlineRun>, stack: seq<Open>)
    requires Sound(st, stack)
    ensures Sound(PushBlock(st, node, range, runs), stack)
  {
    PushTree(st, node, range, runs);
    AttachMatch(st.frames, node, stack);
    AttachIs(if range.Some? then PushBlock(st, node, range, runs) else st, node);
  }

  lemma FlushSound(st: State, stack: seq<Open>)
    requires Sound(st, stack)
    ensures Sound(FlushPending(st), stack)
  {
    if st.inlines != [] {
      PushSound(ResetInlines(st), Paragraph(ProcessInlines(st.inlines)), RunExtent(st.runs.runs), st.runs.runs, stack);
    }
  }

  lemma OpenSound(st: State, stack: seq<Open>, tag: Tag, range: Range, kind: FrameKind)
    requires Sound(st, stack) && OpensFrame(tag) && KindOf(tag, kind)
    requires kind.HoldsChildren() ==> kind.path == NextPath(st.frames, |st.root|) && kind.nodes == []
    ensures Sound(BuilderModel.Open(st, kind, range), stack + [Open(tag, range)])
  {
    var frame, stack' := Frame(kind, range, false), stack + [Open(tag, range)];
    OpenTree(st.frames, st.root, st.regs, frame);
    assert Init(st.frames + [frame]) == st.frames && Init(stack') == stack && Top(stack') == Open(tag, range);
  }

  lemma StartSound(st: State, stack: seq<Open>, tag: Tag, range: Range)
    requires Sound(st, stack)
    ensures Sound(OnStart(st, tag, range), stack + [Open(tag, range)])
  {
    var stack' := stack + [Open(tag, range)];
    assert Init(stack') == stack && Top(stack').tag == tag;
    match tag {
      case HeadingTag(level) => OpenSound(ResetInlines(st), stack, tag, range, HeadingFrame(level));
      case ParagraphTag => OpenSound(ResetInlines(st), stack, tag, range, ParagraphFrame);
      case BlockQuoteTag => OpenSound(st, stack, tag, range, BlockquoteFrame(NextPath(st.frames, |st.root|), []));
      case ListTag(start) =>
        FlushSound(st, stack);
        var st' := FlushPending(st);
        OpenSound(st', stack, tag, range, ListFrame(NextPath(st'.frames, |st'.root|), start.Some?, []));
      case ItemTag => OpenSound(st, stack, tag, range, ItemFrame(NextPath(st.frames, |st.root|), [], None));
      case _ =>
    }
  }

  lemma {:induction false} DrainSound(st: State, waiting: seq<Deferred>, stack: seq<Open>)
    requires Sound(st, stack)
    ensures Sound(DrainFrom(st, waiting), stack)
    decreases |waiting|
  {
    if waiting != [] {
      PushSound(st, waiting[0].node, Some(waiting[0].source), waiting[0].runs, stack);
      DrainSound(PushBlock(st, waiting[0].node, Some(waiting[0].source), waiting[0].runs), waiting[1..], stack);
    }
  }

  lemma PopSound(st: State, stack: seq<Open>)
    requires Sound(st, stack) && stack != [] && (Top(stack).tag.HeadingTag? || Top(stack).tag.ParagraphTag?)
    ensures st.frames != [] && KindOf(Top(stack).tag, Top(st.frames).kind) && Sound(PopFrame(st), Init(stack))
    ensures Sound(ResetInlines(PopFrame(st)), Init(stack))
  {
    PopLeafTree(st.frames, st.root, st.regs);
  }

  lemma CloseHeadingSound(st: State, stack: seq<Open>)
    requires Sound(st, stack) && stack != [] && Top(stack).tag.HeadingTag?
    ensures Sound(CloseHeading(st), Init(stack))
  {
    PopSound(st, stack);
    var frame, reset := Top(st.frames), ResetInlines(PopFrame(st));
    var node := Heading(frame.kind.level, ProcessInlines(st.inlines));
    var pushed := PushBlock(reset, node, SplitAdjusted(frame, st.runs.runs), st.runs.runs);
    PushSound(reset, node, SplitAdjusted(frame, st.runs.runs), st.runs.runs, Init(stack));
    DrainSound(pushed.(deferred := []), pushed.deferred, Init(stack));
  }

  lemma CloseParagraphSound(st: State, stack: seq<Open>)
    requires Sound(st, stack) && stack != [] && Top(stack).tag.ParagraphTag?
    ensures Sound(CloseParagraph(st), Init(stack))
  {
    PopSound(st, stack);
    if st.inlines != [] {
      var frame := Top(st.frames);
      PushSound(ResetInlines(PopFrame(st)), Paragraph(ProcessInlines(st.inlines)),
                SplitAdjusted(frame, st.runs.runs), st.runs.runs, Init(stack));
    }
  }

  lemma CloseContainerSound(st: State, stack: seq<Open>)
    requires Sound(st, stack) && stack != [] && (Top(stack).tag.BlockQuoteTag? || Top(stack).tag.ListTag? || Top(stack).tag.ItemTag?)
    ensures Sound(CloseContainer(st, EndOf(Top(stack).tag)), Init(stack))
  {
    TopContainer(st.frames, stack);
    var frame := Top(st.frames);
    var added := Reg(frame.kind.path, frame.source, [], NodeOf(frame.kind));
    ContainerCloses(st, EndOf(Top(stack).tag), added);
    hide Tree, FramesMatch, CloseContainer, NodeOf;
    CloseTree(st.frames, st.root, st.regs, added);
    AttachMatch(Init(st.frames), added.node, Init(stack));
  }

  lemma TopContainer(frames: seq<Frame>, stack: seq<Open>)
    requires FramesMatch(frames, stack) && stack != []
    requires Top(stack).tag.BlockQuoteTag? || Top(stack).tag.ListTag? || Top(stack).tag.ItemTag?
    ensures frames != [] && Top(frames).kind.HoldsChildren() && ClosesFrame(EndOf(Top(stack).tag), Top(frames).kind)
    ensures FramesMatch(Init(frames), Init(stack))
  {
  }

  lemma ContainerCloses(st: State, end: TagEnd, added: Reg)
    requires st.frames != [] && Top(st.frames).kind.HoldsChildren() && ClosesFrame(end, Top(st.frames).kind)
    requires added == Reg(Top(st.frames).kind.path, Top(st.frames).source, [], NodeOf(Top(st.frames).kind))
    ensures var st' := CloseContainer(st, end);
            st'.frames == AttachIn(Init(st.frames), added.node) && st'.root == RootAfter(Init(st.frames), st.root, added.node)
            && st'.regs == st.regs + [added]
  {
    hide AttachIn, RootAfter, NodeOf, Attach, ContainerIndex;
    AttachIs(PopFrame(st).(regs := st.regs + [added]), added.node);
  }

  lemma SplitSound(st: State, stack: seq<Open>)
    requires Sound(st, stack)
    ensures Sound(st.(frames := MarkSplit(st.frames)), stack)
  {
    SameTree(st.frames, MarkSplit(st.frames), st.root, st.regs);
    SameKindsMatch(st.frames, MarkSplit(st.frames), stack);
  }

  lemma CloseImageSound(st: State, stack: seq<Open>)
    requires Sound(st, stack)
    ensures Sound(CloseImage(st), stack)
  {
    if st.links != [] {
      var frame := st.links[|st.links| - 1];
      var marked := PopLink(st).(frames := MarkSplit(st.frames));
      SplitSound(PopLink(st), stack);
      FlushSound(marked, stack);
      if frame.kind.ImageOf? && !InHeading(st.frames) {
        var altText := AltText(frame.content);
        PushSound(FlushPending(marked), Image(altText, frame.kind.url), Some(frame.source),
                  NO_RUNS.Push(|altText|, frame.source, false).runs, stack);
      }
    }
  }

  lemma EndSound(st: State, stack: seq<Open>)
    requires Sound(st, stack) && stack != []
    ensures Sound(OnEnd(st, EndOf(Top(stack).tag)), Init(stack))
  {
    if !OpensFrame(Top(stack).tag) { Unframed(st, stack); }
    FramedEnds(st, Top(stack).tag);
    OtherEnds(st, Top(stack).tag);
    hide *;
    match Top(stack).tag {
      case HeadingTag(_) => CloseHeadingSound(st, stack);
      case ParagraphTag => CloseParagraphSound(st, stack);
      case BlockQuoteTag => CloseContainerSound(st, stack);
      case ListTag(_) => CloseContainerSound(st, stack);
      case ItemTag =>
        FlushSound(st, stack);
        CloseContainerSound(FlushPending(st), stack);
      case ImageTag(_) => CloseImageSound(st, Init(stack));
      case FencedTag(_) => CloseCodeSound(st, Init(stack));
      case IndentedTag => CloseCodeSound(st, Init(stack));
      case LinkTag(_) =>
        LinkLeavesTree(st);
        UntouchedSound(st, CloseLink(st), Init(stack));
      case _ => UntouchedSound(st, OnEnd(st, EndOf(Top(stack).tag)), Init(stack));
    }
  }

  /** What the end of a frame's tag does. */
  lemma FramedEnds(st: State, tag: Tag)
    ensures tag.HeadingTag? ==> OnEnd(st, EndOf(tag)) == CloseHeading(st)
    ensures tag.ParagraphTag? ==> OnEnd(st, EndOf(tag)) == CloseParagraph(st)
    ensures tag.BlockQuoteTag? || tag.ListTag? ==> OnEnd(st, EndOf(tag)) == CloseContainer(st, EndOf(tag))
    ensures tag.ItemTag? ==> OnEnd(st, EndOf(tag)) == CloseContainer(FlushPending(st), EndOf(tag))
    ensures OpensFrame(tag) <==> tag.HeadingTag? || tag.ParagraphTag? || tag.BlockQuoteTag? || tag.ListTag? || tag.ItemTag?
  {
    hide CloseHeading, CloseParagraph, CloseContainer, CloseCode, CloseImage, CloseLink, FlushPending;
  }

  /** And of any other. */
  lemma OtherEnds(st: State, tag: Tag)
    ensures tag.ImageTag? ==> OnEnd(st, EndOf(tag)) == CloseImage(st)
    ensures tag.FencedTag? || tag.IndentedTag? ==> OnEnd(st, EndOf(tag)) == CloseCode(st)
    ensures tag.LinkTag? ==> OnEnd(st, EndOf(tag)) == CloseLink(st)
    ensures !OpensFrame(tag) && !tag.ImageTag? && !tag.FencedTag? && !tag.IndentedTag? && !tag.LinkTag? ==>
              var st' := OnEnd(st, EndOf(tag)); st'.frames == st.frames && st'.root == st.root && st'.regs == st.regs
  {
    hide CloseHeading, CloseParagraph, CloseContainer, CloseCode, CloseImage, CloseLink, FlushPending;
  }

  lemma Unframed(st: State, stack: seq<Open>)
    requires Sound(st, stack) && stack != [] && !OpensFrame(Top(stack).tag)
    ensures Sound(st, Init(stack))
  {
    hide TreeInv;
  }

  lemma LinkLeavesTree(st: State)
    ensures var st' := CloseLink(st); st'.frames == st.frames && st'.root == st.root && st'.regs == st.regs
  {
    hide ProcessInlines, LinkElement;
  }

  lemma CloseCodeSound(st: State, stack: seq<Open>)
    requires Sound(st, stack)
    ensures Sound(CloseCode(st), stack)
  {
    if st.code.Some? {
      var accum := st.code.value;
      PushSound(st.(code := None), CodeBlock(accum.language, accum.code), Some(accum.source), accum.runs.runs, stack);
    }
  }

  /** Steps that touch neither the tree, nor the frames, nor the registrations. */
  lemma UntouchedSound(st: State, st': State, stack: seq<Open>)
    requires Sound(st, stack) && st'.frames == st.frames && st'.root == st.root && st'.regs == st.regs
    ensures Sound(st', stack)
  {
  }

  lemma TaskSound(st: State, checked: bool, stack: seq<Open>)
    requires Sound(st, stack)
    ensures Sound(OnTask(st, checked), stack)
  {
    SameTree(st.frames, OnTask(st, checked).frames, st.root, st.regs);
    SameKindsMatch(st.frames, OnTask(st, checked).frames, stack);
  }

  lemma HandleSound(source: string, st: State, n: Nest, e: Event)
    requires Sound(st, n.stack) && Allows(source, n, e)
    ensures Sound(Handle(source, st, e), Advance(n, e).stack)
  {
    hide TreeInv, FramesMatch, OnStart, OnEnd, PushBlock, OnTask;
    match e {
      case StartEvent(tag, range) => StartSound(st, n.stack, tag, range);
      case EndEvent(_, _) => EndSound(st, n.stack);
      case RuleEvent(range) => PushSound(st, ThematicBreak, Some(range), [], n.stack);
      case TaskEvent(checked, _) => TaskSound(st, checked, n.stack);
      case _ => UntouchedSound(st, Handle(source, st, e), n.stack);
    }
  }

  lemma {:induction false} StreamSound(source: string, st: State, n: Nest, events: seq<Event>)
    requires Sound(st, n.stack) && WellNested(source, n, events)
    ensures Sound(HandleAll(source, st, events), [])
    decreases |events|
  {
    if events != [] {
      HandleSound(source, st, n, events[0]);
      StreamSound(source, Handle(source, st, events[0]), Advance(n, events[0]), events[1..]);
    }
  }

  /** For every well-nested stream: registered paths are distinct, each leads through the finished
      AST to exactly the node it was registered for, and parents are registered. */
  lemma EveryPathLeadsToItsNode(source: string, events: seq<Event>)
    requires WellNested(source, START, events)
    ensures var st := HandleAll(source, INITIAL, events);
            (forall i :: 0 <= i < |st.regs| ==> Walk(st.root, st.regs[i].path) == Some(st.regs[i].node))
            && (forall i, j :: 0 <= i < j < |st.regs| ==> st.regs[i].path != st.regs[j].path)
            && (forall i :: 0 <= i < |st.regs| && |st.regs[i].path| >= 2 ==> HasReg(st.regs, Parent(st.regs[i].path)))
  {
    StreamSound(source, INITIAL, START, events);
    var st := HandleAll(source, INITIAL, events);
    hide HandleAll;
    assert st.frames == [];
    forall i | 0 <= i < |st.regs| ensures Walk(st.root, st.regs[i].path) == Some(st.regs[i].node) {
      assert Located(st.frames, st.root, st.regs[i].path, st.regs[i].node);
    }
  }
}
