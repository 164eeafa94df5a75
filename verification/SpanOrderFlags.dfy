/** The builder's frames, code block, links and pending text agree with the open tags after every
    event of a clean stream. */
module SpanOrderFlags {
  import opened Text
  import opened Ast
  import opened Inlines
  import opened Spans
  import opened Events
  import opened Nesting
  import opened CleanStreams
  import opened BuilderModel
  import opened RunCounts
  import opened BlockTree
  import opened BlockPaths
  import opened SpanOrder
  import opened SpanOrderPush
  import opened SpanOrderSteps

  // ----- the invariant in three parts

  ghost predicate LeafOnTop(frames: seq<Frame>) {
    forall k :: 0 <= k < |frames| - 1 ==> frames[k].kind.HoldsChildren()
  }

  ghost predicate FrameFlags(frames: seq<Frame>, deferred: seq<Deferred>, stack: seq<Open>, pictured: bool) {
    && LeafOnTop(frames)
    && (InLeaf(stack) <==> frames != [] && !Top(frames).kind.HoldsChildren())
    && (UnderHeading(stack) <==> InHeading(frames))
    && (pictured ==> UnderHeading(stack))
    && (UnderHeading(stack) ==> (pictured <==> Top(frames).split))
    && (deferred != [] ==> pictured)
  }

  ghost predicate VerbatimFlags(st: State, stack: seq<Open>, pending: bool) {
    && (st.code.Some? <==> InCode(stack))
    && (st.code.Some? ==> st.code.value.source == Top(stack).source && !InLeaf(stack) && !pending)
    && (st.inMetadata <==> InMetadata(stack))
    && (Verbatim(stack) ==> st.links == [])
    && (forall i :: 0 <= i < |stack| - 1 ==> !IsCodeTag(stack[i].tag) && !stack[i].tag.MetadataTag?)
  }

  ghost predicate LinkFlags(links: seq<LinkFrame>, stack: seq<Open>, marks: seq<Mark>) {
    && LinksMatch(links, stack)
    && (forall i, j :: 0 <= i < j < |stack| && IsLinkTag(stack[i].tag) ==> !IsBlockTag(stack[j].tag))
    && (forall i, j :: 0 <= i < j < |marks| ==> !(marks[i].image && marks[j].image))
  }

  ghost predicate PendingFlag(st: State, stack: seq<Open>, pending: bool) {
    !pending && !InLeaf(stack) ==> st.inlines == []
  }

  lemma ConsistentParts(st: State, c: Care)
    ensures Consistent(st, c) <==>
            FrameFlags(st.frames, st.deferred, c.nest.stack, c.pictured) && VerbatimFlags(st, c.nest.stack, c.pending)
            && LinkFlags(st.links, c.nest.stack, c.marks) && PendingFlag(st, c.nest.stack, c.pending)
  {
    hide InLeaf, UnderHeading, LinksMatch, InHeading, Verbatim;
  }

  // ----- frames

  lemma {:induction false} NoLeafTags(frames: seq<Frame>, stack: seq<Open>)
    requires FramesMatch(frames, stack) && forall k :: 0 <= k < |frames| ==> frames[k].kind.HoldsChildren()
    ensures !InLeaf(stack) && !UnderHeading(stack)
    decreases |stack|
  {
    if stack != [] { NoLeafTags(if OpensFrame(Top(stack).tag) then Init(frames) else frames, Init(stack)); }
  }

  /** Since only the innermost frame may be a leaf, it says whether a leaf tag is open. */
  lemma {:induction false} LeafByFrames(frames: seq<Frame>, stack: seq<Open>)
    requires FramesMatch(frames, stack) && LeafOnTop(frames)
    ensures InLeaf(stack) <==> frames != [] && !Top(frames).kind.HoldsChildren()
    ensures UnderHeading(stack) <==> InHeading(frames)
    decreases |stack|
  {
    if stack != [] {
      if OpensFrame(Top(stack).tag) { NoLeafTags(Init(frames), Init(stack)); }
      else { LeafByFrames(frames, Init(stack)); }
    }
  }

  /** Frames that differ only in what they have collected. */
  ghost predicate SameFlags(frames: seq<Frame>, frames': seq<Frame>) {
    SameOutline(frames, frames') && (frames != [] ==> Top(frames').split == Top(frames).split)
  }

  /** A step that leaves the frames' outline, the code block, the links and the deferred images. */
  ghost predicate Steady(st: State, st': State) {
    && SameFlags(st.frames, st'.frames)
    && st'.links == st.links && st'.code == st.code && st'.inMetadata == st.inMetadata && st'.deferred == st.deferred
  }

  lemma PushSteady(st: State, node: AstNode, span: Option<Range>, runs: seq<InlineRun>)
    ensures Steady(st, PushBlock(st, node, span, runs)) && PushBlock(st, node, span, runs).inlines == st.inlines
  {
    AttachOutline(st.frames, node);
  }

  lemma FlushSteady(st: State)
    ensures Steady(st, FlushPending(st)) && FlushPending(st).inlines == []
  {
    hide PushBlock, ProcessInlines;
    if st.inlines != [] {
      PushSteady(ResetInlines(st), Paragraph(ProcessInlines(st.inlines)), RunExtent(st.runs.runs), st.runs.runs);
    }
  }

  lemma {:induction false} DrainSteady(st: State, waiting: seq<Deferred>)
    ensures Steady(st, DrainFrom(st, waiting)) && DrainFrom(st, waiting).inlines == st.inlines
    decreases |waiting|
  {
    hide PushBlock;
    if waiting != [] {
      PushSteady(st, waiting[0].node, Some(waiting[0].source), waiting[0].runs);
      DrainSteady(PushBlock(st, waiting[0].node, Some(waiting[0].source), waiting[0].runs), waiting[1..]);
    }
  }

  lemma SteadyFrames(frames: seq<Frame>, frames': seq<Frame>, deferred: seq<Deferred>, stack: seq<Open>, pictured: bool)
    requires SameFlags(frames, frames') && FrameFlags(frames, deferred, stack, pictured)
    ensures FrameFlags(frames', deferred, stack, pictured)
  {
    hide InLeaf, UnderHeading;
  }

  /** A steady step keeps the invariant, if it keeps pending text where it must. */
  lemma SteadyKeeps(st: State, st': State, c: Care, c': Care)
    requires Consistent(st, c) && Steady(st, st') && c' == c.(nest := c'.nest, pending := c'.pending)
    requires c'.nest.stack == c.nest.stack && (c'.pending ==> c.pending) && ((c'.pending == c.pending && st'.inlines == st.inlines) || st'.inlines == [])
    ensures Consistent(st', c')
  {
    hide InLeaf, UnderHeading, LinksMatch, Consistent, InCode, InMetadata, SameFlags, FrameFlags, LinkFlags;
    ConsistentParts(st, c);
    ConsistentParts(st', c');
    SteadyFrames(st.frames, st'.frames, st.deferred, c.nest.stack, c.pictured);
  }

  // ----- start tags

  /** One more open tag. */
  lemma StackGrows(stack: seq<Open>, open: Open)
    ensures var stack' := stack + [open];
            (InLeaf(stack') <==> IsLeafTag(open.tag) || InLeaf(stack))
            && (UnderHeading(stack') <==> open.tag.HeadingTag? || UnderHeading(stack))
            && (InCode(stack') <==> IsCodeTag(open.tag)) && (InMetadata(stack') <==> open.tag.MetadataTag?)
            && Top(stack') == open && Init(stack') == stack
  {
    var stack' := stack + [open];
    assert stack'[..|stack'| - 1] == stack;
  }

  lemma StartLinks(links: seq<LinkFrame>, links': seq<LinkFrame>, stack: seq<Open>, marks: seq<Mark>, marks': seq<Mark>, open: Open)
    requires LinkFlags(links, stack, marks) && |links| == |marks|
    requires IsBlockTag(open.tag) ==> links == []
    requires if IsLinkTag(open.tag) then
               |links'| == |links| + 1 && links'[..|links|] == links && Top(links').source == open.source
               && Top(links').kind.ImageOf? == open.tag.ImageTag?
               && marks' == marks + [Mark(open.tag.ImageTag?, false, false)]
               && (open.tag.ImageTag? ==> forall i :: 0 <= i < |marks| ==> !marks[i].image)
             else links' == links && marks' == marks
    ensures LinkFlags(links', stack + [open], marks')
  {
    var stack' := stack + [open];
    assert Init(stack') == stack && Top(stack') == open;
    if IsBlockTag(open.tag) { NoLinksNoTags(stack); }
    forall i, j | 0 <= i < j < |stack'| && IsLinkTag(stack'[i].tag) ensures !IsBlockTag(stack'[j].tag) {
      if j < |stack| { assert stack'[i] == stack[i] && stack'[j] == stack[j]; }
    }
  }

  /** What a start tag does to the frames: flush, then open one, or nothing. */
  lemma StartFrames(st: State, tag: Tag, r: Range)
    ensures var st' := OnStart(st, tag, r);
            if OpensFrame(tag) then
              |st'.frames| == |st.frames| + 1 && SameFlags(st.frames, Init(st'.frames))
              && KindOf(tag, Top(st'.frames).kind) && !Top(st'.frames).split
            else st'.frames == st.frames
    ensures OnStart(st, tag, r).deferred == st.deferred
    ensures OnStart(st, tag, r).inlines == if IsLeafTag(tag) || tag.ListTag? then [] else st.inlines
    ensures OnStart(st, tag, r).inMetadata == (st.inMetadata || tag.MetadataTag?)
    ensures if IsCodeTag(tag) then OnStart(st, tag, r).code.Some? && OnStart(st, tag, r).code.value.source == r
            else OnStart(st, tag, r).code == st.code
    ensures OnStart(st, tag, r).links ==
            match tag
            case LinkTag(target) => st.links + [LinkFrame(LinkTo(target), [], r, 0)]
            case ImageTag(url) => st.links + [LinkFrame(ImageOf(url), [], r, 0)]
            case _ => st.links
  {
    FlushSteady(st);
    hide FlushPending, Trim, NextPath;
    var st' := OnStart(st, tag, r);
    if tag.ListTag? { assert Init(st'.frames) == FlushPending(st).frames; }
    else if OpensFrame(tag) { assert Init(st'.frames) == st.frames; }
  }

  lemma OpenFrameFlags(st: State, c: Care, frames': seq<Frame>, tag: Tag, r: Range)
    requires FrameFlags(st.frames, st.deferred, c.nest.stack, c.pictured) && Avoids(c, StartEvent(tag, r))
    requires if OpensFrame(tag) then
               |frames'| == |st.frames| + 1 && SameFlags(st.frames, Init(frames'))
               && KindOf(tag, Top(frames').kind) && !Top(frames').split
             else frames' == st.frames
    ensures FrameFlags(frames', st.deferred, c.nest.stack + [Open(tag, r)], Next(c, StartEvent(tag, r)).pictured)
  {
    hide InLeaf, UnderHeading;
    StackGrows(c.nest.stack, Open(tag, r));
    assert forall k :: 0 <= k < |frames'| - 1 ==> frames'[k] == Init(frames')[k];
  }

  lemma StartConsistent(st: State, c: Care, tag: Tag, r: Range)
    requires Consistent(st, c) && Avoids(c, StartEvent(tag, r)) && |st.links| == |c.marks|
    ensures Consistent(OnStart(st, tag, r), Next(c, StartEvent(tag, r)))
  {
    var st', c' := OnStart(st, tag, r), Next(c, StartEvent(tag, r));
    var open := Open(tag, r);
    hide Consistent, OnStart, InLeaf, UnderHeading, LinksMatch, LinkFlags, SameOutline, FrameFlags;
    ConsistentParts(st, c);
    ConsistentParts(st', c');
    StartFrames(st, tag, r);
    StackGrows(c.nest.stack, open);
    StartLinks(st.links, st'.links, c.nest.stack, c.marks, c'.marks, open);
    OpenFrameFlags(st, c, st'.frames, tag, r);
    assert VerbatimFlags(st', c'.nest.stack, c'.pending);
    assert PendingFlag(st', c'.nest.stack, c'.pending);
  }

  // ----- end tags

  /** A closed frame is gone; the links, the code block and the metadata flag stay. */
  ghost predicate Popped(st: State, st': State) {
    && st.frames != [] && SameOutline(Init(st.frames), st'.frames)
    && st'.links == st.links && st'.code == st.code && st'.inMetadata == st.inMetadata
  }

  lemma OutlineTwice(a: seq<Frame>, b: seq<Frame>, c: seq<Frame>)
    requires SameOutline(a, b) && SameOutline(b, c)
    ensures SameOutline(a, c)
  {
  }

  lemma HeadingPops(st: State)
    requires st.frames != [] && Top(st.frames).kind.HeadingFrame?
    ensures Popped(st, CloseHeading(st)) && CloseHeading(st).deferred == [] && CloseHeading(st).inlines == []
  {
    var frame, reset := Top(st.frames), ResetInlines(PopFrame(st));
    var node := Heading(frame.kind.level, ProcessInlines(st.inlines));
    var pushed := PushBlock(reset, node, SplitAdjusted(frame, st.runs.runs), st.runs.runs);
    PushSteady(reset, node, SplitAdjusted(frame, st.runs.runs), st.runs.runs);
    DrainSteady(pushed.(deferred := []), pushed.deferred);
    hide PushBlock, ProcessInlines, SplitAdjusted, SameOutline, DrainFrom;
    OutlineTwice(Init(st.frames), pushed.frames, CloseHeading(st).frames);
  }

  lemma ParagraphPops(st: State)
    requires st.frames != [] && Top(st.frames).kind.ParagraphFrame?
    ensures Popped(st, CloseParagraph(st)) && CloseParagraph(st).deferred == st.deferred && CloseParagraph(st).inlines == []
  {
    hide PushBlock, ProcessInlines, SplitAdjusted;
    if st.inlines != [] {
      PushSteady(ResetInlines(PopFrame(st)), Paragraph(ProcessInlines(st.inlines)),
                 SplitAdjusted(Top(st.frames), st.runs.runs), st.runs.runs);
    }
  }

  lemma ContainerPops(st: State, end: TagEnd)
    requires st.frames != [] && Top(st.frames).kind.HoldsChildren() && ClosesFrame(end, Top(st.frames).kind)
    ensures Popped(st, CloseContainer(st, end)) && CloseContainer(st, end).deferred == st.deferred
    ensures CloseContainer(st, end).inlines == st.inlines
  {
    AttachOutline(Init(st.frames), NodeOf(Top(st.frames).kind));
  }

  lemma ItemPops(st: State)
    requires st.frames != [] && Top(st.frames).kind.ItemFrame? && Top(FlushPending(st).frames).kind.ItemFrame?
    ensures Popped(st, OnEnd(st, ItemEnd)) && OnEnd(st, ItemEnd).deferred == st.deferred
    ensures OnEnd(st, ItemEnd).inlines == []
  {
    hide CloseContainer, FlushPending;
    FlushSteady(st);
    var flushed := FlushPending(st);
    ContainerPops(flushed, ItemEnd);
    assert SameOutline(Init(st.frames), Init(flushed.frames));
    OutlineTwice(Init(st.frames), Init(flushed.frames), OnEnd(st, ItemEnd).frames);
  }

  /** The invariant once the innermost block has closed. */
  lemma PopConsistent(st: State, c: Care, st': State, c': Care)
    requires Consistent(st, c) && Popped(st, st') && c.nest.stack != [] && OpensFrame(Top(c.nest.stack).tag)
    requires FramesMatch(st'.frames, Init(c.nest.stack))
    requires c'.nest.stack == Init(c.nest.stack) && c'.marks == c.marks
    requires !c'.pictured && st'.deferred == []
    requires c'.pending || st'.inlines == []
    ensures Consistent(st', c')
  {
    hide Consistent, InLeaf, UnderHeading;
    ConsistentParts(st, c);
    ConsistentParts(st', c');
    LeafByFrames(st'.frames, Init(c.nest.stack));
    assert LeafOnTop(st'.frames);
    assert FrameFlags(st'.frames, st'.deferred, c'.nest.stack, c'.pictured);
    assert VerbatimFlags(st', c'.nest.stack, c'.pending);
    assert LinkFlags(st'.links, c'.nest.stack, c'.marks);
  }

  /** What the closing block's frame is. */
  lemma TopMatches(st: State, c: Care)
    requires Sound(st, c.nest.stack) && Consistent(st, c) && c.nest.stack != [] && OpensFrame(Top(c.nest.stack).tag)
    ensures st.frames != [] && KindOf(Top(c.nest.stack).tag, Top(st.frames).kind)
    ensures !Top(c.nest.stack).tag.HeadingTag? ==> !c.pictured && st.deferred == []
    ensures !IsLeafTag(Top(c.nest.stack).tag) ==> !InLeaf(c.nest.stack)
  {
    hide InLeaf, UnderHeading, LinksMatch, TreeInv;
  }

  lemma EndBlockConsistent(st: State, c: Care, end: TagEnd, r: Range)
    requires Sound(st, c.nest.stack) && Consistent(st, c) && c.nest.stack != [] && OpensFrame(Top(c.nest.stack).tag)
    requires end == EndOf(Top(c.nest.stack).tag) && Avoids(c, EndEvent(end, r))
    requires Sound(OnEnd(st, end), Init(c.nest.stack)) && Sound(FlushPending(st), c.nest.stack)
    ensures Consistent(OnEnd(st, end), Next(c, EndEvent(end, r)))
  {
    hide Consistent, InLeaf, UnderHeading, LinksMatch, TreeInv, FlushPending, CloseHeading, CloseParagraph, CloseContainer, Popped;
    var c' := Next(c, EndEvent(end, r));
    TopMatches(st, c);
    if end.HeadingEnd? { HeadingPops(st); }
    else if end.ParagraphEnd? { ParagraphPops(st); }
    else if end.ItemEnd? { ItemPops(st); }
    else {
      ContainerPops(st, end);
      assert c.pending || st.inlines == [] by { ConsistentParts(st, c); }
    }
    PopConsistent(st, c, OnEnd(st, end), c');
  }

  // ----- links, images, code and styles

  ghost predicate SameHeads(links: seq<LinkFrame>, links': seq<LinkFrame>) {
    && |links'| == |links|
    && forall i :: 0 <= i < |links| ==> links'[i].source == links[i].source && links'[i].kind == links[i].kind
  }

  lemma {:induction false} HeadsMatch(links: seq<LinkFrame>, links': seq<LinkFrame>, stack: seq<Open>)
    requires SameHeads(links, links') && LinksMatch(links, stack)
    ensures LinksMatch(links', stack)
    decreases |stack|
  {
    if stack != [] {
      if IsLinkTag(Top(stack).tag) { HeadsMatch(Init(links), Init(links'), Init(stack)); }
      else { HeadsMatch(links, links', Init(stack)); }
    }
  }

  lemma {:induction false} MatchPops(links: seq<LinkFrame>, stack: seq<Open>)
    requires LinksMatch(links, stack) && stack != []
    ensures IsLinkTag(Top(stack).tag) ==> links != [] && LinksMatch(Init(links), Init(stack))
    ensures !IsLinkTag(Top(stack).tag) ==> LinksMatch(links, Init(stack))
  {
  }

  lemma PopLinkFlags(links: seq<LinkFrame>, links': seq<LinkFrame>, stack: seq<Open>, marks: seq<Mark>, marks': seq<Mark>)
    requires LinkFlags(links, stack, marks) && stack != [] && |links| == |marks|
    requires if IsLinkTag(Top(stack).tag) then
               links != [] ==> SameHeads(Init(links), links') && |marks'| == |marks| - 1
                               && forall i :: 0 <= i < |marks'| ==> marks'[i].image == marks[i].image
             else links' == links && marks' == marks
    ensures LinkFlags(links', Init(stack), marks')
  {
    MatchPops(links, stack);
    if IsLinkTag(Top(stack).tag) { HeadsMatch(Init(links), links', Init(stack)); }
  }

  /** The invariant once a tag without a frame of its own has closed. */
  lemma UnwrapConsistent(st: State, c: Care, st': State, c': Care)
    requires Consistent(st, c) && c.nest.stack != [] && !OpensFrame(Top(c.nest.stack).tag)
    requires c'.nest.stack == Init(c.nest.stack)
    requires FrameFlags(st'.frames, st'.deferred, c.nest.stack, c'.pictured)
    requires st'.code == if IsCodeTag(Top(c.nest.stack).tag) then None else st.code
    requires st'.inMetadata == (st.inMetadata && !Top(c.nest.stack).tag.MetadataTag?)
    requires LinkFlags(st'.links, Init(c.nest.stack), c'.marks)
    requires PendingFlag(st', c.nest.stack, c'.pending)
    ensures Consistent(st', c')
  {
    hide Consistent, LinkFlags;
    ConsistentParts(st, c);
    ConsistentParts(st', c');
  }

  lemma CodeSteady(st: State)
    ensures var st' := CloseCode(st);
            SameFlags(st.frames, st'.frames) && st'.links == st.links && st'.code == None
            && st'.inMetadata == st.inMetadata && st'.deferred == st.deferred && st'.inlines == st.inlines
  {
    if st.code.Some? {
      var accum := st.code.value;
      PushSteady(st.(code := None), CodeBlock(accum.language, accum.code), Some(accum.source), accum.runs.runs);
    }
    hide PushBlock;
  }

  lemma EndCodeConsistent(st: State, c: Care, r: Range)
    requires Consistent(st, c) && c.nest.stack != [] && IsCodeTag(Top(c.nest.stack).tag) && |st.links| == |c.marks|
    ensures Consistent(CloseCode(st), Next(c, EndEvent(CodeBlockEnd, r)))
  {
    hide Consistent, CloseCode, LinkFlags, FrameFlags, InLeaf, UnderHeading, SameFlags, InCode;
    var st', c' := CloseCode(st), Next(c, EndEvent(CodeBlockEnd, r));
    ConsistentParts(st, c);
    CodeSteady(st);
    SteadyFrames(st.frames, st'.frames, st.deferred, c.nest.stack, c.pictured);
    PopLinkFlags(st.links, st'.links, c.nest.stack, c.marks, c'.marks);
    UnwrapConsistent(st, c, st', c');
  }

  /** Metadata, styles and tags the builder ignores. */
  predicate IsPlainTag(tag: Tag) {
    !OpensFrame(tag) && !IsLinkTag(tag) && !IsCodeTag(tag)
  }

  lemma EndPlainConsistent(st: State, c: Care, end: TagEnd, r: Range)
    requires Consistent(st, c) && c.nest.stack != [] && IsPlainTag(Top(c.nest.stack).tag)
    requires end == EndOf(Top(c.nest.stack).tag) && |st.links| == |c.marks|
    ensures Consistent(OnEnd(st, end), Next(c, EndEvent(end, r)))
  {
    hide Consistent, LinkFlags, FrameFlags, InLeaf, UnderHeading, InCode;
    var st', c' := OnEnd(st, end), Next(c, EndEvent(end, r));
    ConsistentParts(st, c);
    PlainShape(st, Top(c.nest.stack).tag);
    PlainNext(c, end, r);
    hide OnEnd, Next;
    PopLinkFlags(st.links, st'.links, c.nest.stack, c.marks, c'.marks);
    UnwrapConsistent(st, c, st', c');
  }

  lemma PlainNext(c: Care, end: TagEnd, r: Range)
    requires c.nest.stack != [] && IsPlainTag(Top(c.nest.stack).tag) && end == EndOf(Top(c.nest.stack).tag)
    ensures var c' := Next(c, EndEvent(end, r));
            c'.nest.stack == Init(c.nest.stack) && c'.marks == c.marks && c'.pending == c.pending && c'.pictured == c.pictured
  {
    hide InLeaf, UnderHeading, InCode;
  }

  lemma PlainShape(st: State, tag: Tag)
    requires IsPlainTag(tag)
    ensures var st' := OnEnd(st, EndOf(tag));
            st'.frames == st.frames && st'.links == st.links && st'.code == st.code && st'.deferred == st.deferred
            && st'.inlines == st.inlines && st'.inMetadata == (st.inMetadata && !tag.MetadataTag?)
  {
  }

  lemma EndLinkConsistent(st: State, c: Care, r: Range)
    requires Consistent(st, c) && c.nest.stack != [] && Top(c.nest.stack).tag.LinkTag? && |st.links| == |c.marks|
    requires st.links != [] && (Top(st.links).renderedChars > 0 ==> Top(c.marks).text)
    ensures Consistent(CloseLink(st), Next(c, EndEvent(LinkEnd, r)))
  {
    hide Consistent, LinkFlags, FrameFlags, UnderHeading, ProcessInlines, LinkElement;
    var st', c' := CloseLink(st), Next(c, EndEvent(LinkEnd, r));
    ConsistentParts(st, c);
    PopLinkFlags(st.links, st'.links, c.nest.stack, c.marks, c'.marks);
    UnwrapConsistent(st, c, st', c');
  }

  lemma MarkSplitFlags(frames: seq<Frame>, deferred: seq<Deferred>, stack: seq<Open>, pictured: bool)
    requires FrameFlags(frames, deferred, stack, pictured)
    ensures FrameFlags(MarkSplit(frames), if UnderHeading(stack) then deferred else [], stack, UnderHeading(stack))
    ensures !UnderHeading(stack) ==> deferred == [] && !pictured
    ensures SameOutline(frames, MarkSplit(frames))
  {
    hide InLeaf, UnderHeading;
  }

  lemma FlagsTwice(a: seq<Frame>, b: seq<Frame>, c: seq<Frame>)
    requires SameFlags(a, b) && SameFlags(b, c)
    ensures SameFlags(a, c)
  {
  }

  lemma FlagsKept(frames: seq<Frame>)
    ensures SameFlags(frames, frames)
  {
  }

  /** What an image's end leaves, in a heading and outside one. */
  lemma ImageShape(st: State)
    requires st.links != [] && Top(st.links).kind.ImageOf?
    ensures var st' := CloseImage(st);
            SameFlags(MarkSplit(st.frames), st'.frames) && st'.links == Init(st.links) && st'.code == st.code
            && st'.inMetadata == st.inMetadata
            && (InHeading(st.frames) ==> st'.frames == MarkSplit(st.frames))
            && (!InHeading(st.frames) ==> st'.deferred == st.deferred && st'.inlines == [])
  {
    hide FlushPending, PushBlock, AltText, MarkSplit, SameFlags;
    var marked := PopLink(st).(frames := MarkSplit(st.frames));
    var altText := AltText(Top(st.links).content);
    var flushed := FlushPending(marked);
    var node, runs := Image(altText, Top(st.links).kind.url), NO_RUNS.Push(|altText|, Top(st.links).source, false).runs;
    FlushSteady(marked);
    PushSteady(flushed, node, Some(Top(st.links).source), runs);
    FlagsTwice(MarkSplit(st.frames), flushed.frames, PushBlock(flushed, node, Some(Top(st.links).source), runs).frames);
    FlagsKept(MarkSplit(st.frames));
  }

  lemma EndImageConsistent(st: State, c: Care, r: Range)
    requires Consistent(st, c) && c.nest.stack != [] && Top(c.nest.stack).tag.ImageTag? && |st.links| == |c.marks|
    ensures Consistent(CloseImage(st), Next(c, EndEvent(ImageEnd, r)))
  {
    hide Consistent, LinkFlags, CloseImage, LinksMatch, InLeaf, UnderHeading, SameFlags, MarkSplit;
    var st', c' := CloseImage(st), Next(c, EndEvent(ImageEnd, r));
    ConsistentParts(st, c);
    assert st.links != [] && Top(st.links).kind.ImageOf? by { ImageOnTop(st, c); }
    ImageShape(st);
    PopLinkFlags(st.links, st'.links, c.nest.stack, c.marks, c'.marks);
    MarkSplitFlags(st.frames, st.deferred, c.nest.stack, c.pictured);
    SteadyFrames(MarkSplit(st.frames), st'.frames, [], c.nest.stack, c'.pictured);
    assert FrameFlags(st'.frames, st'.deferred, c.nest.stack, c'.pictured);
    UnwrapConsistent(st, c, st', c');
  }

  lemma ImageOnTop(st: State, c: Care)
    requires Consistent(st, c) && c.nest.stack != [] && Top(c.nest.stack).tag.ImageTag?
    ensures st.links != [] && Top(st.links).kind.ImageOf?
  {
    hide InLeaf, UnderHeading;
  }

  // ----- text

  /** What rendered text leaves alone, and where it waits. */
  lemma RenderedShape(source: string, st: State, text: string, code: bool, r: Range)
    ensures var st' := Rendered(source, st, text, code, r);
            st'.frames == st.frames && st'.code == st.code && st'.inMetadata == st.inMetadata
            && st'.deferred == st.deferred && SameHeads(st.links, st'.links)
            && (st.links != [] ==> st'.inlines == st.inlines)
  {
    hide Get;
  }

  lemma RenderedConsistent(source: string, st: State, c: Care, text: string, code: bool, r: Range, c': Care)
    requires Consistent(st, c) && |st.links| == |c.marks|
    requires !Verbatim(c.nest.stack) && c'.nest.stack == c.nest.stack && c' == Render(c).(nest := c'.nest)
    ensures Consistent(Rendered(source, st, text, code, r), c')
  {
    hide Consistent, Rendered, InLeaf, UnderHeading, LinksMatch, FrameFlags, InCode, InMetadata;
    var st' := Rendered(source, st, text, code, r);
    ConsistentParts(st, c);
    ConsistentParts(st', c');
    RenderedShape(source, st, text, code, r);
    HeadsMatch(st.links, st'.links, c.nest.stack);
  }

  lemma TextConsistent(source: string, st: State, c: Care, text: string, r: Range)
    requires Consistent(st, c) && |st.links| == |c.marks| && text != ""
    ensures Consistent(OnText(source, st, text, r), Next(c, TextEvent(text, r)))
  {
    hide Rendered, InLeaf, UnderHeading, LinksMatch, InHeading;
    if !Verbatim(c.nest.stack) {
      RenderedConsistent(source, st, c, text, false, r, Next(c, TextEvent(text, r)));
    }
  }

  lemma TaskSteady(st: State, checked: bool)
    ensures Steady(st, OnTask(st, checked)) && OnTask(st, checked).inlines == st.inlines
  {
  }

  // ----- every event

  lemma EndConsistent(source: string, st: State, c: Care, end: TagEnd, r: Range)
    requires Geo(source, st, c) && Allows(source, c.nest, EndEvent(end, r)) && Avoids(c, EndEvent(end, r))
    ensures Consistent(OnEnd(st, end), Next(c, EndEvent(end, r)))
  {
    hide Layout, Counted, Sound, NestGeo, Consistent, CloseHeading, CloseParagraph, CloseContainer, CloseLink, CloseImage, FlushPending;
    LinksAndMarks(source, st, c.marks, c.nest.cursor);
    var tag := Top(c.nest.stack).tag;
    if OpensFrame(tag) {
      EndSound(st, c.nest.stack);
      FlushSound(st, c.nest.stack);
      EndBlockConsistent(st, c, end, r);
    } else if tag.LinkTag? {
      assert st.links != [] by { LinkOnTop(st, c); }
      LinkFacts(source, st, c.marks, c.nest.cursor);
      EndLinkConsistent(st, c, r);
    } else if tag.ImageTag? {
      EndImageConsistent(st, c, r);
    } else if IsCodeTag(tag) {
      EndCodeConsistent(st, c, r);
    } else {
      EndPlainConsistent(st, c, end, r);
    }
  }

  lemma LinkOnTop(st: State, c: Care)
    requires Consistent(st, c) && c.nest.stack != [] && Top(c.nest.stack).tag.LinkTag?
    ensures st.links != []
  {
    hide InLeaf, UnderHeading;
  }

  lemma StepConsistent(source: string, st: State, c: Care, e: Event)
    requires Geo(source, st, c) && Allows(source, c.nest, e) && Avoids(c, e)
    ensures Consistent(Handle(source, st, e), Next(c, e))
  {
    hide Layout, Counted, Sound, NestGeo, Consistent, OnStart, OnEnd, OnText, Rendered, PushBlock, OnTask, Steady, Verbatim;
    LinksAndMarks(source, st, c.marks, c.nest.cursor);
    match e {
      case StartEvent(tag, r) => StartConsistent(st, c, tag, r);
      case EndEvent(end, r) => EndConsistent(source, st, c, end, r);
      case TextEvent(text, r) => TextConsistent(source, st, c, text, r);
      case CodeEvent(text, r) => RenderedConsistent(source, st, c, text, true, r, Next(c, e));
      case BreakEvent(r) => RenderedConsistent(source, st, c, "\n", false, r, Next(c, e));
      case RuleEvent(r) =>
        PushSteady(st, ThematicBreak, Some(r), []);
        SteadyKeeps(st, PushBlock(st, ThematicBreak, Some(r), []), c, Next(c, e));
      case TaskEvent(checked, r) =>
        TaskSteady(st, checked);
        SteadyKeeps(st, OnTask(st, checked), c, Next(c, e));
      case OtherEvent(r) =>
        NothingSteady(st);
        SteadyKeeps(st, st, c, Next(c, e));
    }
  }

  lemma NothingSteady(st: State)
    ensures Steady(st, st)
  {
  }
}
