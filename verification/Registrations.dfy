/** Which source range each block and each run is given: at every event of a clean stream, in terms
    of that event's own range. */
module Registrations {
  import opened Text
  import opened Ast
  import opened Inlines
  import opened Spans
  import opened Events
  import opened Nesting
  import opened CleanStreams
  import opened BuilderModel
  import opened BlockTree
  import opened BlockPaths
  import opened SpanOrder

  /** A range and the runs in it. */
  datatype Span = Span(source: Range, runs: seq<InlineRun>)

  /** The event registers these spans, in this order, after what was registered. */
  ghost predicate Adds(st: State, st': State, spans: seq<Span>) {
    && |st'.regs| == |st.regs| + |spans| && st'.regs[..|st.regs|] == st.regs
    && forall k :: 0 <= k < |spans| ==> st'.regs[|st.regs| + k].source == spans[k].source && st'.regs[|st.regs| + k].runs == spans[k].runs
  }

  lemma AddsTwice(a: State, b: State, c: State, first: seq<Span>, second: seq<Span>)
    requires Adds(a, b, first) && Adds(b, c, second)
    ensures Adds(a, c, first + second)
  {
    assert c.regs[..|a.regs|] == c.regs[..|b.regs|][..|a.regs|];
    forall k | 0 <= k < |first + second|
      ensures c.regs[|a.regs| + k].source == (first + second)[k].source && c.regs[|a.regs| + k].runs == (first + second)[k].runs
    {
      if k < |first| {
        assert c.regs[|a.regs| + k] == c.regs[..|b.regs|][|a.regs| + k];
      } else {
        assert c.regs[|a.regs| + k] == c.regs[|b.regs| + (k - |first|)];
      }
    }
  }

  /** From the first run's start to the last one's end, if there are any. */
  function Across(runs: seq<InlineRun>): seq<Span> {
    if runs == [] then [] else [Span(Range(runs[0].source.start, runs[|runs| - 1].source.end), runs)]
  }

  /** Text waiting to become a paragraph. */
  function Waiting(st: State): seq<Span> {
    if st.inlines == [] then [] else Across(st.runs.runs)
  }

  function Deferreds(waiting: seq<Deferred>): seq<Span>
    decreases |waiting|
  {
    if waiting == [] then [] else [Span(waiting[0].source, waiting[0].runs)] + Deferreds(waiting[1..])
  }

  /** An image is one run over the whole of its alternative text, if it has any. */
  function ImageSpan(altText: string, r: Range): Span {
    Span(r, if altText == "" then [] else [InlineRun(Range(0, |altText|), r, false)])
  }

  // ----- pushes

  lemma PushAdds(st: State, node: AstNode, r: Range, runs: seq<InlineRun>)
    ensures var st' := PushBlock(st, node, Some(r), runs);
            Adds(st, st', [Span(r, runs)]) && st'.deferred == st.deferred
  {
    hide ContainerIndex, AttachIn, NextPath;
  }

  lemma NothingAdded(st: State, st': State)
    requires st'.regs == st.regs
    ensures Adds(st, st', [])
  {
  }

  lemma PushAcross(st: State, node: AstNode, runs: seq<InlineRun>)
    ensures var st' := PushBlock(st, node, RunExtent(runs), runs);
            Adds(st, st', Across(runs)) && st'.deferred == st.deferred
  {
    if runs == [] {
      hide ContainerIndex, AttachIn;
      NothingAdded(st, PushBlock(st, node, None, runs));
    } else {
      hide PushBlock;
      PushAdds(st, node, RunExtent(runs).value, runs);
    }
  }

  lemma FlushAdds(st: State)
    ensures Adds(st, FlushPending(st), Waiting(st))
  {
    hide PushBlock, ProcessInlines, Adds;
    if st.inlines == [] {
      NothingAdded(st, FlushPending(st));
    } else {
      PushAcross(ResetInlines(st), Paragraph(ProcessInlines(st.inlines)), st.runs.runs);
      SameRegs(st, ResetInlines(st), FlushPending(st), Across(st.runs.runs));
    }
  }

  lemma SameRegs(a: State, b: State, c: State, spans: seq<Span>)
    requires Adds(b, c, spans) && a.regs == b.regs
    ensures Adds(a, c, spans)
  {
  }

  lemma {:induction false} DrainAdds(st: State, waiting: seq<Deferred>)
    ensures Adds(st, DrainFrom(st, waiting), Deferreds(waiting))
    decreases |waiting|
  {
    hide PushBlock, Adds;
    if waiting == [] {
      NothingAdded(st, st);
    } else {
      var next := PushBlock(st, waiting[0].node, Some(waiting[0].source), waiting[0].runs);
      PushAdds(st, waiting[0].node, waiting[0].source, waiting[0].runs);
      DrainAdds(next, waiting[1..]);
      AddsTwice(st, next, DrainFrom(next, waiting[1..]), [Span(waiting[0].source, waiting[0].runs)], Deferreds(waiting[1..]));
    }
  }

  // ----- what each end registers

  /** The tag's own range, unless an image was hoisted out of it: then what its runs span. */
  function LeafSpan(split: bool, r: Range, runs: seq<InlineRun>): seq<Span> {
    if split then Across(runs) else [Span(r, runs)]
  }

  lemma LeafPush(st: State, node: AstNode, frame: Frame, runs: seq<InlineRun>)
    ensures var st' := PushBlock(st, node, SplitAdjusted(frame, runs), runs);
            Adds(st, st', LeafSpan(frame.split, frame.source, runs)) && st'.deferred == st.deferred
  {
    hide PushBlock, Adds, RunExtent;
    if frame.split { PushAcross(st, node, runs); } else { PushAdds(st, node, frame.source, runs); }
  }

  lemma HeadingAdds(st: State, r: Range)
    requires st.frames != [] && Top(st.frames).kind.HeadingFrame? && Top(st.frames).source == r
    ensures Adds(st, CloseHeading(st), LeafSpan(Top(st.frames).split, r, st.runs.runs) + Deferreds(st.deferred))
  {
    hide PushBlock, DrainFrom, ProcessInlines, Adds, SplitAdjusted, LeafSpan;
    var frame, text := Top(st.frames), ResetInlines(PopFrame(st));
    var node := Heading(frame.kind.level, ProcessInlines(st.inlines));
    var pushed := PushBlock(text, node, SplitAdjusted(frame, st.runs.runs), st.runs.runs);
    LeafPush(text, node, frame, st.runs.runs);
    SameRegs(st, text, pushed, LeafSpan(frame.split, r, st.runs.runs));
    var ready := pushed.(deferred := []);
    DrainAdds(ready, pushed.deferred);
    SameRegs(pushed, ready, DrainFrom(ready, pushed.deferred), Deferreds(st.deferred));
    AddsTwice(st, pushed, CloseHeading(st), LeafSpan(frame.split, r, st.runs.runs), Deferreds(st.deferred));
  }

  lemma ParagraphAdds(st: State, r: Range)
    requires st.frames != [] && Top(st.frames).kind.ParagraphFrame? && Top(st.frames).source == r
    ensures Adds(st, CloseParagraph(st), if st.inlines == [] then [] else LeafSpan(Top(st.frames).split, r, st.runs.runs))
  {
    hide PushBlock, ProcessInlines, Adds, SplitAdjusted, LeafSpan;
    var frame, text := Top(st.frames), ResetInlines(PopFrame(st));
    if st.inlines == [] {
      NothingAdded(st, CloseParagraph(st));
    } else {
      LeafPush(text, Paragraph(ProcessInlines(st.inlines)), frame, st.runs.runs);
      SameRegs(st, text, CloseParagraph(st), LeafSpan(frame.split, r, st.runs.runs));
    }
  }

  lemma ContainerAdds(st: State, end: TagEnd, r: Range)
    requires st.frames != [] && Top(st.frames).kind.HoldsChildren() && ClosesFrame(end, Top(st.frames).kind) && Top(st.frames).source == r
    ensures Adds(st, CloseContainer(st, end), [Span(r, [])])
  {
    hide ContainerIndex, AttachIn;
  }

  lemma CodeAdds(st: State, r: Range)
    requires st.code.Some? && st.code.value.source == r
    ensures Adds(st, CloseCode(st), [Span(r, st.code.value.runs.runs)])
  {
    hide PushBlock;
    var accum := st.code.value;
    PushAdds(st.(code := None), CodeBlock(accum.language, accum.code), accum.source, accum.runs.runs);
  }

  lemma ImageAdds(st: State, url: string, r: Range)
    requires st.links != [] && Top(st.links).kind == ImageOf(url) && Top(st.links).source == r
    ensures var span := ImageSpan(AltText(Top(st.links).content), r); var st' := CloseImage(st);
            if InHeading(st.frames) then
              Adds(st, st', []) && |st'.deferred| == |st.deferred| + 1 && st'.deferred[..|st.deferred|] == st.deferred
              && Span(Top(st'.deferred).source, Top(st'.deferred).runs) == span
            else Adds(st, st', Waiting(st) + [span])
  {
    hide PushBlock, FlushPending, AltText, Adds, MarkSplit, Waiting;
    var altText := AltText(Top(st.links).content);
    var marked := PopLink(st).(frames := MarkSplit(st.frames));
    var node := Image(altText, url);
    assert NO_RUNS.Push(|altText|, r, false).runs == ImageSpan(altText, r).runs;
    if InHeading(st.frames) {
      NothingAdded(st, CloseImage(st));
    } else {
      FlushAdds(marked);
      SameWaiting(st, marked);
      SameRegs(st, marked, FlushPending(marked), Waiting(st));
      PushAdds(FlushPending(marked), node, r, ImageSpan(altText, r).runs);
      AddsTwice(st, FlushPending(marked), CloseImage(st), Waiting(st), [ImageSpan(altText, r)]);
    }
  }

  lemma SameWaiting(a: State, b: State)
    requires a.inlines == b.inlines && a.runs == b.runs
    ensures Waiting(a) == Waiting(b)
  {
  }

  // ----- every event

  /** The spans an event of a clean stream registers. */
  ghost predicate EventAdds(st: State, st': State, e: Event) {
    match e
    case StartEvent(tag, _) => Adds(st, st', if tag.ListTag? then Waiting(st) else [])
    case EndEvent(HeadingEnd, r) =>
      st.frames != [] && Adds(st, st', LeafSpan(Top(st.frames).split, r, st.runs.runs) + Deferreds(st.deferred))
    case EndEvent(ParagraphEnd, r) =>
      st.frames != [] && Adds(st, st', if st.inlines == [] then [] else LeafSpan(Top(st.frames).split, r, st.runs.runs))
    case EndEvent(BlockQuoteEnd, r) => Adds(st, st', [Span(r, [])])
    case EndEvent(ListEnd, r) => Adds(st, st', [Span(r, [])])
    case EndEvent(ItemEnd, r) => Adds(st, st', Waiting(st) + [Span(r, [])])
    case EndEvent(CodeBlockEnd, r) => st.code.Some? && Adds(st, st', [Span(r, st.code.value.runs.runs)])
    case EndEvent(ImageEnd, r) =>
      st.links != []
      && (var span := ImageSpan(AltText(Top(st.links).content), r);
          if InHeading(st.frames) then
            Adds(st, st', []) && |st'.deferred| == |st.deferred| + 1 && st'.deferred[..|st.deferred|] == st.deferred
            && Span(Top(st'.deferred).source, Top(st'.deferred).runs) == span
          else Adds(st, st', Waiting(st) + [span]))
    case RuleEvent(r) => Adds(st, st', [Span(r, [])])
    case _ => Adds(st, st', [])
  }

  lemma StartAdds(st: State, tag: Tag, r: Range)
    ensures Adds(st, OnStart(st, tag, r), if tag.ListTag? then Waiting(st) else [])
  {
    hide FlushPending, NextPath, Trim, Adds, Waiting;
    if tag.ListTag? {
      FlushAdds(st);
      KeepsRegs(st, FlushPending(st), OnStart(st, tag, r), Waiting(st));
    } else {
      NothingAdded(st, OnStart(st, tag, r));
    }
  }

  lemma KeepsRegs(a: State, b: State, c: State, spans: seq<Span>)
    requires Adds(a, b, spans) && c.regs == b.regs
    ensures Adds(a, c, spans)
  {
  }

  /** What is known of whatever the end tag closes. */
  lemma EndFacts(source: string, st: State, c: Care, end: TagEnd, r: Range)
    requires Sound(st, c.nest.stack) && Consistent(st, c) && Allows(source, c.nest, EndEvent(end, r))
    ensures end.HeadingEnd? ==> st.frames != [] && Top(st.frames).kind.HeadingFrame? && Top(st.frames).source == r
    ensures end.ParagraphEnd? ==> st.frames != [] && Top(st.frames).kind.ParagraphFrame? && Top(st.frames).source == r
    ensures end.BlockQuoteEnd? || end.ListEnd? || end.ItemEnd? ==>
              st.frames != [] && Top(st.frames).kind.HoldsChildren() && ClosesFrame(end, Top(st.frames).kind) && Top(st.frames).source == r
    ensures end.CodeBlockEnd? ==> st.code.Some? && st.code.value.source == r
    ensures end.ImageEnd? ==> st.links != [] && Top(st.links).kind.ImageOf? && Top(st.links).source == r
    ensures end.LinkEnd? ==> st.links != [] && Top(st.links).kind.LinkTo? && Top(st.links).source == r
  {
    hide TreeInv, InLeaf, UnderHeading;
  }

  lemma FlushKeepsTop(st: State, end: TagEnd, r: Range)
    requires st.frames != [] && Top(st.frames).kind.HoldsChildren() && ClosesFrame(end, Top(st.frames).kind) && Top(st.frames).source == r
    ensures var st' := FlushPending(st);
            st'.frames != [] && Top(st'.frames).kind.HoldsChildren() && ClosesFrame(end, Top(st'.frames).kind) && Top(st'.frames).source == r
  {
    hide ProcessInlines;
  }

  lemma EndAdds(source: string, st: State, c: Care, end: TagEnd, r: Range)
    requires Sound(st, c.nest.stack) && Consistent(st, c) && Allows(source, c.nest, EndEvent(end, r))
    ensures EventAdds(st, OnEnd(st, end), EndEvent(end, r))
  {
    EndFacts(source, st, c, end, r);
    hide Sound, Consistent, Allows, Adds, CloseHeading, CloseParagraph, CloseContainer, CloseCode, CloseImage, CloseLink, FlushPending,
      Waiting, LeafSpan, AltText, ImageSpan, Deferreds, ClosesFrame;
    match end {
      case HeadingEnd => HeadingAdds(st, r);
      case ParagraphEnd => ParagraphAdds(st, r);
      case BlockQuoteEnd => ContainerAdds(st, end, r);
      case ListEnd => ContainerAdds(st, end, r);
      case ItemEnd =>
        FlushAdds(st);
        FlushKeepsTop(st, end, r);
        ContainerAdds(FlushPending(st), end, r);
        AddsTwice(st, FlushPending(st), CloseContainer(FlushPending(st), end), Waiting(st), [Span(r, [])]);
      case CodeBlockEnd => CodeAdds(st, r);
      case ImageEnd => ImageAdds(st, Top(st.links).kind.url, r);
      case LinkEnd =>
        LinkLeavesTree(st);
        NothingAdded(st, CloseLink(st));
      case _ => NothingAdded(st, OnEnd(st, end));
    }
  }

  /** At every event of a clean stream the spans registered are those the event's own range says:
      a container, a code block, a rule or an image has its tag's or event's range; so has a
      heading or a paragraph, unless an image was hoisted out of it, and then it has, like text
      outside any, what its runs span; images of a heading follow it. */
  lemma EventRegisters(source: string, st: State, c: Care, e: Event)
    requires Sound(st, c.nest.stack) && Consistent(st, c) && Allows(source, c.nest, e) && Avoids(c, e)
    ensures EventAdds(st, Handle(source, st, e), e)
  {
    hide OnStart, OnEnd, PushBlock, Adds, Waiting, Sound, Consistent, Allows, Avoids;
    match e {
      case StartEvent(tag, r) => StartAdds(st, tag, r);
      case EndEvent(end, r) => EndAdds(source, st, c, end, r);
      case RuleEvent(r) => PushAdds(st, ThematicBreak, r, []);
      case _ => NothingAdded(st, Handle(source, st, e));
    }
  }

  // ----- runs

  /** One more run of `n` characters over `range`. */
  ghost predicate OneRun(before: RunAccum, after: RunAccum, n: nat, range: Range) {
    && after.renderedLen == before.renderedLen + n && |after.runs| == |before.runs| + 1
    && after.runs[..|before.runs|] == before.runs
    && Top(after.runs).rendered == Range(before.renderedLen, before.renderedLen + n)
    && Top(after.runs).source == range
  }

  /** Text in a code block is one more run of the block over the event's own range, and is added to
      its code as it is. */
  lemma CodeRuns(source: string, st: State, text: string, range: Range)
    requires st.code.Some? && !st.inMetadata && text != ""
    ensures var st' := Handle(source, st, TextEvent(text, range));
            st'.code.Some? && st'.code.value.code == st.code.value.code + text
            && OneRun(st.code.value.runs, st'.code.value.runs, |text|, range)
            && (Top(st'.code.value.runs.runs).interpolable <==> Get(source, range) == Some(text))
  {
    hide Get;
  }

  /** What an event renders, if it renders anything of its own, and whether a link renders it. */
  function RenderedBy(st: State, e: Event): Option<(nat, bool)> {
    match e
    case TextEvent(text, _) => if st.inMetadata || st.code.Some? || text == "" then None else Some((|text|, false))
    case CodeEvent(text, _) => if text == "" then None else Some((|text|, false))
    case BreakEvent(_) => Some((1, false))
    case EndEvent(LinkEnd, _) =>
      if st.links != [] && Top(st.links).renderedChars > 0 then Some((Top(st.links).renderedChars, true)) else None
    case _ => None
  }

  /** What is open around what the event renders. */
  function LinksAround(st: State, e: Event): seq<LinkFrame> {
    if e.EndEvent? && e.tagEnd.LinkEnd? && st.links != [] then Init(st.links) else st.links
  }

  /** Outside links, one more run of `n` characters over `range`; inside one, `n` more counted there. */
  ghost predicate OneMore(st: State, around: seq<LinkFrame>, st': State, n: nat, range: Range, linked: bool) {
    if around == [] then
      OneRun(st.runs, st'.runs, n, range) && (Top(st'.runs.runs).interpolable ==> !linked)
    else st'.runs == st.runs && st'.links != [] && Top(st'.links).renderedChars == Top(around).renderedChars + n
  }

  lemma EmitsOne(st: State, n: nat, range: Range, interpolable: bool, linked: bool, element: Inline)
    requires n > 0 && (interpolable ==> !linked)
    ensures OneMore(st, st.links, PushInline(EmitRun(st, n, range, interpolable), element), n, range, linked)
  {
  }

  lemma LinkEmits(st: State)
    requires st.links != [] && Top(st.links).kind.LinkTo? && Top(st.links).renderedChars > 0
    ensures OneMore(st, Init(st.links), CloseLink(st), Top(st.links).renderedChars, Top(st.links).source, true)
  {
    hide EmitRun, PushInline, ProcessInlines, LinkElement, OneMore;
    var frame := Top(st.links);
    EmitsOne(PopLink(st), frame.renderedChars, frame.source, false, true, LinkElement(frame.kind, ProcessInlines(frame.content)));
    SameRunsMore(PopLink(st), st, CloseLink(st), frame.renderedChars, frame.source, true);
  }

  lemma SameRunsMore(a: State, b: State, c: State, n: nat, range: Range, linked: bool)
    requires OneMore(a, a.links, c, n, range, linked) && a.runs == b.runs
    ensures OneMore(b, a.links, c, n, range, linked)
  {
  }

  /** Outside links, what an event renders is one more run over the event's own range; inside one
      it is only counted there. A link's run has the link's whole range. */
  lemma EventRuns(source: string, st: State, c: Care, e: Event)
    requires Sound(st, c.nest.stack) && Consistent(st, c) && Allows(source, c.nest, e) && RenderedBy(st, e).Some?
    ensures OneMore(st, LinksAround(st, e), Handle(source, st, e), RenderedBy(st, e).value.0, e.range, RenderedBy(st, e).value.1)
  {
    if e.EndEvent? {
      EndFacts(source, st, c, e.tagEnd, e.range);
      LinkEmits(st);
    } else {
      hide Sound, Consistent, Allows, PushInline, EmitRun, OneMore;
      var text := if e.BreakEvent? then "\n" else e.text;
      EmitsOne(st, |text|, e.range, Get(source, e.range) == Some(text), false, StyledAs(st, text, e.CodeEvent?));
    }
  }
}
