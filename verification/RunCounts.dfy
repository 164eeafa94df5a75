/** Rendered text and runs stay in step at every event of any stream whatsoever, so the runs of
    every registered leaf tile its rendered text. */
module RunCounts {
  import opened Text
  import opened Paths
  import opened Ast
  import opened Inlines
  import opened Spans
  import opened Events
  import opened BuilderModel

  // ----- which characters a link renders

  /** For each character of some content, whether it is inside a link. */
  function LinkMarks(content: seq<Inline>): (r: seq<bool>)
    ensures |r| == |StyledText(content, [])|
  {
    seq(|StyledText(content, [])|, k requires 0 <= k < |StyledText(content, [])| => StyledText(content, [])[k].links != [])
  }

  function All(n: nat, linked: bool): (r: seq<bool>)
    ensures |r| == n && forall k :: 0 <= k < n ==> r[k] == linked
  {
    if n == 0 then [] else All(n - 1, linked) + [linked]
  }

  /** For each character a leaf renders, whether a link or an image renders it. */
  function NodeMarks(node: AstNode): seq<bool> {
    match node
    case Heading(_, inlines) => LinkMarks(inlines)
    case Paragraph(inlines) => LinkMarks(inlines)
    case Image(altText, _) => All(|altText|, true)
    case _ => All(|RenderedText(node)|, false)
  }

  lemma {:induction false} PlainAsLong(styled: seq<Styled>)
    ensures |Plain(styled)| == |styled|
  {
    if styled != [] { PlainAsLong(styled[1..]); }
  }

  lemma MarksAsLong(content: seq<Inline>)
    ensures |LinkMarks(content)| == |InlineText(content)|
  {
    hide StyledText, InlineText;
    PlainIsText(content, []);
    PlainAsLong(StyledText(content, []));
  }

  lemma ProcessKeepsMarks(raw: seq<Inline>)
    ensures LinkMarks(ProcessInlines(raw)) == LinkMarks(raw)
  {
    hide StyledText, ProcessInlines;
    ProcessKeepsStyles(raw, []);
  }

  /** Text inside links stays inside them. */
  lemma {:induction false} StyledUnder(content: seq<Inline>, links: seq<Target>)
    requires links != []
    ensures forall k :: 0 <= k < |StyledText(content, links)| ==> StyledText(content, links)[k].links != []
    decreases Count(content), 1, |content|
  {
    if content != [] {
      UnderElement(content[0], links);
      StyledUnder(content[1..], links);
    }
  }

  lemma {:induction false} UnderElement(e: Inline, links: seq<Target>)
    requires links != []
    ensures forall k :: 0 <= k < |StyledElement(e, links)| ==> StyledElement(e, links)[k].links != []
    decreases CountOne(e), 0
  {
    match e
    case Run(run) => RunUnder(run, run.content, links);
    case Link(targetId, targetExists, content) => StyledUnder(content, links + [ToNote(targetId, targetExists)]);
    case ExternalLink(url, content) => StyledUnder(content, links + [ToUrl(url)]);
  }

  lemma {:induction false} RunUnder(run: TextRun, text: string, links: seq<Target>)
    ensures |StyledRun(run, text, links)| == |text| && forall k :: 0 <= k < |text| ==> StyledRun(run, text, links)[k].links == links
    decreases |text|
  {
    if text != "" {
      RunUnder(run, text[1..], links);
      assert StyledRun(run, text, links)[1..] == StyledRun(run, text[1..], links);
    }
  }

  /** An element's characters are all inside a link, or none is. */
  lemma ElementMarks(e: Inline)
    ensures |StyledElement(e, [])| == |ElementText(e)|
    ensures forall k :: 0 <= k < |StyledElement(e, [])| ==> (StyledElement(e, [])[k].links != [] <==> !e.Run?)
  {
    PlainElement(e, []);
    PlainAsLong(StyledElement(e, []));
    match e
    case Run(run) => RunUnder(run, run.content, []);
    case Link(targetId, targetExists, content) => StyledUnder(content, [] + [ToNote(targetId, targetExists)]);
    case ExternalLink(url, content) => StyledUnder(content, [] + [ToUrl(url)]);
  }

  lemma MarksAppend(content: seq<Inline>, e: Inline)
    ensures LinkMarks(content + [e]) == LinkMarks(content) + All(|ElementText(e)|, !e.Run?)
  {
    hide StyledText, StyledElement, ElementText;
    StyledConcat(content, [e], []);
    StyledOne(e, []);
    ElementMarks(e);
  }

  // ----- runs that describe a text

  /** A run lies in the text. A link's or an image's is one whole and never interpolable; any
      other is interpolable exactly when its source is that very piece of text. */
  ghost predicate RunReads(source: string, text: string, linked: seq<bool>, run: InlineRun) {
    var (start, end) := (run.rendered.start, run.rendered.end);
    && start < end <= |text| && end <= |linked|
    && (forall k :: start <= k < end ==> linked[k] == linked[start])
    && (run.interpolable <==> !linked[start] && Get(source, run.source) == Some(text[start..end]))
  }

  /** The runs tile the text, and say where the source reads it. */
  ghost predicate Describes(source: string, text: string, linked: seq<bool>, runs: seq<InlineRun>) {
    && Tiled(runs, |text|) && |linked| == |text|
    && forall k :: 0 <= k < |runs| ==> RunReads(source, text, linked, runs[k])
  }

  ghost predicate Accumulates(source: string, text: string, linked: seq<bool>, accum: RunAccum) {
    accum.renderedLen == |text| && Describes(source, text, linked, accum.runs)
  }

  ghost predicate LinkCounted(link: LinkFrame) {
    link.renderedChars == |InlineText(link.content)|
  }

  ghost predicate DeferredCounted(source: string, d: Deferred) {
    d.node.Image? && Describes(source, d.node.altText, NodeMarks(d.node), d.runs)
  }

  /** A registered leaf's runs describe its rendered text; a container has none. */
  ghost predicate RegCounted(source: string, reg: Reg) {
    if IsContainer(reg.node) then reg.runs == []
    else Describes(source, RenderedText(reg.node), NodeMarks(reg.node), reg.runs)
  }

  ghost predicate Counted(source: string, st: State) {
    && Accumulates(source, InlineText(st.inlines), LinkMarks(st.inlines), st.runs)
    && (forall i :: 0 <= i < |st.links| ==> LinkCounted(st.links[i]))
    && (st.code.Some? ==> Accumulates(source, st.code.value.code, All(|st.code.value.code|, false), st.code.value.runs))
    && (forall i :: 0 <= i < |st.deferred| ==> DeferredCounted(source, st.deferred[i]))
    && (forall i :: 0 <= i < |st.regs| ==> RegCounted(source, st.regs[i]))
  }

  // ----- runs

  lemma DescribesNothing(source: string)
    ensures Describes(source, "", [], [])
  {
  }

  /** More text after it does not concern a run. */
  lemma StillReads(source: string, text: string, linked: seq<bool>, more: string, marks: seq<bool>, run: InlineRun)
    requires RunReads(source, text, linked, run) && |linked| == |text|
    ensures RunReads(source, text + more, linked + marks, run)
  {
    hide Get;
    assert (text + more)[run.rendered.start..run.rendered.end] == text[run.rendered.start..run.rendered.end];
  }

  lemma NewReads(source: string, text: string, linked: seq<bool>, rendered: string, link: bool, range: Range, interpolable: bool)
    requires |linked| == |text| && rendered != "" && (interpolable <==> !link && Get(source, range) == Some(rendered))
    ensures RunReads(source, text + rendered, linked + All(|rendered|, link), InlineRun(Range(|text|, |text| + |rendered|), range, interpolable))
  {
    hide Get;
    assert (text + rendered)[|text|..|text| + |rendered|] == rendered;
  }

  lemma PushTiles(runs: seq<InlineRun>, len: nat, run: InlineRun)
    requires Tiled(runs, len) && run.rendered.start == len < run.rendered.end
    ensures Tiled(runs + [run], run.rendered.end)
  {
  }

  lemma PushDescribes(source: string, text: string, linked: seq<bool>, accum: RunAccum, rendered: string, link: bool,
                      range: Range, interpolable: bool)
    requires Accumulates(source, text, linked, accum)
    requires interpolable <==> !link && Get(source, range) == Some(rendered)
    ensures Accumulates(source, text + rendered, linked + All(|rendered|, link), accum.Push(|rendered|, range, interpolable))
  {
    var accum' := accum.Push(|rendered|, range, interpolable);
    var marks := All(|rendered|, link);
    if rendered == "" {
      assert text + rendered == text && linked + marks == linked;
    } else {
      var run := InlineRun(Range(|text|, |text| + |rendered|), range, interpolable);
      PushTiles(accum.runs, |text|, run);
      NewReads(source, text, linked, rendered, link, range, interpolable);
      hide Get, RunReads, Tiled, All;
      forall k | 0 <= k < |accum'.runs| ensures RunReads(source, text + rendered, linked + marks, accum'.runs[k]) {
        if k < |accum.runs| { StillReads(source, text, linked, rendered, marks, accum.runs[k]); }
      }
    }
  }

  // ----- blocks

  lemma AttachCounts(source: string, st: State, node: AstNode)
    requires Counted(source, st)
    ensures Counted(source, Attach(st, node))
  {
  }

  lemma PushCounts(source: string, st: State, node: AstNode, range: Option<Range>, runs: seq<InlineRun>)
    requires Counted(source, st) && !IsContainer(node) && Describes(source, RenderedText(node), NodeMarks(node), runs)
    ensures Counted(source, PushBlock(st, node, range, runs))
  {
    if range.Some? {
      var reg := Reg(NextPath(st.frames, |st.root|), range.value, runs, node);
      AttachCounts(source, st.(regs := st.regs + [reg]), node);
    } else {
      AttachCounts(source, st, node);
    }
  }

  lemma PushContainerCounts(source: string, st: State, node: AstNode, path: BlockPath, range: Range)
    requires Counted(source, st) && IsContainer(node)
    ensures Counted(source, PushContainer(st, node, path, range))
  {
    AttachCounts(source, st.(regs := st.regs + [Reg(path, range, [], node)]), node);
  }

  lemma ResetCounts(source: string, st: State)
    requires Counted(source, st)
    ensures Counted(source, ResetInlines(st))
  {
  }

  lemma FlushCounts(source: string, st: State)
    requires Counted(source, st)
    ensures Counted(source, FlushPending(st))
  {
    ResetCounts(source, st);
    if st.inlines == [] {
      assert st.(runs := NO_RUNS) == ResetInlines(st);
    } else {
      ProcessKeepsText(st.inlines);
      ProcessKeepsMarks(st.inlines);
      PushCounts(source, ResetInlines(st), Paragraph(ProcessInlines(st.inlines)), RunExtent(st.runs.runs), st.runs.runs);
    }
  }

  /** Emitting a run with its inline element, at the top level or inside the innermost link. */
  lemma EmitCounts(source: string, st: State, element: Inline, range: Range, interpolable: bool)
    requires Counted(source, st)
    requires interpolable <==> element.Run? && Get(source, range) == Some(ElementText(element))
    ensures Counted(source, PushInline(EmitRun(st, |ElementText(element)|, range, interpolable), element))
  {
    hide Get, InlineText, LinkMarks;
    if st.links != [] {
      var top := st.links[|st.links| - 1];
      assert LinkCounted(top);
      InlineTextAppend(top.content, element);
    } else {
      InlineTextAppend(st.inlines, element);
      MarksAppend(st.inlines, element);
      PushDescribes(source, InlineText(st.inlines), LinkMarks(st.inlines), st.runs, ElementText(element), !element.Run?, range, interpolable);
    }
  }

  lemma RenderedCounts(source: string, st: State, text: string, code: bool, range: Range)
    requires Counted(source, st)
    ensures Counted(source, Rendered(source, st, text, code, range))
  {
    EmitCounts(source, st, StyledAs(st, text, code), range, Get(source, range) == Some(text));
  }

  lemma TextCounts(source: string, st: State, text: string, range: Range)
    requires Counted(source, st)
    ensures Counted(source, OnText(source, st, text, range))
  {
    if !st.inMetadata && text != "" {
      if st.code.Some? {
        var code := st.code.value.code;
        PushDescribes(source, code, All(|code|, false), st.code.value.runs, text, false, range, Get(source, range) == Some(text));
        assert All(|code + text|, false) == All(|code|, false) + All(|text|, false);
      } else {
        RenderedCounts(source, st, text, false, range);
      }
    }
  }

  // ----- links and images

  lemma PopCounts(source: string, st: State)
    requires Counted(source, st) && st.links != []
    ensures Counted(source, PopLink(st))
  {
  }

  lemma CloseLinkCounts(source: string, st: State)
    requires Counted(source, st)
    ensures Counted(source, CloseLink(st))
  {
    if st.links != [] {
      var frame := st.links[|st.links| - 1];
      PopCounts(source, st);
      if frame.renderedChars != 0 {
        assert LinkCounted(frame);
        ProcessKeepsText(frame.content);
        var element := LinkElement(frame.kind, ProcessInlines(frame.content));
        assert ElementText(element) == InlineText(ProcessInlines(frame.content));
        EmitCounts(source, PopLink(st), element, frame.source, false);
      }
    }
  }

  lemma AltRunDescribes(source: string, altText: string, range: Range)
    ensures Describes(source, altText, All(|altText|, true), NO_RUNS.Push(|altText|, range, false).runs)
  {
    DescribesNothing(source);
    PushDescribes(source, "", [], NO_RUNS, altText, true, range, false);
    assert "" + altText == altText && [] + All(|altText|, true) == All(|altText|, true);
  }

  lemma DeferCounts(source: string, st: State, d: Deferred)
    requires Counted(source, st) && DeferredCounted(source, d)
    ensures Counted(source, st.(deferred := st.deferred + [d]))
  {
  }

  lemma FramesDoNotCount(source: string, st: State, frames: seq<Frame>)
    requires Counted(source, st)
    ensures Counted(source, st.(frames := frames))
  {
  }

  lemma CloseImageCounts(source: string, st: State)
    requires Counted(source, st)
    ensures Counted(source, CloseImage(st))
  {
    hide Counted, FlushPending, PushBlock, AltText, Describes, MarkSplit;
    if st.links != [] {
      var frame := st.links[|st.links| - 1];
      var marked := PopLink(st).(frames := MarkSplit(st.frames));
      PopCounts(source, st);
      FramesDoNotCount(source, PopLink(st), MarkSplit(st.frames));
      FlushCounts(source, marked);
      var altText, runs := AltText(frame.content), NO_RUNS.Push(|AltText(frame.content)|, frame.source, false).runs;
      AltRunDescribes(source, altText, frame.source);
      if frame.kind.ImageOf? {
        var node := Image(altText, frame.kind.url);
        PushCounts(source, FlushPending(marked), node, Some(frame.source), runs);
        DeferCounts(source, marked, Deferred(node, frame.source, runs));
      }
    }
  }

  lemma {:induction false} DrainCounts(source: string, st: State, waiting: seq<Deferred>)
    requires Counted(source, st) && forall i :: 0 <= i < |waiting| ==> DeferredCounted(source, waiting[i])
    ensures Counted(source, DrainFrom(st, waiting))
    decreases |waiting|
  {
    if waiting != [] {
      assert DeferredCounted(source, waiting[0]);
      PushCounts(source, st, waiting[0].node, Some(waiting[0].source), waiting[0].runs);
      DrainCounts(source, PushBlock(st, waiting[0].node, Some(waiting[0].source), waiting[0].runs), waiting[1..]);
    }
  }

  // ----- the whole step

  lemma StartCounts(source: string, st: State, tag: Tag, range: Range)
    requires Counted(source, st)
    ensures Counted(source, OnStart(st, tag, range))
  {
    hide Counted, FlushPending, NextPath, Trim, OpenLink, OpenCode;
    match tag {
      case ListTag(_) =>
        FlushCounts(source, st);
        SameCounts(source, FlushPending(st), OnStart(st, tag, range));
      case HeadingTag(_) =>
        ResetCounts(source, st);
        SameCounts(source, ResetInlines(st), OnStart(st, tag, range));
      case ParagraphTag =>
        ResetCounts(source, st);
        SameCounts(source, ResetInlines(st), OnStart(st, tag, range));
      case FencedTag(info) => CodeOpens(source, st, if Trim(info) == "" then None else Some(Trim(info)), range);
      case IndentedTag => CodeOpens(source, st, None, range);
      case LinkTag(target) => LinkOpens(source, st, LinkTo(target), range);
      case ImageTag(url) => LinkOpens(source, st, ImageOf(url), range);
      case _ => SameCounts(source, st, OnStart(st, tag, range));
    }
  }

  /** Steps that touch no text, no runs and no registrations. */
  lemma SameCounts(source: string, st: State, st': State)
    requires Counted(source, st)
    requires st'.inlines == st.inlines && st'.runs == st.runs && st'.links == st.links && st'.code == st.code
    requires st'.deferred == st.deferred && st'.regs == st.regs
    ensures Counted(source, st')
  {
    hide Accumulates, InlineText, LinkCounted, DeferredCounted, RegCounted;
  }

  lemma CodeOpens(source: string, st: State, language: Option<string>, range: Range)
    requires Counted(source, st)
    ensures Counted(source, OpenCode(st, language, range))
  {
    assert Accumulates(source, "", All(0, false), NO_RUNS) by { DescribesNothing(source); }
    hide Accumulates, InlineText, LinkCounted, DeferredCounted, RegCounted;
  }

  lemma LinkOpens(source: string, st: State, kind: LinkKind, range: Range)
    requires Counted(source, st)
    ensures Counted(source, OpenLink(st, kind, range))
  {
    assert LinkCounted(LinkFrame(kind, [], range, 0));
    hide Accumulates, InlineText, LinkCounted, DeferredCounted, RegCounted;
  }

  lemma CloseHeadingCounts(source: string, st: State)
    requires Counted(source, st)
    ensures Counted(source, CloseHeading(st))
  {
    if st.frames != [] && st.frames[|st.frames| - 1].kind.HeadingFrame? {
      var frame := st.frames[|st.frames| - 1];
      var node := Heading(frame.kind.level, ProcessInlines(st.inlines));
      var reset := ResetInlines(PopFrame(st));
      ProcessKeepsText(st.inlines);
      ProcessKeepsMarks(st.inlines);
      PushCounts(source, reset, node, SplitAdjusted(frame, st.runs.runs), st.runs.runs);
      var pushed := PushBlock(reset, node, SplitAdjusted(frame, st.runs.runs), st.runs.runs);
      DrainCounts(source, pushed.(deferred := []), pushed.deferred);
    }
  }

  lemma CloseParagraphCounts(source: string, st: State)
    requires Counted(source, st)
    ensures Counted(source, CloseParagraph(st))
  {
    if st.frames != [] && st.frames[|st.frames| - 1].kind.ParagraphFrame? {
      var frame := st.frames[|st.frames| - 1];
      if st.inlines != [] {
        ProcessKeepsText(st.inlines);
        ProcessKeepsMarks(st.inlines);
        hide InlineText, LinkMarks, ProcessInlines;
        PushCounts(source, ResetInlines(PopFrame(st)), Paragraph(ProcessInlines(st.inlines)),
                   SplitAdjusted(frame, st.runs.runs), st.runs.runs);
      }
    }
  }

  lemma CloseContainerCounts(source: string, st: State, end: TagEnd)
    requires Counted(source, st)
    ensures Counted(source, CloseContainer(st, end))
  {
    if st.frames != [] {
      var frame := st.frames[|st.frames| - 1];
      if frame.kind.HoldsChildren() {
        PushContainerCounts(source, PopFrame(st), NodeOf(frame.kind), frame.kind.path, frame.source);
      }
    }
  }

  lemma CloseCodeCounts(source: string, st: State)
    requires Counted(source, st)
    ensures Counted(source, CloseCode(st))
  {
    if st.code.Some? {
      var accum := st.code.value;
      PushCounts(source, st.(code := None), CodeBlock(accum.language, accum.code), Some(accum.source), accum.runs.runs);
    }
  }

  lemma EndCounts(source: string, st: State, end: TagEnd)
    requires Counted(source, st)
    ensures Counted(source, OnEnd(st, end))
  {
    hide Counted;
    match end {
      case HeadingEnd => CloseHeadingCounts(source, st);
      case ParagraphEnd => CloseParagraphCounts(source, st);
      case BlockQuoteEnd => CloseContainerCounts(source, st, end);
      case ListEnd => CloseContainerCounts(source, st, end);
      case ItemEnd =>
        FlushCounts(source, st);
        CloseContainerCounts(source, FlushPending(st), end);
      case CodeBlockEnd => CloseCodeCounts(source, st);
      case LinkEnd => CloseLinkCounts(source, st);
      case ImageEnd => CloseImageCounts(source, st);
      case _ => FormatCounts(source, st, end);
    }
  }

  lemma FormatCounts(source: string, st: State, end: TagEnd)
    requires Counted(source, st)
    requires end.MetadataEnd? || end.StrongEnd? || end.EmphasisEnd? || end.StrikethroughEnd? || end.OtherEnd?
    ensures Counted(source, OnEnd(st, end))
  {
    hide Counted, CloseHeading, CloseParagraph, CloseContainer, CloseCode, CloseImage, CloseLink, FlushPending;
    SameCounts(source, st, OnEnd(st, end));
  }

  /** Every event, whatever came before it, keeps text and runs in step. */
  lemma HandleCounts(source: string, st: State, event: Event)
    requires Counted(source, st)
    ensures Counted(source, Handle(source, st, event))
  {
    hide Counted, OnStart, OnEnd, OnText, Rendered, PushBlock, OnTask;
    match event {
      case StartEvent(tag, range) => StartCounts(source, st, tag, range);
      case EndEvent(end, _) => EndCounts(source, st, end);
      case TextEvent(text, range) => TextCounts(source, st, text, range);
      case CodeEvent(text, range) => RenderedCounts(source, st, text, true, range);
      case RuleEvent(range) =>
        DescribesNothing(source);
        PushCounts(source, st, ThematicBreak, Some(range), []);
      case BreakEvent(range) => RenderedCounts(source, st, "\n", false, range);
      case TaskEvent(checked, _) => TaskCounts(source, st, checked);
      case OtherEvent(_) =>
    }
  }

  lemma TaskCounts(source: string, st: State, checked: bool)
    requires Counted(source, st)
    ensures Counted(source, OnTask(st, checked))
  {
    hide Counted;
    SameCounts(source, st, OnTask(st, checked));
  }

  /** So at every step of any event stream, well-nested or not, the pending runs render exactly
      the pending text, every open link counts its content, and the runs of every registered leaf
      tile its rendered text; and each of these runs, unless a link or an image renders it, is
      interpolable exactly when its source reads what it renders. */
  lemma {:induction false} StreamCounts(source: string, st: State, events: seq<Event>)
    requires Counted(source, st)
    ensures Counted(source, HandleAll(source, st, events))
    decreases |events|
  {
    hide Counted, Handle;
    if events != [] {
      HandleCounts(source, st, events[0]);
      StreamCounts(source, Handle(source, st, events[0]), events[1..]);
    }
  }

  lemma InitialCounts(source: string)
    ensures Counted(source, INITIAL)
  {
  }
}
