/** The parser's builder as a function of its state: one step per event, building the AST and
    registering block spans in the same pass. */
module BuilderModel {
  import opened Text
  import opened Paths
  import opened Ast
  import opened Inlines
  import opened Spans
  import opened Events

  datatype Format = Format(bold: bool, italic: bool, strikethrough: bool)

  datatype LinkKind = LinkTo(target: LinkTarget) | ImageOf(url: string)

  /** An open link or image: its content so far, and how many characters it renders. */
  datatype LinkFrame = LinkFrame(kind: LinkKind, content: seq<Inline>, source: Range, renderedChars: nat)

  /** The inline runs of the block being built. */
  datatype RunAccum = RunAccum(runs: seq<InlineRun>, renderedLen: nat)
  {
    /** Zero-width runs are dropped. */
    function Push(renderedChars: nat, source: Range, interpolable: bool): RunAccum {
      if renderedChars == 0 then this
      else RunAccum(runs + [InlineRun(Range(renderedLen, renderedLen + renderedChars), source, interpolable)],
                    renderedLen + renderedChars)
    }
  }

  const NO_RUNS := RunAccum([], 0)

  datatype CodeAccum = CodeAccum(language: Option<string>, code: string, source: Range, runs: RunAccum)

  datatype FrameKind =
    | HeadingFrame(level: nat)
    | ParagraphFrame
    | BlockquoteFrame(path: BlockPath, nodes: seq<AstNode>)
    | ListFrame(path: BlockPath, ordered: bool, nodes: seq<AstNode>)
    | ItemFrame(path: BlockPath, nodes: seq<AstNode>, checked: Option<bool>)
  {
    predicate HoldsChildren() {
      BlockquoteFrame? || ListFrame? || ItemFrame?
    }
  }

  datatype Frame = Frame(kind: FrameKind, source: Range, split: bool)

  /** A block waiting for its heading to close. */
  datatype Deferred = Deferred(node: AstNode, source: Range, runs: seq<InlineRun>)

  /** One registration in the span map, and the node it was made for. */
  datatype Reg = Reg(path: BlockPath, source: Range, runs: seq<InlineRun>, node: AstNode)

  datatype State = State(
    root: seq<AstNode>,
    frames: seq<Frame>,
    inlines: seq<Inline>,
    runs: RunAccum,
    format: Format,
    code: Option<CodeAccum>,
    links: seq<LinkFrame>,
    regs: seq<Reg>,
    frontmatter: Option<Range>,
    inMetadata: bool,
    deferred: seq<Deferred>)

  const INITIAL := State([], [], [], NO_RUNS, Format(false, false, false), None, [], [], None, false, [])

  // ----- attaching blocks

  /** The innermost frame that holds block children. */
  function ContainerIndex(frames: seq<Frame>): (r: Option<nat>)
    ensures r.Some? ==> r.value < |frames| && frames[r.value].kind.HoldsChildren()
    ensures r.None? ==> forall i :: 0 <= i < |frames| ==> !frames[i].kind.HoldsChildren()
  {
    if frames == [] then None
    else if frames[|frames| - 1].kind.HoldsChildren() then Some(|frames| - 1)
    else ContainerIndex(frames[..|frames| - 1])
  }

  /** The path the next block attached here will have. */
  function NextPath(frames: seq<Frame>, rootLen: nat): BlockPath {
    match ContainerIndex(frames)
    case None => [rootLen]
    case Some(i) => frames[i].kind.path + [|frames[i].kind.nodes|]
  }

  function AttachIn(frames: seq<Frame>, node: AstNode): seq<Frame> {
    match ContainerIndex(frames)
    case None => frames
    case Some(i) =>
      var kind := frames[i].kind;
      frames[i := frames[i].(kind := kind.(nodes := kind.nodes + [node]))]
  }

  function Attach(st: State, node: AstNode): State {
    if ContainerIndex(st.frames).None? then st.(root := st.root + [node])
    else st.(frames := AttachIn(st.frames, node))
  }

  function PushBlock(st: State, node: AstNode, source: Option<Range>, runs: seq<InlineRun>): State {
    match source
    case None => Attach(st, node)
    case Some(r) =>
      var reg := Reg(NextPath(st.frames, |st.root|), r, runs, node);
      Attach(st.(regs := st.regs + [reg]), node)
  }

  function PushContainer(st: State, node: AstNode, path: BlockPath, source: Range): State {
    Attach(st.(regs := st.regs + [Reg(path, source, [], node)]), node)
  }

  // ----- inline content

  function ResetInlines(st: State): State {
    st.(inlines := [], runs := NO_RUNS)
  }

  function RunExtent(runs: seq<InlineRun>): Option<Range> {
    if runs == [] then None else Some(Range(runs[0].source.start, runs[|runs| - 1].source.end))
  }

  /** The range to register for a heading or paragraph: its tag's, unless an image was hoisted
      out of it. */
  function SplitAdjusted(frame: Frame, runs: seq<InlineRun>): Option<Range> {
    if frame.split then RunExtent(runs) else Some(frame.source)
  }

  function FlushPending(st: State): State {
    if st.inlines == [] then st.(runs := NO_RUNS)
    else PushBlock(ResetInlines(st), Paragraph(ProcessInlines(st.inlines)), RunExtent(st.runs.runs), st.runs.runs)
  }

  function EmitRun(st: State, renderedChars: nat, source: Range, interpolable: bool): State {
    if st.links != [] then
      var top := st.links[|st.links| - 1];
      st.(links := st.links[|st.links| - 1 := top.(renderedChars := top.renderedChars + renderedChars)])
    else st.(runs := st.runs.Push(renderedChars, source, interpolable))
  }

  function PushInline(st: State, element: Inline): State {
    if st.links != [] then
      var top := st.links[|st.links| - 1];
      st.(links := st.links[|st.links| - 1 := top.(content := top.content + [element])])
    else st.(inlines := st.inlines + [element])
  }

  function PushRun(source: string, st: State, rendered: string, range: Range): State {
    EmitRun(st, |rendered|, range, Get(source, range) == Some(rendered))
  }

  function StyledAs(st: State, content: string, code: bool): Inline {
    Run(TextRun(content, st.format.bold, st.format.italic, st.format.strikethrough, code))
  }

  function Rendered(source: string, st: State, text: string, code: bool, range: Range): State {
    PushInline(PushRun(source, st, text, range), StyledAs(st, text, code))
  }

  function OnText(source: string, st: State, text: string, range: Range): State {
    if st.inMetadata || text == "" then st
    else if st.code.Some? then
      var accum := st.code.value;
      st.(code := Some(accum.(code := accum.code + text,
                              runs := accum.runs.Push(|text|, range, Get(source, range) == Some(text)))))
    else Rendered(source, st, text, false, range)
  }

  // ----- links and images

  function LinkElement(kind: LinkKind, content: seq<Inline>): Inline {
    match kind
    case LinkTo(Internal(id)) => Link(id, false, content)
    case LinkTo(External(url)) => ExternalLink(url, content)
    case ImageOf(url) => ExternalLink(url, content)
  }

  function PopLink(st: State): State
    requires st.links != []
  {
    st.(links := st.links[..|st.links| - 1])
  }

  function CloseLink(st: State): State {
    if st.links == [] then st
    else
      var frame := st.links[|st.links| - 1];
      if frame.renderedChars == 0 then PopLink(st)
      else PushInline(EmitRun(PopLink(st), frame.renderedChars, frame.source, false),
                      LinkElement(frame.kind, ProcessInlines(frame.content)))
  }

  /** The text an image's content leaves: its own runs, without what is inside links. */
  function AltText(content: seq<Inline>): string {
    if content == [] then ""
    else (if content[0].Run? then content[0].run.content else "") + AltText(content[1..])
  }

  function MarkSplit(frames: seq<Frame>): seq<Frame> {
    if frames != [] && (frames[|frames| - 1].kind.ParagraphFrame? || frames[|frames| - 1].kind.HeadingFrame?)
    then frames[|frames| - 1 := frames[|frames| - 1].(split := true)]
    else frames
  }

  predicate InHeading(frames: seq<Frame>) {
    frames != [] && frames[|frames| - 1].kind.HeadingFrame?
  }

  function CloseImage(st: State): State {
    if st.links == [] then st
    else
      var frame := st.links[|st.links| - 1];
      var altText := AltText(frame.content);
      var defer := InHeading(st.frames);
      var marked := PopLink(st).(frames := MarkSplit(st.frames));
      var st' := if defer then marked else FlushPending(marked);
      var runs := NO_RUNS.Push(|altText|, frame.source, false).runs;
      if !frame.kind.ImageOf? then st'
      else
        var node := Image(altText, frame.kind.url);
        if defer then st'.(deferred := st'.deferred + [Deferred(node, frame.source, runs)])
        else PushBlock(st', node, Some(frame.source), runs)
  }

  function DrainFrom(st: State, waiting: seq<Deferred>): State
    decreases |waiting|
  {
    if waiting == [] then st
    else DrainFrom(PushBlock(st, waiting[0].node, Some(waiting[0].source), waiting[0].runs), waiting[1..])
  }

  function DrainDeferred(st: State): State {
    DrainFrom(st.(deferred := []), st.deferred)
  }

  // ----- tags

  function Open(st: State, kind: FrameKind, source: Range): State {
    st.(frames := st.frames + [Frame(kind, source, false)])
  }

  function OpenLink(st: State, kind: LinkKind, source: Range): State {
    st.(links := st.links + [LinkFrame(kind, [], source, 0)])
  }

  function OpenCode(st: State, language: Option<string>, source: Range): State {
    st.(code := Some(CodeAccum(language, "", source, NO_RUNS)))
  }

  function OnStart(st: State, tag: Tag, range: Range): State {
    match tag
    case MetadataTag => st.(frontmatter := Some(range), inMetadata := true)
    case HeadingTag(level) => Open(ResetInlines(st), HeadingFrame(level), range)
    case ParagraphTag => Open(ResetInlines(st), ParagraphFrame, range)
    case BlockQuoteTag => Open(st, BlockquoteFrame(NextPath(st.frames, |st.root|), []), range)
    case ListTag(start) =>
      var st' := FlushPending(st);
      Open(st', ListFrame(NextPath(st'.frames, |st'.root|), start.Some?, []), range)
    case ItemTag => Open(st, ItemFrame(NextPath(st.frames, |st.root|), [], None), range)
    case FencedTag(info) => OpenCode(st, if Trim(info) == "" then None else Some(Trim(info)), range)
    case IndentedTag => OpenCode(st, None, range)
    case LinkTag(target) => OpenLink(st, LinkTo(target), range)
    case ImageTag(url) => OpenLink(st, ImageOf(url), range)
    case StrongTag => st.(format := st.format.(bold := true))
    case EmphasisTag => st.(format := st.format.(italic := true))
    case StrikethroughTag => st.(format := st.format.(strikethrough := true))
    case OtherTag(_) => st
  }

  function PopFrame(st: State): State
    requires st.frames != []
  {
    st.(frames := st.frames[..|st.frames| - 1])
  }

  function CloseHeading(st: State): State {
    if st.frames == [] then st
    else
      var frame := st.frames[|st.frames| - 1];
      var popped := PopFrame(st);
      if !frame.kind.HeadingFrame? then popped
      else
        var node := Heading(frame.kind.level, ProcessInlines(st.inlines));
        DrainDeferred(PushBlock(ResetInlines(popped), node, SplitAdjusted(frame, st.runs.runs), st.runs.runs))
  }

  function CloseParagraph(st: State): State {
    if st.frames == [] then st
    else
      var frame := st.frames[|st.frames| - 1];
      var popped := PopFrame(st);
      if !frame.kind.ParagraphFrame? then popped
      else if st.inlines == [] then popped.(runs := NO_RUNS)
      else
        var node := Paragraph(ProcessInlines(st.inlines));
        PushBlock(ResetInlines(popped), node, SplitAdjusted(frame, st.runs.runs), st.runs.runs)
  }

  function NodeOf(kind: FrameKind): AstNode
    requires kind.HoldsChildren()
  {
    match kind
    case BlockquoteFrame(_, nodes) => Blockquote(nodes)
    case ListFrame(_, ordered, nodes) => List(ordered, nodes)
    case ItemFrame(_, nodes, checked) => ListItem(nodes, checked)
  }

  /** Whether an end tag closes a frame of this kind. */
  predicate ClosesFrame(end: TagEnd, kind: FrameKind) {
    match kind
    case HeadingFrame(_) => end.HeadingEnd?
    case ParagraphFrame => end.ParagraphEnd?
    case BlockquoteFrame(_, _) => end.BlockQuoteEnd?
    case ListFrame(_, _, _) => end.ListEnd?
    case ItemFrame(_, _, _) => end.ItemEnd?
  }

  function CloseContainer(st: State, end: TagEnd): State {
    if st.frames == [] then st
    else
      var frame := st.frames[|st.frames| - 1];
      var popped := PopFrame(st);
      if frame.kind.HoldsChildren() && ClosesFrame(end, frame.kind)
      then PushContainer(popped, NodeOf(frame.kind), frame.kind.path, frame.source)
      else popped
  }

  function CloseCode(st: State): State {
    match st.code
    case None => st
    case Some(accum) =>
      PushBlock(st.(code := None), CodeBlock(accum.language, accum.code), Some(accum.source), accum.runs.runs)
  }

  function OnEnd(st: State, end: TagEnd): State {
    match end
    case MetadataEnd => st.(inMetadata := false)
    case HeadingEnd => CloseHeading(st)
    case ParagraphEnd => CloseParagraph(st)
    case BlockQuoteEnd => CloseContainer(st, end)
    case ListEnd => CloseContainer(st, end)
    case ItemEnd => CloseContainer(FlushPending(st), end)
    case CodeBlockEnd => CloseCode(st)
    case LinkEnd => CloseLink(st)
    case ImageEnd => CloseImage(st)
    case StrongEnd => st.(format := st.format.(bold := false))
    case EmphasisEnd => st.(format := st.format.(italic := false))
    case StrikethroughEnd => st.(format := st.format.(strikethrough := false))
    case OtherEnd(_) => st
  }

  function OnTask(st: State, checked: bool): State {
    if st.frames != [] && st.frames[|st.frames| - 1].kind.ItemFrame? then
      var top := st.frames[|st.frames| - 1];
      st.(frames := st.frames[|st.frames| - 1 := top.(kind := top.kind.(checked := Some(checked)))])
    else st
  }

  function Handle(source: string, st: State, event: Event): State {
    match event
    case StartEvent(tag, range) => OnStart(st, tag, range)
    case EndEvent(end, _) => OnEnd(st, end)
    case TextEvent(text, range) => OnText(source, st, text, range)
    case CodeEvent(text, range) => Rendered(source, st, text, true, range)
    case RuleEvent(range) => PushBlock(st, ThematicBreak, Some(range), [])
    case BreakEvent(range) => Rendered(source, st, "\n", false, range)
    case TaskEvent(checked, _) => OnTask(st, checked)
    case OtherEvent(_) => st
  }

  function HandleAll(source: string, st: State, events: seq<Event>): State
    decreases |events|
  {
    if events == [] then st else HandleAll(source, Handle(source, st, events[0]), events[1..])
  }
}
