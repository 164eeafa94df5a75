/** The parser's builder as the object it is: its methods change its fields in place, each
    exactly as the corresponding step of `BuilderModel` says. */
module Builders {
  import opened Text
  import opened Paths
  import opened Ast
  import opened Inlines
  import opened Spans
  import opened Events
  import opened Nesting
  import opened CleanStreams
  import opened BuilderModel
  import opened RunCounts
  import opened BlockTree
  import opened SpanMaps
  import opened SpanMapBuilders
  import opened CleanMaps
  import FrontMatter

  class Builder {
    const source: string
    const spans: SpanMapBuilder
    var root: seq<AstNode>
    var frames: seq<Frame>
    var inlines: seq<Inline>
    var runs: RunAccum
    var format: Format
    var code: Option<CodeAccum>
    var links: seq<LinkFrame>
    var inMetadata: bool
    var deferred: seq<Deferred>
    ghost var regs: seq<Reg>

    ghost function Model(): State
      reads this, spans
    {
      State(root, frames, inlines, runs, format, code, links, regs, spans.frontmatter, inMetadata, deferred)
    }

    ghost predicate Valid()
      reads this, spans
    {
      spans.blocks == Pushed(regs)
    }

    constructor (source: string)
      ensures Valid() && Model() == INITIAL && this.source == source && fresh(spans)
    {
      this.source := source;
      spans := new SpanMapBuilder();
      root, frames, inlines, runs := [], [], [], NO_RUNS;
      format := Format(false, false, false);
      code, links, inMetadata, deferred := None, [], false, [];
      regs := [];
      new;
      assert Pushed([]) == [];
    }

    // ----- attaching blocks

    /** `container_index`: the search from the innermost frame outwards. */
    method InnermostContainer() returns (r: Option<nat>)
      ensures r == ContainerIndex(frames)
    {
      var i := |frames|;
      assert frames[..i] == frames;
      while i > 0
        invariant 0 <= i <= |frames| && ContainerIndex(frames) == ContainerIndex(frames[..i])
      {
        assert frames[..i][..i - 1] == frames[..i - 1];
        if frames[i - 1].kind.HoldsChildren() { return Some(i - 1); }
        i := i - 1;
      }
      return None;
    }

    method PathHere() returns (p: BlockPath)
      ensures p == NextPath(frames, |root|)
    {
      var index := InnermostContainer();
      if index.None? { return [|root|]; }
      var kind := frames[index.value].kind;
      return kind.path + [|kind.nodes|];
    }

    method AttachNode(node: AstNode)
      requires Valid()
      modifies this`root, this`frames
      ensures Valid() && Model() == Attach(old(Model()), node)
    {
      var index := InnermostContainer();
      if index.None? {
        root := root + [node];
      } else {
        var frame := frames[index.value];
        frames := frames[index.value := frame.(kind := frame.kind.(nodes := frame.kind.nodes + [node]))];
      }
    }

    method Register(path: BlockPath, span: Range, blockRuns: seq<InlineRun>, ghost node: AstNode)
      requires Valid()
      modifies this`regs, spans`blocks
      ensures Valid() && Model() == old(Model()).(regs := old(regs) + [Reg(path, span, blockRuns, node)])
    {
      spans.PushBlock(path, span, blockRuns);
      regs := regs + [Reg(path, span, blockRuns, node)];
    }

    method PushNode(node: AstNode, span: Option<Range>, blockRuns: seq<InlineRun>)
      requires Valid()
      modifies this`root, this`frames, this`regs, spans`blocks
      ensures Valid() && Model() == PushBlock(old(Model()), node, span, blockRuns)
    {
      if span.Some? {
        var path := PathHere();
        Register(path, span.value, blockRuns, node);
      }
      AttachNode(node);
    }

    method PushContainerNode(node: AstNode, path: BlockPath, span: Range)
      requires Valid()
      modifies this`root, this`frames, this`regs, spans`blocks
      ensures Valid() && Model() == PushContainer(old(Model()), node, path, span)
    {
      Register(path, span, [], node);
      AttachNode(node);
    }

    // ----- inline content

    method Reset()
      requires Valid()
      modifies this`inlines, this`runs
      ensures Valid() && Model() == ResetInlines(old(Model()))
    {
      inlines := [];
      runs := NO_RUNS;
    }

    method Flush()
      requires Valid()
      modifies this, spans`blocks
      ensures Valid() && Model() == FlushPending(old(Model()))
    {
      if inlines == [] {
        runs := NO_RUNS;
        return;
      }
      var taken, content := runs.runs, ProcessInlines(inlines);
      Reset();
      PushNode(Paragraph(content), RunExtent(taken), taken);
    }

    method Emit(renderedChars: nat, range: Range, interpolable: bool)
      requires Valid()
      modifies this`links, this`runs
      ensures Valid() && Model() == EmitRun(old(Model()), renderedChars, range, interpolable)
    {
      if links != [] {
        var top := links[|links| - 1];
        links := links[|links| - 1 := top.(renderedChars := top.renderedChars + renderedChars)];
        return;
      }
      runs := runs.Push(renderedChars, range, interpolable);
    }

    method Append(element: Inline)
      requires Valid()
      modifies this`links, this`inlines
      ensures Valid() && Model() == PushInline(old(Model()), element)
    {
      if links != [] {
        var top := links[|links| - 1];
        links := links[|links| - 1 := top.(content := top.content + [element])];
      } else {
        inlines := inlines + [element];
      }
    }

    method Render(text: string, asCode: bool, range: Range)
      requires Valid()
      modifies this
      ensures Valid() && Model() == Rendered(source, old(Model()), text, asCode, range)
    {
      hide Get;
      var interpolable := Get(source, range) == Some(text);
      Emit(|text|, range, interpolable);
      Append(Run(TextRun(text, format.bold, format.italic, format.strikethrough, asCode)));
    }

    method Text(text: string, range: Range)
      requires Valid()
      modifies this
      ensures Valid() && Model() == OnText(source, old(Model()), text, range)
    {
      hide Get;
      if inMetadata || text == "" { return; }
      if code.Some? {
        var accum := code.value;
        var interpolable := Get(source, range) == Some(text);
        code := Some(accum.(code := accum.code + text, runs := accum.runs.Push(|text|, range, interpolable)));
        return;
      }
      Render(text, false, range);
    }

    // ----- links and images

    method EndLink()
      requires Valid()
      modifies this
      ensures Valid() && Model() == CloseLink(old(Model()))
    {
      if links == [] { return; }
      var frame := links[|links| - 1];
      links := links[..|links| - 1];
      if frame.renderedChars == 0 { return; }
      var content := ProcessInlines(frame.content);
      Emit(frame.renderedChars, frame.source, false);
      Append(LinkElement(frame.kind, content));
    }

    method EndImage()
      requires Valid()
      modifies this, spans`blocks
      ensures Valid() && Model() == CloseImage(old(Model()))
    {
      hide FlushPending;
      if links == [] { return; }
      var frame := links[|links| - 1];
      links := links[..|links| - 1];
      var altText := AltText(frame.content);
      var defer := false;
      if frames != [] {
        var top := frames[|frames| - 1];
        if top.kind.ParagraphFrame? || top.kind.HeadingFrame? {
          frames := frames[|frames| - 1 := top.(split := true)];
          defer := top.kind.HeadingFrame?;
        }
      }
      if !defer { Flush(); }
      var altRuns := NO_RUNS.Push(|altText|, frame.source, false);
      if !frame.kind.ImageOf? { return; }
      var node := Image(altText, frame.kind.url);
      if defer {
        deferred := deferred + [Deferred(node, frame.source, altRuns.runs)];
        return;
      }
      PushNode(node, Some(frame.source), altRuns.runs);
    }

    method Drain()
      requires Valid()
      modifies this, spans`blocks
      ensures Valid() && Model() == DrainDeferred(old(Model()))
    {
      var waiting := deferred;
      deferred := [];
      ghost var start := Model();
      assert waiting[0..] == waiting;
      hide PushBlock;
      for i := 0 to |waiting|
        invariant Valid() && DrainFrom(Model(), waiting[i..]) == DrainFrom(start, waiting)
      {
        assert waiting[i..][0] == waiting[i] && waiting[i..][1..] == waiting[i + 1..];
        PushNode(waiting[i].node, Some(waiting[i].source), waiting[i].runs);
      }
    }

    // ----- tags

    method OpenFrame(kind: FrameKind, range: Range)
      requires Valid()
      modifies this`frames
      ensures Valid() && Model() == BuilderModel.Open(old(Model()), kind, range)
    {
      frames := frames + [Frame(kind, range, false)];
    }

    method Start(tag: Tag, range: Range)
      requires Valid()
      modifies this, spans
      ensures Valid() && Model() == OnStart(old(Model()), tag, range)
    {
      hide FlushPending, NextPath, Trim;
      match tag {
        case MetadataTag =>
          spans.SetFrontmatter(range);
          inMetadata := true;
        case HeadingTag(level) =>
          Reset();
          OpenFrame(HeadingFrame(level), range);
        case ParagraphTag =>
          Reset();
          OpenFrame(ParagraphFrame, range);
        case BlockQuoteTag =>
          var path := PathHere();
          OpenFrame(BlockquoteFrame(path, []), range);
        case ListTag(start) =>
          Flush();
          var path := PathHere();
          OpenFrame(ListFrame(path, start.Some?, []), range);
        case ItemTag =>
          var path := PathHere();
          OpenFrame(ItemFrame(path, [], None), range);
        case FencedTag(info) =>
          var trimmed := Trim(info);
          code := Some(CodeAccum(if trimmed == "" then None else Some(trimmed), "", range, NO_RUNS));
        case IndentedTag => code := Some(CodeAccum(None, "", range, NO_RUNS));
        case LinkTag(target) => links := links + [LinkFrame(LinkTo(target), [], range, 0)];
        case ImageTag(url) => links := links + [LinkFrame(ImageOf(url), [], range, 0)];
        case StrongTag => format := format.(bold := true);
        case EmphasisTag => format := format.(italic := true);
        case StrikethroughTag => format := format.(strikethrough := true);
        case OtherTag(_) =>
      }
    }

    method EndHeading()
      requires Valid()
      modifies this, spans`blocks
      ensures Valid() && Model() == CloseHeading(old(Model()))
    {
      hide PushBlock, DrainFrom, ProcessInlines;
      if frames == [] { return; }
      var frame := frames[|frames| - 1];
      frames := frames[..|frames| - 1];
      if !frame.kind.HeadingFrame? { return; }
      var taken, content := runs.runs, ProcessInlines(inlines);
      Reset();
      PushNode(Heading(frame.kind.level, content), SplitAdjusted(frame, taken), taken);
      Drain();
    }

    method EndParagraph()
      requires Valid()
      modifies this, spans`blocks
      ensures Valid() && Model() == CloseParagraph(old(Model()))
    {
      hide PushBlock, ProcessInlines;
      if frames == [] { return; }
      var frame := frames[|frames| - 1];
      frames := frames[..|frames| - 1];
      if !frame.kind.ParagraphFrame? { return; }
      if inlines == [] {
        runs := NO_RUNS;
        return;
      }
      var taken, content := runs.runs, ProcessInlines(inlines);
      Reset();
      PushNode(Paragraph(content), SplitAdjusted(frame, taken), taken);
    }

    method EndContainer(end: TagEnd)
      requires Valid()
      modifies this, spans`blocks
      ensures Valid() && Model() == CloseContainer(old(Model()), end)
    {
      if frames == [] { return; }
      var frame := frames[|frames| - 1];
      frames := frames[..|frames| - 1];
      if !frame.kind.HoldsChildren() || !ClosesFrame(end, frame.kind) { return; }
      PushContainerNode(NodeOf(frame.kind), frame.kind.path, frame.source);
    }

    method EndCode()
      requires Valid()
      modifies this, spans`blocks
      ensures Valid() && Model() == CloseCode(old(Model()))
    {
      if code.None? { return; }
      var accum := code.value;
      code := None;
      PushNode(CodeBlock(accum.language, accum.code), Some(accum.source), accum.runs.runs);
    }

    method End(end: TagEnd)
      requires Valid()
      modifies this, spans`blocks
      ensures Valid() && Model() == OnEnd(old(Model()), end)
    {
      hide CloseHeading, CloseParagraph, CloseContainer, CloseCode, CloseLink, CloseImage, FlushPending;
      match end {
        case MetadataEnd => inMetadata := false;
        case HeadingEnd => EndHeading();
        case ParagraphEnd => EndParagraph();
        case BlockQuoteEnd => EndContainer(end);
        case ListEnd => EndContainer(end);
        case ItemEnd =>
          Flush();
          EndContainer(end);
        case CodeBlockEnd => EndCode();
        case LinkEnd => EndLink();
        case ImageEnd => EndImage();
        case StrongEnd => format := format.(bold := false);
        case EmphasisEnd => format := format.(italic := false);
        case StrikethroughEnd => format := format.(strikethrough := false);
        case OtherEnd(_) =>
      }
    }

    method MarkTask(checked: bool)
      requires Valid()
      modifies this`frames
      ensures Valid() && Model() == OnTask(old(Model()), checked)
    {
      if frames != [] && frames[|frames| - 1].kind.ItemFrame? {
        var top := frames[|frames| - 1];
        frames := frames[|frames| - 1 := top.(kind := top.kind.(checked := Some(checked)))];
      }
    }

    method HandleEvent(event: Event)
      requires Valid()
      modifies this, spans
      ensures Valid() && Model() == Handle(source, old(Model()), event)
    {
      hide OnStart, OnEnd, OnText, Rendered, PushBlock, OnTask;
      match event {
        case StartEvent(tag, range) => Start(tag, range);
        case EndEvent(end, _) => End(end);
        case TextEvent(text, range) => Text(text, range);
        case CodeEvent(text, range) => Render(text, true, range);
        case RuleEvent(range) => PushNode(ThematicBreak, Some(range), []);
        case BreakEvent(range) => Render("\n", false, range);
        case TaskEvent(checked, _) => MarkTask(checked);
        case OtherEvent(_) =>
      }
    }

    /** `run`: every event in turn, then the finished map. */
    method Consume(events: seq<Event>) returns (ast: seq<AstNode>, m: SpanMap)
      requires Valid() && Model() == INITIAL && WellNested(source, START, events)
      modifies this, spans
      ensures ast == HandleAll(source, INITIAL, events).root && fresh(m) && m.Valid()
      ensures Finished(Pushed(HandleAll(source, INITIAL, events).regs), m.blocks)
      ensures m.frontmatter == FrontMatter.LastFront(events)
    {
      hide Handle;
      assert events[0..] == events;
      for i := 0 to |events|
        invariant Valid() && HandleAll(source, Model(), events[i..]) == HandleAll(source, INITIAL, events)
      {
        assert events[i..][0] == events[i] && events[i..][1..] == events[i + 1..];
        HandleEvent(events[i]);
      }
      assert Model() == HandleAll(source, INITIAL, events);
      PushedDistinct(source, events);
      FrontMatter.FrontIsLast(source, INITIAL, events);
      hide HandleAll;
      ast := root;
      m := spans.Finish();
    }
  }

  lemma PushedDistinct(source: string, events: seq<Event>)
    requires WellNested(source, START, events)
    ensures DistinctPaths(Pushed(HandleAll(source, INITIAL, events).regs))
  {
    hide HandleAll, Walk, RegCounted;
    StreamRegistersTree(source, events);
    RegisteredOnce(source, HandleAll(source, INITIAL, events).root, HandleAll(source, INITIAL, events).regs);
  }

  lemma {:induction false} RegisteredOnce(source: string, ast: seq<AstNode>, regs: seq<Reg>)
    requires CleanMaps.RegistersTree(source, ast, regs)
    ensures DistinctPaths(Pushed(regs))
  {
    hide Walk, RegCounted, HasReg;
    forall i, j | 0 <= i < |regs| && 0 <= j < |regs| && i != j ensures Pushed(regs)[i].path != Pushed(regs)[j].path {
      assert Pushed(regs)[i].path == regs[i].path && Pushed(regs)[j].path == regs[j].path;
      var a, b := if i < j then i else j, if i < j then j else i;
      assert regs[a].path != regs[b].path;
    }
  }

  /** Parsing a note: the tree and the map agree block by block on every well-nested stream, and
      on every clean one the map is coherent. */
  method Parse(source: string, events: seq<Event>) returns (ast: seq<AstNode>, m: SpanMap)
    requires WellNested(source, START, events)
    ensures ast == HandleAll(source, INITIAL, events).root && fresh(m) && m.Valid() && TreeShape(m.blocks)
    ensures forall i :: 0 <= i < |m.blocks| ==> Walk(ast, m.blocks[i].path).Some?
    ensures forall i :: 0 <= i < |m.blocks| && WhollyRegistered(m.blocks, Walk(ast, m.blocks[i].path).value, m.blocks[i].path) ==>
              m.blocks[i].renderedLen == |RenderedText(Walk(ast, m.blocks[i].path).value)|
    ensures Clean(source, START_CARE, events) && ByteLen(source) <= ISIZE_MAX ==> Coherent(source, m.blocks, {})
  {
    hide *;
    var builder := new Builder(source);
    ast, m := builder.Consume(events);
    MapIsRight(source, events, m.blocks);
  }

  lemma MapIsRight(source: string, events: seq<Event>, blocks: seq<BlockSpan>)
    requires WellNested(source, START, events)
    requires Finished(Pushed(HandleAll(source, INITIAL, events).regs), blocks)
    ensures TreeShape(blocks)
    ensures var ast := HandleAll(source, INITIAL, events).root;
            forall i :: 0 <= i < |blocks| ==>
              Walk(ast, blocks[i].path).Some?
              && (WhollyRegistered(blocks, Walk(ast, blocks[i].path).value, blocks[i].path) ==>
                    blocks[i].renderedLen == |RenderedText(Walk(ast, blocks[i].path).value)|)
    ensures Clean(source, START_CARE, events) && ByteLen(source) <= ISIZE_MAX ==> Coherent(source, blocks, {})
  {
    hide Coherent, TreeShape, Clean, HandleAll, WhollyRegistered, Walk, RenderedText, CleanMaps.RegistersTree, ByteLen, WellNested;
    StreamRegistersTree(source, events);
    var st := HandleAll(source, INITIAL, events);
    FinishedTree(source, st.root, st.regs, blocks);
    forall i | 0 <= i < |blocks| {
      StreamLengths(source, events, blocks, i);
    }
    if Clean(source, START_CARE, events) && ByteLen(source) <= ISIZE_MAX {
      CleanStreamsAreCoherent(source, events, blocks);
    }
  }
}
