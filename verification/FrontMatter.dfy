/** The front matter's range: that of the last metadata block begun. */
module FrontMatter {
  import opened Text
  import opened Events
  import opened BuilderModel
  import opened Ast
  import opened Spans
  import Inlines

  /** The range the last metadata block's start tag carries. */
  function LastFront(events: seq<Event>): Option<Range> {
    if events == [] then None
    else
      var last := events[|events| - 1];
      if last.StartEvent? && last.tag.MetadataTag? then Some(last.range) else LastFront(events[..|events| - 1])
  }

  lemma PushLeaves(st: State, node: AstNode, source: Option<Range>, runs: seq<InlineRun>)
    ensures PushBlock(st, node, source, runs).frontmatter == st.frontmatter
  {
    hide ContainerIndex, AttachIn, NextPath;
  }

  lemma FlushLeaves(st: State)
    ensures FlushPending(st).frontmatter == st.frontmatter
  {
    hide PushBlock;
    PushLeaves(ResetInlines(st), Paragraph(Inlines.ProcessInlines(st.inlines)), RunExtent(st.runs.runs), st.runs.runs);
  }

  lemma {:induction false} DrainLeaves(st: State, waiting: seq<Deferred>)
    ensures DrainFrom(st, waiting).frontmatter == st.frontmatter
    decreases |waiting|
  {
    hide PushBlock;
    if waiting != [] {
      PushLeaves(st, waiting[0].node, Some(waiting[0].source), waiting[0].runs);
      DrainLeaves(PushBlock(st, waiting[0].node, Some(waiting[0].source), waiting[0].runs), waiting[1..]);
    }
  }

  lemma StartFront(st: State, tag: Tag, range: Range)
    ensures OnStart(st, tag, range).frontmatter == if tag.MetadataTag? then Some(range) else st.frontmatter
  {
    hide FlushPending, NextPath, Trim;
    FlushLeaves(st);
  }

  lemma CloseLeafLeaves(st: State)
    ensures CloseHeading(st).frontmatter == st.frontmatter && CloseParagraph(st).frontmatter == st.frontmatter
  {
    hide PushBlock, DrainFrom, Inlines.ProcessInlines;
    if st.frames != [] {
      var frame, text := st.frames[|st.frames| - 1], ResetInlines(PopFrame(st));
      var content := Inlines.ProcessInlines(st.inlines);
      PushLeaves(text, Paragraph(content), SplitAdjusted(frame, st.runs.runs), st.runs.runs);
      if frame.kind.HeadingFrame? {
        var node := Heading(frame.kind.level, content);
        var pushed := PushBlock(text, node, SplitAdjusted(frame, st.runs.runs), st.runs.runs);
        PushLeaves(text, node, SplitAdjusted(frame, st.runs.runs), st.runs.runs);
        DrainLeaves(pushed.(deferred := []), pushed.deferred);
      }
    }
  }

  lemma CloseContainerLeaves(st: State, end: TagEnd)
    ensures CloseContainer(st, end).frontmatter == st.frontmatter
  {
    hide ContainerIndex, AttachIn;
  }

  lemma CloseCodeLeaves(st: State)
    ensures CloseCode(st).frontmatter == st.frontmatter
  {
    hide PushBlock;
    if st.code.Some? {
      var accum := st.code.value;
      PushLeaves(st.(code := None), CodeBlock(accum.language, accum.code), Some(accum.source), accum.runs.runs);
    }
  }

  lemma CloseImageLeaves(st: State)
    ensures CloseImage(st).frontmatter == st.frontmatter
  {
    hide PushBlock, FlushPending, AltText, MarkSplit;
    if st.links != [] {
      var frame := st.links[|st.links| - 1];
      var marked := PopLink(st).(frames := MarkSplit(st.frames));
      var altText := AltText(frame.content);
      FlushLeaves(marked);
      if frame.kind.ImageOf? {
        PushLeaves(FlushPending(marked), Image(altText, frame.kind.url), Some(frame.source), NO_RUNS.Push(|altText|, frame.source, false).runs);
      }
    }
  }

  lemma CloseLinkLeaves(st: State)
    ensures CloseLink(st).frontmatter == st.frontmatter
  {
    hide Inlines.ProcessInlines, LinkElement;
  }

  lemma EndLeaves(st: State, end: TagEnd)
    ensures OnEnd(st, end).frontmatter == st.frontmatter
  {
    hide CloseHeading, CloseParagraph, CloseContainer, CloseCode, CloseImage, CloseLink, FlushPending;
    CloseLeafLeaves(st);
    CloseContainerLeaves(st, end);
    FlushLeaves(st);
    CloseContainerLeaves(FlushPending(st), end);
    CloseCodeLeaves(st);
    CloseImageLeaves(st);
    CloseLinkLeaves(st);
  }

  lemma HandleFront(source: string, st: State, e: Event)
    ensures Handle(source, st, e).frontmatter == if e.StartEvent? && e.tag.MetadataTag? then Some(e.range) else st.frontmatter
  {
    hide OnStart, OnEnd, PushBlock;
    match e
    case StartEvent(tag, range) => StartFront(st, tag, range);
    case EndEvent(end, _) => EndLeaves(st, end);
    case RuleEvent(range) => PushLeaves(st, ThematicBreak, Some(range), []);
    case _ =>
  }

  lemma {:induction false} FirstFront(e: Event, rest: seq<Event>)
    ensures LastFront([e] + rest) ==
            if LastFront(rest).Some? then LastFront(rest) else if e.StartEvent? && e.tag.MetadataTag? then Some(e.range) else None
    decreases |rest|
  {
    if rest == [] {
      assert ([e] + rest)[..0] == [];
    } else {
      assert ([e] + rest)[..|rest|] == [e] + rest[..|rest| - 1];
      FirstFront(e, rest[..|rest| - 1]);
    }
  }

  /** After any stream the front matter is the last metadata block's range, if there was one. */
  lemma {:induction false} FrontIsLast(source: string, st: State, events: seq<Event>)
    ensures HandleAll(source, st, events).frontmatter == if LastFront(events).Some? then LastFront(events) else st.frontmatter
    decreases |events|
  {
    hide Handle, LastFront;
    if events == [] {
      assert LastFront(events) == None by { NoFront(); }
    } else {
      assert events == [events[0]] + events[1..];
      FirstFront(events[0], events[1..]);
      HandleFront(source, st, events[0]);
      FrontIsLast(source, Handle(source, st, events[0]), events[1..]);
    }
  }

  lemma NoFront()
    ensures LastFront([]) == None
  {
  }
}
