/** Clean streams: the well-nested streams whose blocks the builder keeps in document order. */
module CleanStreams {
  import opened Text
  import opened Events
  import opened Nesting

  /** An open link or image: whether it is an image, has rendered text of its own, and has had an
      image close inside it. */
  datatype Mark = Mark(image: bool, text: bool, holds: bool)

  /** What there is to watch: open links, text waiting outside any paragraph or heading, and an
      image closed inside the open heading. */
  datatype Care = Care(nest: Nest, marks: seq<Mark>, pending: bool, pictured: bool)

  const START_CARE := Care(START, [], false, false)

  predicate IsLeafTag(tag: Tag) {
    tag.HeadingTag? || tag.ParagraphTag?
  }

  predicate IsCodeTag(tag: Tag) {
    tag.FencedTag? || tag.IndentedTag?
  }

  predicate IsBlockTag(tag: Tag) {
    IsLeafTag(tag) || IsCodeTag(tag) || tag.BlockQuoteTag? || tag.ListTag? || tag.ItemTag? || tag.MetadataTag?
  }

  /** A paragraph or heading is open. */
  predicate InLeaf(stack: seq<Open>) {
    stack != [] && (IsLeafTag(stack[|stack| - 1].tag) || InLeaf(stack[..|stack| - 1]))
  }

  predicate UnderHeading(stack: seq<Open>) {
    stack != [] && (stack[|stack| - 1].tag.HeadingTag? || UnderHeading(stack[..|stack| - 1]))
  }

  predicate InCode(stack: seq<Open>) {
    stack != [] && IsCodeTag(stack[|stack| - 1].tag)
  }

  predicate InMetadata(stack: seq<Open>) {
    stack != [] && stack[|stack| - 1].tag.MetadataTag?
  }

  /** Text in code and metadata goes elsewhere. */
  predicate Verbatim(stack: seq<Open>) {
    InCode(stack) || InMetadata(stack)
  }

  /** In a heading, no text may be rendered after an image. */
  predicate MayRender(c: Care) {
    c.marks == [] ==> !(UnderHeading(c.nest.stack) && c.pictured)
  }

  /** What a clean stream avoids, on top of what a well-nested one does:
      - blocks inside paragraphs, headings, code, metadata or links (the CommonMark content model);
      - text still waiting when a block quote, item, code block or rule arrives or a block quote or
        list ends, since only a list start and an item end flush it;
      - an image inside an image, and text in a link that an image has closed in;
      - text after an image in a heading. */
  predicate Avoids(c: Care, e: Event) {
    var stack := c.nest.stack;
    match e
    case StartEvent(tag, _) =>
      && !Verbatim(stack)
      && (IsBlockTag(tag) ==> !InLeaf(stack) && c.marks == [])
      && (tag.BlockQuoteTag? || tag.ItemTag? || IsCodeTag(tag) ==> !c.pending)
      && (tag.ImageTag? ==> forall i :: 0 <= i < |c.marks| ==> !c.marks[i].image)
    case EndEvent(end, _) =>
      && (end.BlockQuoteEnd? || end.ListEnd? ==> !c.pending)
      && (end.LinkEnd? && c.marks != [] && c.marks[|c.marks| - 1].text ==>
            !c.marks[|c.marks| - 1].holds &&
            (|c.marks| == 1 ==> !(UnderHeading(stack) && c.pictured)))
    case TextEvent(_, _) => Verbatim(stack) || MayRender(c)
    case CodeEvent(_, _) => !Verbatim(stack) && MayRender(c)
    case BreakEvent(_) => !Verbatim(stack) && MayRender(c)
    case RuleEvent(_) => !Verbatim(stack) && !InLeaf(stack) && c.marks == [] && !c.pending
    case _ => true
  }

  /** Text rendered here belongs to the innermost link, to the open leaf, or waits. */
  function Render(c: Care): Care {
    if c.marks != [] then c.(marks := c.marks[|c.marks| - 1 := c.marks[|c.marks| - 1].(text := true)])
    else if InLeaf(c.nest.stack) then c
    else c.(pending := true)
  }

  function PopMark(c: Care): Care {
    if c.marks == [] then c else c.(marks := c.marks[..|c.marks| - 1])
  }

  function AllHold(marks: seq<Mark>): seq<Mark> {
    seq(|marks|, i requires 0 <= i < |marks| => marks[i].(holds := true))
  }

  /** What to watch after an event, apart from the nesting. */
  function Watch(c: Care, e: Event): Care {
    match e
    case StartEvent(tag, _) =>
      if tag.LinkTag? then c.(marks := c.marks + [Mark(false, false, false)])
      else if tag.ImageTag? then c.(marks := c.marks + [Mark(true, false, false)])
      else if IsLeafTag(tag) || tag.ListTag? then c.(pending := false, pictured := false)
      else c
    case EndEvent(end, _) =>
      if end.LinkEnd? then
        if c.marks != [] && c.marks[|c.marks| - 1].text then Render(PopMark(c)) else PopMark(c)
      else if end.ImageEnd? then
        var popped := PopMark(c).(marks := AllHold(PopMark(c).marks));
        if UnderHeading(c.nest.stack) then popped.(pictured := true) else popped.(pending := false)
      else if end.HeadingEnd? then c.(pictured := false)
      else if end.ItemEnd? then c.(pending := false)
      else c
    case TextEvent(_, _) => if Verbatim(c.nest.stack) then c else Render(c)
    case CodeEvent(_, _) => Render(c)
    case BreakEvent(_) => Render(c)
    case _ => c
  }

  function Next(c: Care, e: Event): Care {
    Watch(c, e).(nest := Advance(c.nest, e))
  }

  ghost predicate Clean(source: string, c: Care, events: seq<Event>)
    decreases |events|
  {
    if events == [] then c.nest.stack == []
    else Allows(source, c.nest, events[0]) && Avoids(c, events[0]) && Clean(source, Next(c, events[0]), events[1..])
  }

  /** A clean stream is well-nested. */
  lemma {:induction false} CleanIsWellNested(source: string, c: Care, events: seq<Event>)
    requires Clean(source, c, events)
    ensures WellNested(source, c.nest, events)
    decreases |events|
  {
    if events != [] { CleanIsWellNested(source, Next(c, events[0]), events[1..]); }
  }
}
