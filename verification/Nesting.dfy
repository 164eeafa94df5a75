/** Well-nested event streams: every end closes the innermost open tag, ranges nest, siblings do
    not overlap, and text is not empty. */
module Nesting {
  import opened Text
  import opened Events

  datatype Open = Open(tag: Tag, source: Range)

  /** The tags open at a point of the stream, and the byte up to which it has been consumed. */
  datatype Nest = Nest(stack: seq<Open>, cursor: nat)

  /** A non-empty piece of the source that starts no earlier than the cursor and lies inside the
      innermost open tag. */
  ghost predicate FitsAt(source: string, n: Nest, r: Range) {
    && n.cursor <= r.start < r.end && Get(source, r).Some?
    && (n.stack != [] ==> r.end <= n.stack[|n.stack| - 1].source.end)
  }

  ghost predicate Allows(source: string, n: Nest, e: Event) {
    match e
    case EndEvent(end, r) =>
      n.stack != [] && EndOf(n.stack[|n.stack| - 1].tag) == end && n.stack[|n.stack| - 1].source == r
    case TextEvent(text, r) => text != "" && FitsAt(source, n, r)
    case _ => FitsAt(source, n, e.range)
  }

  function Advance(n: Nest, e: Event): Nest {
    match e
    case StartEvent(tag, r) => Nest(n.stack + [Open(tag, r)], r.start)
    case EndEvent(_, r) => Nest(if n.stack == [] then [] else n.stack[..|n.stack| - 1], r.end)
    case _ => Nest(n.stack, e.range.end)
  }

  /** The stream closes everything it opens, from the given point on. */
  ghost predicate WellNested(source: string, n: Nest, events: seq<Event>)
    decreases |events|
  {
    if events == [] then n.stack == []
    else Allows(source, n, events[0]) && WellNested(source, Advance(n, events[0]), events[1..])
  }

  const START := Nest([], 0)
}
