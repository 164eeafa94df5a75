/** Documents whose events are clean: what to ask of the ranges, and of where text and images
    stand, so that the builder keeps their blocks in document order. */
module CleanDocuments {
  import opened Text
  import opened Ast
  import opened Events
  import opened Nesting
  import opened CleanStreams
  import opened BuilderModel
  import opened BlockTree
  import opened Documents
  import SpanOrderFlags
  import CleanMaps
  import DocumentTheorems
  import opened Spans
  import SpanMapBuilders

  // ----- ranges

  /** A non-empty piece of the source between two bytes. */
  ghost predicate Within(source: string, cursor: nat, to: nat, r: Range) {
    cursor <= r.start < r.end <= to && Get(source, r).Some?
  }

  ghost predicate PiecePlaced(source: string, p: Piece, cursor: nat, to: nat)
    decreases p, 1
  {
    Within(source, cursor, to, p.range)
    && match p
       case Words(text, _) => text != ""
       case InStyle(_, content, range) => PiecesPlaced(source, content, range.start, range.end)
       case Linked(_, content, range) => PiecesPlaced(source, content, range.start, range.end)
       case Pictured(_, alt, range) => PiecesPlaced(source, alt, range.start, range.end)
       case _ => true
  }

  /** One after the other, without overlap. */
  ghost predicate PiecesPlaced(source: string, pieces: seq<Piece>, cursor: nat, to: nat)
    decreases pieces, 0
  {
    pieces == [] || (PiecePlaced(source, pieces[0], cursor, to) && PiecesPlaced(source, pieces[1..], pieces[0].range.end, to))
  }

  function EndOfPieces(pieces: seq<Piece>, cursor: nat): nat {
    if pieces == [] then cursor else EndOfPieces(pieces[1..], pieces[0].range.end)
  }

  ghost predicate TextsPlaced(source: string, texts: seq<(string, Range)>, cursor: nat, to: nat)
    decreases |texts|
  {
    texts == [] || (texts[0].0 != "" && Within(source, cursor, to, texts[0].1) && TextsPlaced(source, texts[1..], texts[0].1.end, to))
  }

  function EndOfTexts(texts: seq<(string, Range)>, cursor: nat): nat
    decreases |texts|
  {
    if texts == [] then cursor else EndOfTexts(texts[1..], texts[0].1.end)
  }

  ghost predicate BlockPlaced(source: string, b: Block, cursor: nat, to: nat)
    decreases b, 1
  {
    Within(source, cursor, to, b.range)
    && match b
       case Head(_, content, range) => PiecesPlaced(source, content, range.start, range.end)
       case Para(content, range) => PiecesPlaced(source, content, range.start, range.end)
       case Quote(blocks, range) => BlocksPlaced(source, blocks, range.start, range.end)
       case Listing(_, items, range) => ItemsPlaced(source, items, range.start, range.end)
       case Code(_, texts, range) => TextsPlaced(source, texts, range.start, range.end)
       case Front(texts, range) => TextsPlaced(source, texts, range.start, range.end)
       case _ => true
  }

  ghost predicate BlocksPlaced(source: string, blocks: seq<Block>, cursor: nat, to: nat)
    decreases blocks, 0
  {
    blocks == [] || (BlockPlaced(source, blocks[0], cursor, to) && BlocksPlaced(source, blocks[1..], blocks[0].range.end, to))
  }

  function EndOfBlocks(blocks: seq<Block>, cursor: nat): nat {
    if blocks == [] then cursor else EndOfBlocks(blocks[1..], blocks[0].range.end)
  }

  ghost predicate ItemPlaced(source: string, item: Item, cursor: nat, to: nat)
    decreases item, 1
  {
    Within(source, cursor, to, item.range)
    && (item.task.Some? ==> Within(source, item.range.start, item.range.end, item.task.value.range))
    && PartsPlaced(source, item.parts, AfterTask(item), item.range.end)
  }

  function AfterTask(item: Item): nat {
    if item.task.Some? then item.task.value.range.end else item.range.start
  }

  ghost predicate ItemsPlaced(source: string, items: seq<Item>, cursor: nat, to: nat)
    decreases items, 0
  {
    items == [] || (ItemPlaced(source, items[0], cursor, to) && ItemsPlaced(source, items[1..], items[0].range.end, to))
  }

  function EndOfItems(items: seq<Item>, cursor: nat): nat {
    if items == [] then cursor else EndOfItems(items[1..], items[0].range.end)
  }

  function EndOfPart(part: Part, cursor: nat): nat {
    match part case Bare(content) => EndOfPieces(content, cursor) case Inner(block) => block.range.end
  }

  function EndOfParts(parts: seq<Part>, cursor: nat): nat {
    if parts == [] then cursor else EndOfParts(parts[1..], EndOfPart(parts[0], cursor))
  }

  ghost predicate PartPlaced(source: string, part: Part, cursor: nat, to: nat)
    decreases part, 1
  {
    match part
    case Bare(content) => PiecesPlaced(source, content, cursor, to)
    case Inner(block) => BlockPlaced(source, block, cursor, to)
  }

  ghost predicate PartsPlaced(source: string, parts: seq<Part>, cursor: nat, to: nat)
    decreases parts, 0
  {
    parts == [] || (PartPlaced(source, parts[0], cursor, to) && PartsPlaced(source, parts[1..], EndOfPart(parts[0], cursor), to))
  }

  // ----- text and images

  /** The piece renders text outside any image in it. */
  predicate OwnText(p: Piece)
    decreases p, 1
  {
    match p
    case InStyle(_, content, _) => AnyOwnText(content)
    case Linked(_, content, _) => AnyOwnText(content)
    case Pictured(_, _, _) => false
    case Unread(_) => false
    case _ => true
  }

  predicate AnyOwnText(pieces: seq<Piece>)
    decreases pieces, 0
  {
    pieces != [] && (OwnText(pieces[0]) || AnyOwnText(pieces[1..]))
  }

  predicate HoldsImage(p: Piece)
    decreases p, 1
  {
    match p
    case InStyle(_, content, _) => AnyImage(content)
    case Linked(_, content, _) => AnyImage(content)
    case Pictured(_, _, _) => true
    case _ => false
  }

  predicate AnyImage(pieces: seq<Piece>)
    decreases pieces, 0
  {
    pieces != [] && (HoldsImage(pieces[0]) || AnyImage(pieces[1..]))
  }

  /** No image inside an image, and no link with both text of its own and an image. */
  predicate ImagesApart(p: Piece, inImage: bool)
    decreases p, 1
  {
    match p
    case InStyle(_, content, _) => AllImagesApart(content, inImage)
    case Linked(_, content, _) => !(AnyOwnText(content) && AnyImage(content)) && AllImagesApart(content, inImage)
    case Pictured(_, alt, _) => !inImage && AllImagesApart(alt, true)
    case _ => true
  }

  predicate AllImagesApart(pieces: seq<Piece>, inImage: bool)
    decreases pieces, 0
  {
    pieces == [] || (ImagesApart(pieces[0], inImage) && AllImagesApart(pieces[1..], inImage))
  }

  /** In a heading no text follows an image. */
  predicate TextFirst(p: Piece, seen: bool)
    decreases p, 1
  {
    match p
    case InStyle(_, content, _) => AllTextFirst(content, seen)
    case Linked(_, content, _) => AnyOwnText(content) ==> !seen
    case Pictured(_, _, _) => true
    case Unread(_) => true
    case _ => !seen
  }

  predicate AllTextFirst(pieces: seq<Piece>, seen: bool)
    decreases pieces, 0
  {
    pieces == [] || (TextFirst(pieces[0], seen) && AllTextFirst(pieces[1..], seen || HoldsImage(pieces[0])))
  }

  /** Whether bare text waits after the piece: an image flushes it. */
  predicate Waits(p: Piece, before: bool)
    decreases p, 1
  {
    match p
    case InStyle(_, content, _) => AllWait(content, before)
    case Linked(_, content, _) => AnyOwnText(content) || (before && !AnyImage(content))
    case Pictured(_, _, _) => false
    case Unread(_) => before
    case _ => true
  }

  predicate AllWait(pieces: seq<Piece>, before: bool)
    decreases pieces, 0
  {
    if pieces == [] then before else AllWait(pieces[1..], Waits(pieces[0], before))
  }

  /** A block, with or without bare text waiting before it. */
  predicate BlockLimited(b: Block, waiting: bool)
    decreases b, 1
  {
    match b
    case Head(_, content, _) => AllImagesApart(content, false) && AllTextFirst(content, false)
    case Para(content, _) => AllImagesApart(content, false)
    case Quote(blocks, _) => !waiting && BlocksLimited(blocks)
    case Listing(_, items, _) => ItemsLimited(items)
    case Code(_, _, _) => !waiting
    case Rule(_) => !waiting
    case _ => true
  }

  predicate BlocksLimited(blocks: seq<Block>)
    decreases blocks, 0
  {
    blocks == [] || (BlockLimited(blocks[0], false) && BlocksLimited(blocks[1..]))
  }

  predicate ItemsLimited(items: seq<Item>)
    decreases items, 0
  {
    items == [] || (PartsLimited(items[0].parts, false) && ItemsLimited(items[1..]))
  }

  predicate PartLimited(part: Part, waiting: bool)
    decreases part, 1
  {
    match part
    case Bare(content) => AllImagesApart(content, false)
    case Inner(block) => BlockLimited(block, waiting)
  }

  predicate WaitsAfterPart(part: Part, waiting: bool) {
    match part
    case Bare(content) => AllWait(content, waiting)
    case Inner(block) => waiting && (block.Front? || block.Aside?)
  }

  predicate PartsLimited(parts: seq<Part>, waiting: bool)
    decreases parts, 0
  {
    parts == [] || (PartLimited(parts[0], waiting) && PartsLimited(parts[1..], WaitsAfterPart(parts[0], waiting)))
  }

  // ----- one event, and a pair of tags

  lemma CleanStep(source: string, c: Care, e: Event, rest: seq<Event>)
    requires Allows(source, c.nest, e) && Avoids(c, e) && Clean(source, Next(c, e), rest)
    ensures Clean(source, c, [e] + rest)
  {
    hide Allows, Avoids, Next;
    assert ([e] + rest)[0] == e && ([e] + rest)[1..] == rest;
  }

  lemma CleanBetween(source: string, c: Care, tag: Tag, inner: seq<Event>, r: Range, rest: seq<Event>)
    requires Allows(source, c.nest, StartEvent(tag, r)) && Avoids(c, StartEvent(tag, r))
    requires Clean(source, Next(c, StartEvent(tag, r)), inner + ([EndEvent(EndOf(tag), r)] + rest))
    ensures Clean(source, c, Between(tag, inner, r) + rest)
  {
    hide Allows, Avoids, Next, Clean, EndOf;
    var first, last := StartEvent(tag, r), EndEvent(EndOf(tag), r);
    CleanStep(source, c, first, inner + ([last] + rest));
    assert [first] + inner + [last] + rest == [first] + (inner + ([last] + rest));
  }

  lemma CleanEnd(source: string, c: Care, tag: Tag, r: Range, rest: seq<Event>)
    requires c.nest.stack != [] && Top(c.nest.stack) == Open(tag, r) && Avoids(c, EndEvent(EndOf(tag), r))
    requires Clean(source, Next(c, EndEvent(EndOf(tag), r)), rest)
    ensures Clean(source, c, [EndEvent(EndOf(tag), r)] + rest)
  {
    hide Avoids, Next, Clean;
    CleanStep(source, c, EndEvent(EndOf(tag), r), rest);
  }

  // ----- inline content

  predicate InImage(marks: seq<Mark>) {
    exists i :: 0 <= i < |marks| && marks[i].image
  }

  /** The open links after some content: the innermost may have rendered text, all may hold an
      image. */
  function Marked(marks: seq<Mark>, text: bool, holds: bool): seq<Mark> {
    seq(|marks|, i requires 0 <= i < |marks| =>
      Mark(marks[i].image, marks[i].text || (text && i == |marks| - 1), marks[i].holds || holds))
  }

  function WaitsNow(c: Care, own: bool, images: bool): bool {
    if InLeaf(c.nest.stack) then false
    else if c.marks != [] then c.pending && !images
    else own
  }

  function AfterPiece(c: Care, p: Piece): Care {
    Care(Nest(c.nest.stack, p.range.end), Marked(c.marks, OwnText(p), HoldsImage(p)),
         WaitsNow(c, Waits(p, c.pending), HoldsImage(p)), c.pictured || (UnderHeading(c.nest.stack) && HoldsImage(p)))
  }

  function AfterPieces(c: Care, pieces: seq<Piece>): Care {
    Care(Nest(c.nest.stack, EndOfPieces(pieces, c.nest.cursor)), Marked(c.marks, AnyOwnText(pieces), AnyImage(pieces)),
         WaitsNow(c, AllWait(pieces, c.pending), AnyImage(pieces)), c.pictured || (UnderHeading(c.nest.stack) && AnyImage(pieces)))
  }

  /** Where inline content may stand. */
  ghost predicate TakesText(c: Care) {
    c.nest.stack != [] && !Verbatim(c.nest.stack) && (InLeaf(c.nest.stack) ==> !c.pending)
  }

  ghost predicate Meets(source: string, c: Care, p: Piece) {
    TakesText(c) && PiecePlaced(source, p, c.nest.cursor, Top(c.nest.stack).source.end) && ImagesApart(p, InImage(c.marks))
    && (c.marks == [] && UnderHeading(c.nest.stack) ==> TextFirst(p, c.pictured))
  }

  ghost predicate MeetAll(source: string, c: Care, pieces: seq<Piece>) {
    TakesText(c) && PiecesPlaced(source, pieces, c.nest.cursor, Top(c.nest.stack).source.end) && AllImagesApart(pieces, InImage(c.marks))
    && (c.marks == [] && UnderHeading(c.nest.stack) ==> AllTextFirst(pieces, c.pictured))
  }

  /** Content one piece at a time. */
  lemma AfterFirst(source: string, c: Care, pieces: seq<Piece>)
    requires MeetAll(source, c, pieces) && pieces != []
    ensures Meets(source, c, pieces[0]) && MeetAll(source, AfterPiece(c, pieces[0]), pieces[1..])
    ensures AfterPieces(AfterPiece(c, pieces[0]), pieces[1..]) == AfterPieces(c, pieces)
  {
    hide Within, InLeaf, UnderHeading, Verbatim;
    var next := AfterPiece(c, pieces[0]);
    assert InImage(next.marks) <==> InImage(c.marks) by {
      forall i | 0 <= i < |c.marks| ensures next.marks[i].image == c.marks[i].image { }
    }
    assert AfterPieces(next, pieces[1..]).marks == AfterPieces(c, pieces).marks;
  }

  lemma AfterNone(c: Care)
    requires InLeaf(c.nest.stack) ==> !c.pending
    ensures AfterPieces(c, []) == c
  {
    assert Marked(c.marks, false, false) == c.marks;
  }

  lemma {:induction false} PiecesClean(source: string, c: Care, pieces: seq<Piece>, rest: seq<Event>)
    requires MeetAll(source, c, pieces) && Clean(source, AfterPieces(c, pieces), rest)
    ensures Clean(source, c, PiecesEvents(pieces) + rest)
    decreases pieces, 0
  {
    hide Clean, AfterPieces, AfterPiece, PieceEvents, Meets;
    if pieces == [] {
      AfterNone(c);
      assert [] + rest == rest;
    } else {
      AfterFirst(source, c, pieces);
      hide MeetAll;
      PiecesClean(source, AfterPiece(c, pieces[0]), pieces[1..], rest);
      PieceClean(source, c, pieces[0], PiecesEvents(pieces[1..]) + rest);
      assert PieceEvents(pieces[0]) + PiecesEvents(pieces[1..]) + rest == PieceEvents(pieces[0]) + (PiecesEvents(pieces[1..]) + rest);
    }
  }

  /** A piece without content. */
  lemma SimpleClean(source: string, c: Care, p: Piece, rest: seq<Event>)
    requires Meets(source, c, p) && Clean(source, AfterPiece(c, p), rest)
    requires p.Words? || p.CodeSpan? || p.LineBreak? || p.Unread?
    ensures Clean(source, c, PieceEvents(p) + rest)
  {
    hide Clean, Get;
    var e := PieceEvents(p)[0];
    assert Next(c, e).marks == AfterPiece(c, p).marks;
    assert Next(c, e) == AfterPiece(c, p);
    CleanStep(source, c, e, rest);
  }

  /** An inline tag opened on the stack. */
  lemma InlineTagOpened(stack: seq<Open>, tag: Tag, r: Range)
    requires !Verbatim(stack) && !IsBlockTag(tag)
    ensures var stack' := stack + [Open(tag, r)];
            Top(stack') == Open(tag, r) && Init(stack') == stack && !Verbatim(stack')
            && (InLeaf(stack') <==> InLeaf(stack)) && (UnderHeading(stack') <==> UnderHeading(stack))
  {
    SpanOrderFlags.StackGrows(stack, Open(tag, r));
  }

  lemma StyledClean(source: string, c: Care, p: Piece, rest: seq<Event>, c1: Care)
    requires p.InStyle? && Meets(source, c, p) && Clean(source, AfterPiece(c, p), rest)
    requires c1 == Next(c, StartEvent(StyleTag(p.style), p.range))
    ensures Allows(source, c.nest, StartEvent(StyleTag(p.style), p.range)) && Avoids(c, StartEvent(StyleTag(p.style), p.range))
    ensures MeetAll(source, c1, p.content)
    ensures Clean(source, AfterPieces(c1, p.content), [EndEvent(EndOf(StyleTag(p.style)), p.range)] + rest)
  {
    hide Clean, Get, InLeaf, UnderHeading, Verbatim, InImage;
    InlineTagOpened(c.nest.stack, StyleTag(p.style), p.range);
    var c2 := AfterPieces(c1, p.content);
    var e := EndEvent(EndOf(StyleTag(p.style)), p.range);
    assert Next(c2, e).marks == AfterPiece(c, p).marks;
    assert Next(c2, e) == AfterPiece(c, p);
    CleanEnd(source, c2, StyleTag(p.style), p.range, rest);
  }

  /** Inside a link or an image. */
  lemma Opened(source: string, c: Care, tag: Tag, r: Range, content: seq<Piece>, c1: Care)
    requires (tag.LinkTag? || tag.ImageTag?) && TakesText(c) && Within(source, c.nest.cursor, Top(c.nest.stack).source.end, r)
    requires tag.ImageTag? ==> !InImage(c.marks)
    requires PiecesPlaced(source, content, r.start, r.end) && AllImagesApart(content, tag.ImageTag? || InImage(c.marks))
    requires c1 == Next(c, StartEvent(tag, r))
    ensures Allows(source, c.nest, StartEvent(tag, r)) && Avoids(c, StartEvent(tag, r)) && MeetAll(source, c1, content)
    ensures c1 == Care(Nest(c.nest.stack + [Open(tag, r)], r.start), c.marks + [Mark(tag.ImageTag?, false, false)], c.pending, c.pictured)
  {
    hide Get, InLeaf, UnderHeading, Verbatim, PiecesPlaced, AllImagesApart;
    InlineTagOpened(c.nest.stack, tag, r);
    assert InImage(c1.marks) <==> tag.ImageTag? || InImage(c.marks) by {
      assert c1.marks[|c.marks|].image == tag.ImageTag?;
      forall i | 0 <= i < |c.marks| ensures c1.marks[i] == c.marks[i] { }
    }
  }

  /** What the content leaves of the marks, the link's own on top. */
  lemma MarksInside(marks: seq<Mark>, image: bool, text: bool, holds: bool)
    ensures var after := Marked(marks + [Mark(image, false, false)], text, holds);
            |after| == |marks| + 1 && after[|marks|] == Mark(image, text, holds) && after[..|marks|] == Marked(marks, false, holds)
  {
  }

  lemma LinkedClean(source: string, c: Care, p: Piece, rest: seq<Event>, c1: Care, c2: Care)
    requires p.Linked? && Meets(source, c, p) && Clean(source, AfterPiece(c, p), rest)
    requires c1 == Next(c, StartEvent(LinkTag(p.target), p.range)) && c2 == AfterPieces(c1, p.content)
    requires c1 == Care(Nest(c.nest.stack + [Open(LinkTag(p.target), p.range)], p.range.start),
                        c.marks + [Mark(false, false, false)], c.pending, c.pictured)
    ensures Clean(source, c2, [EndEvent(LinkEnd, p.range)] + rest)
  {
    hide Clean, Get, InLeaf, UnderHeading, Verbatim, InImage, PiecePlaced, ImagesApart;
    var own, images := AnyOwnText(p.content), AnyImage(p.content);
    assert own ==> !images by { assert ImagesApart(p, InImage(c.marks)); LinkApart(p, InImage(c.marks)); }
    InlineTagOpened(c.nest.stack, LinkTag(p.target), p.range);
    MarksInside(c.marks, false, own, images);
    hide Marked;
    var e := EndEvent(LinkEnd, p.range);
    assert c2.marks[..|c2.marks| - 1] == Marked(c.marks, false, images);
    assert Next(c2, e) == AfterPiece(c, p) by { LinkDone(c, p, c2, e); }
    CleanEnd(source, c2, LinkTag(p.target), p.range, rest);
  }

  lemma LinkApart(p: Piece, inImage: bool)
    requires p.Linked? && ImagesApart(p, inImage)
    ensures !(AnyOwnText(p.content) && AnyImage(p.content))
  {
  }

  lemma LinkDone(c: Care, p: Piece, c2: Care, e: Event)
    requires p.Linked? && e == EndEvent(LinkEnd, p.range) && (AnyOwnText(p.content) ==> !AnyImage(p.content))
    requires TakesText(c) && c2.nest.stack == c.nest.stack + [Open(LinkTag(p.target), p.range)]
    requires c2.marks != [] && c2.marks[..|c2.marks| - 1] == Marked(c.marks, false, AnyImage(p.content))
    requires Top(c2.marks).text == AnyOwnText(p.content)
    requires c2.pictured == (c.pictured || (UnderHeading(c.nest.stack) && AnyImage(p.content)))
    requires c2.pending == if InLeaf(c.nest.stack) then false else c.pending && !AnyImage(p.content)
    ensures Next(c2, e) == AfterPiece(c, p)
  {
    hide UnderHeading, Verbatim;
    InlineTagOpened(c.nest.stack, LinkTag(p.target), p.range);
    hide InLeaf;
    var next, after := Next(c2, e), AfterPiece(c, p);
    assert next.marks == after.marks;
    assert InLeaf(PopMark(c2).nest.stack) <==> InLeaf(c.nest.stack);
  }

  lemma PicturedClean(source: string, c: Care, p: Piece, rest: seq<Event>, c1: Care, c2: Care)
    requires p.Pictured? && Meets(source, c, p) && Clean(source, AfterPiece(c, p), rest)
    requires c1 == Next(c, StartEvent(ImageTag(p.url), p.range)) && c2 == AfterPieces(c1, p.alt)
    requires c1 == Care(Nest(c.nest.stack + [Open(ImageTag(p.url), p.range)], p.range.start),
                        c.marks + [Mark(true, false, false)], c.pending, c.pictured)
    ensures Clean(source, c2, [EndEvent(ImageEnd, p.range)] + rest)
  {
    hide Clean, Get, InLeaf, Verbatim, InImage, PiecePlaced, ImagesApart, UnderHeading;
    InlineTagOpened(c.nest.stack, ImageTag(p.url), p.range);
    MarksInside(c.marks, true, AnyOwnText(p.alt), AnyImage(p.alt));
    var e := EndEvent(ImageEnd, p.range);
    assert PopMark(c2).marks == Marked(c.marks, false, AnyImage(p.alt));
    assert Next(c2, e).marks == AfterPiece(c, p).marks;
    assert Next(c2, e).pending == AfterPiece(c, p).pending by { HeadingIsLeaf(c.nest.stack); }
    assert Next(c2, e) == AfterPiece(c, p);
    CleanEnd(source, c2, ImageTag(p.url), p.range, rest);
  }

  lemma {:induction false} HeadingIsLeaf(stack: seq<Open>)
    ensures UnderHeading(stack) ==> InLeaf(stack)
    decreases |stack|
  {
    if stack != [] { HeadingIsLeaf(stack[..|stack| - 1]); }
  }

  lemma {:induction false} PieceClean(source: string, c: Care, p: Piece, rest: seq<Event>)
    requires Meets(source, c, p) && Clean(source, AfterPiece(c, p), rest)
    ensures Clean(source, c, PieceEvents(p) + rest)
    decreases p, 1
  {
    hide Clean, AfterPiece, AfterPieces, Next, Allows, Avoids, MeetAll, Between;
    match p
    case InStyle(style, content, range) =>
      var c1 := Next(c, StartEvent(StyleTag(style), range));
      StyledClean(source, c, p, rest, c1);
      PiecesClean(source, c1, content, [EndEvent(EndOf(StyleTag(style)), range)] + rest);
      CleanBetween(source, c, StyleTag(style), PiecesEvents(content), range, rest);
    case Linked(target, content, range) =>
      var c1 := Next(c, StartEvent(LinkTag(target), range));
      Opened(source, c, LinkTag(target), range, content, c1);
      LinkedClean(source, c, p, rest, c1, AfterPieces(c1, content));
      PiecesClean(source, c1, content, [EndEvent(LinkEnd, range)] + rest);
      CleanBetween(source, c, LinkTag(target), PiecesEvents(content), range, rest);
    case Pictured(url, alt, range) =>
      var c1 := Next(c, StartEvent(ImageTag(url), range));
      Opened(source, c, ImageTag(url), range, alt, c1);
      PicturedClean(source, c, p, rest, c1, AfterPieces(c1, alt));
      PiecesClean(source, c1, alt, [EndEvent(ImageEnd, range)] + rest);
      CleanBetween(source, c, ImageTag(url), PiecesEvents(alt), range, rest);
    case _ => SimpleClean(source, c, p, rest);
  }

  // ----- texts in code and front matter

  lemma {:induction false} TextsClean(source: string, c: Care, texts: seq<(string, Range)>, rest: seq<Event>)
    requires c.nest.stack != [] && Verbatim(c.nest.stack)
    requires TextsPlaced(source, texts, c.nest.cursor, Top(c.nest.stack).source.end)
    requires Clean(source, c.(nest := Nest(c.nest.stack, EndOfTexts(texts, c.nest.cursor))), rest)
    ensures Clean(source, c, TextEvents(texts) + rest)
    decreases |texts|
  {
    hide Clean, Get, Verbatim;
    if texts == [] {
      assert [] + rest == rest;
    } else {
      var e := TextEvent(texts[0].0, texts[0].1);
      var next := c.(nest := Nest(c.nest.stack, texts[0].1.end));
      assert Next(c, e) == next;
      TextsClean(source, next, texts[1..], rest);
      CleanStep(source, c, e, TextEvents(texts[1..]) + rest);
      assert [e] + TextEvents(texts[1..]) + rest == [e] + (TextEvents(texts[1..]) + rest);
    }
  }

  // ----- blocks

  /** Where a block may stand: outside leaves, code and links, with no image seen in a heading. */
  ghost predicate TakesBlocks(c: Care) {
    !InLeaf(c.nest.stack) && !Verbatim(c.nest.stack) && c.marks == [] && !c.pictured
  }

  /** At a byte, with or without bare text waiting. */
  function Standing(stack: seq<Open>, cursor: nat, waiting: bool): Care {
    Care(Nest(stack, cursor), [], waiting, false)
  }

  ghost predicate WithinTop(stack: seq<Open>, to: nat) {
    stack != [] ==> to <= Top(stack).source.end
  }

  /** A block's tag opened on the stack. */
  lemma BlockOpened(stack: seq<Open>, tag: Tag, r: Range)
    requires !InLeaf(stack) && !Verbatim(stack) && IsBlockTag(tag)
    ensures var stack' := stack + [Open(tag, r)];
            Top(stack') == Open(tag, r) && Init(stack') == stack && (InLeaf(stack') <==> IsLeafTag(tag))
            && (UnderHeading(stack') <==> tag.HeadingTag?) && (Verbatim(stack') <==> IsCodeTag(tag) || tag.MetadataTag?)
  {
    SpanOrderFlags.StackGrows(stack, Open(tag, r));
    HeadingIsLeaf(stack);
  }

  /** The start and the end of a block's tag. */
  lemma TagClean(source: string, stack: seq<Open>, cursor: nat, waiting: bool, tag: Tag, r: Range, to: nat,
                 inner: seq<Event>, done: Care, rest: seq<Event>)
    requires !InLeaf(stack) && !Verbatim(stack) && IsBlockTag(tag) && WithinTop(stack, to) && Within(source, cursor, to, r)
    requires tag.BlockQuoteTag? || tag.ItemTag? || IsCodeTag(tag) ==> !waiting
    requires done.nest.stack == stack + [Open(tag, r)] && done.marks == []
    requires if tag.HeadingTag? then true else !done.pictured
    requires tag.BlockQuoteTag? || tag.ListTag? ==> !done.pending
    requires Clean(source, Standing(stack, r.end, !tag.ItemTag? && done.pending), rest)
    requires Clean(source, done, [EndEvent(EndOf(tag), r)] + rest) ==>
             Clean(source, Standing(stack + [Open(tag, r)], r.start, waiting && !IsLeafTag(tag) && !tag.ListTag?),
                   inner + ([EndEvent(EndOf(tag), r)] + rest))
    ensures Clean(source, Standing(stack, cursor, waiting), Between(tag, inner, r) + rest)
  {
    hide Clean, Get, InLeaf, Verbatim, UnderHeading;
    BlockOpened(stack, tag, r);
    var c := Standing(stack, cursor, waiting);
    var start, end := StartEvent(tag, r), EndEvent(EndOf(tag), r);
    assert Next(done, end) == Standing(stack, r.end, !tag.ItemTag? && done.pending);
    CleanEnd(source, done, tag, r, rest);
    assert Next(c, start) == Standing(stack + [Open(tag, r)], r.start, waiting && !IsLeafTag(tag) && !tag.ListTag?);
    CleanBetween(source, c, tag, inner, r, rest);
  }

  predicate WaitsAfterBlock(b: Block, waiting: bool) {
    waiting && (b.Front? || b.Aside?)
  }

  /** A paragraph or a heading. */
  lemma LeafClean(source: string, stack: seq<Open>, cursor: nat, waiting: bool, tag: Tag, content: seq<Piece>, r: Range, to: nat, rest: seq<Event>)
    requires !InLeaf(stack) && !Verbatim(stack) && IsLeafTag(tag) && WithinTop(stack, to) && Within(source, cursor, to, r)
    requires PiecesPlaced(source, content, r.start, r.end) && AllImagesApart(content, false)
    requires tag.HeadingTag? ==> AllTextFirst(content, false)
    requires Clean(source, Standing(stack, r.end, false), rest)
    ensures Clean(source, Standing(stack, cursor, waiting), Between(tag, PiecesEvents(content), r) + rest)
  {
    hide Clean, Get, InLeaf, Verbatim, UnderHeading, PiecesPlaced, AllImagesApart, AllTextFirst;
    BlockOpened(stack, tag, r);
    var c1 := Standing(stack + [Open(tag, r)], r.start, false);
    var done := AfterPieces(c1, content);
    assert Marked([], AnyOwnText(content), AnyImage(content)) == [];
    assert !InImage([]);
    assert MeetAll(source, c1, content);
    var end := EndEvent(EndOf(tag), r);
    if Clean(source, done, [end] + rest) { PiecesClean(source, c1, content, [end] + rest); }
    TagClean(source, stack, cursor, waiting, tag, r, to, PiecesEvents(content), done, rest);
  }

  /** A code block, or front matter. */
  lemma VerbatimClean(source: string, stack: seq<Open>, cursor: nat, waiting: bool, tag: Tag, texts: seq<(string, Range)>, r: Range, to: nat,
                      rest: seq<Event>)
    requires !InLeaf(stack) && !Verbatim(stack) && (IsCodeTag(tag) || tag.MetadataTag?) && WithinTop(stack, to) && Within(source, cursor, to, r)
    requires (IsCodeTag(tag) ==> !waiting) && TextsPlaced(source, texts, r.start, r.end)
    requires Clean(source, Standing(stack, r.end, waiting), rest)
    ensures Clean(source, Standing(stack, cursor, waiting), Between(tag, TextEvents(texts), r) + rest)
  {
    hide Clean, Get, InLeaf, Verbatim, UnderHeading, TextsPlaced;
    BlockOpened(stack, tag, r);
    var c1 := Standing(stack + [Open(tag, r)], r.start, waiting);
    var done := Standing(stack + [Open(tag, r)], EndOfTexts(texts, r.start), waiting);
    var end := EndEvent(EndOf(tag), r);
    if Clean(source, done, [end] + rest) { TextsClean(source, c1, texts, [end] + rest); }
    TagClean(source, stack, cursor, waiting, tag, r, to, TextEvents(texts), done, rest);
  }

  /** A rule, or anything the builder does not read. */
  lemma SingleClean(source: string, stack: seq<Open>, cursor: nat, waiting: bool, b: Block, to: nat, rest: seq<Event>)
    requires !InLeaf(stack) && !Verbatim(stack) && WithinTop(stack, to) && BlockPlaced(source, b, cursor, to) && BlockLimited(b, waiting)
    requires b.Rule? || b.Aside?
    requires Clean(source, Standing(stack, b.range.end, WaitsAfterBlock(b, waiting)), rest)
    ensures Clean(source, Standing(stack, cursor, waiting), BlockEvents(b) + rest)
  {
    hide Clean, Get, InLeaf, Verbatim;
    var c, e := Standing(stack, cursor, waiting), BlockEvents(b)[0];
    assert Next(c, e) == Standing(stack, b.range.end, WaitsAfterBlock(b, waiting));
    CleanStep(source, c, e, rest);
  }

  lemma {:induction false} BlockClean(source: string, stack: seq<Open>, cursor: nat, waiting: bool, b: Block, to: nat, rest: seq<Event>)
    requires !InLeaf(stack) && !Verbatim(stack) && WithinTop(stack, to) && BlockPlaced(source, b, cursor, to) && BlockLimited(b, waiting)
    requires Clean(source, Standing(stack, b.range.end, WaitsAfterBlock(b, waiting)), rest)
    ensures Clean(source, Standing(stack, cursor, waiting), BlockEvents(b) + rest)
    decreases b, 1
  {
    hide Clean, Within, InLeaf, Verbatim, UnderHeading, Between, WithinTop, PiecesPlaced, AllImagesApart, AllTextFirst;
    match b
    case Head(level, content, range) => LeafClean(source, stack, cursor, waiting, HeadingTag(level), content, range, to, rest);
    case Para(content, range) => LeafClean(source, stack, cursor, waiting, ParagraphTag, content, range, to, rest);
    case Quote(blocks, range) =>
      QuoteClean(source, stack, cursor, blocks, range, to, rest);
    case Listing(start, items, range) =>
      ListClean(source, stack, cursor, waiting, start, items, range, to, rest);
    case Code(info, texts, range) =>
      VerbatimClean(source, stack, cursor, waiting, if info.Some? then FencedTag(info.value) else IndentedTag, texts, range, to, rest);
    case Front(texts, range) => VerbatimClean(source, stack, cursor, waiting, MetadataTag, texts, range, to, rest);
    case _ => SingleClean(source, stack, cursor, waiting, b, to, rest);
  }

  lemma {:induction false} QuoteClean(source: string, stack: seq<Open>, cursor: nat, blocks: seq<Block>, r: Range, to: nat, rest: seq<Event>)
    requires !InLeaf(stack) && !Verbatim(stack) && WithinTop(stack, to) && Within(source, cursor, to, r)
    requires BlocksPlaced(source, blocks, r.start, r.end) && BlocksLimited(blocks)
    requires Clean(source, Standing(stack, r.end, false), rest)
    ensures Clean(source, Standing(stack, cursor, false), Between(BlockQuoteTag, BlocksEvents(blocks), r) + rest)
    decreases blocks, 1
  {
    hide Clean, Within, InLeaf, Verbatim, UnderHeading, Between, BlocksPlaced, BlocksLimited;
    BlockOpened(stack, BlockQuoteTag, r);
    var inner := stack + [Open(BlockQuoteTag, r)];
    var done := Standing(inner, EndOfBlocks(blocks, r.start), false);
    var end := [EndEvent(BlockQuoteEnd, r)] + rest;
    if Clean(source, done, end) { BlocksClean(source, inner, r.start, blocks, r.end, end); }
    TagClean(source, stack, cursor, false, BlockQuoteTag, r, to, BlocksEvents(blocks), done, rest);
  }

  lemma {:induction false} ListClean(source: string, stack: seq<Open>, cursor: nat, waiting: bool, start: Option<nat>, items: seq<Item>, r: Range, to: nat,
                                     rest: seq<Event>)
    requires !InLeaf(stack) && !Verbatim(stack) && WithinTop(stack, to) && Within(source, cursor, to, r)
    requires ItemsPlaced(source, items, r.start, r.end) && ItemsLimited(items)
    requires Clean(source, Standing(stack, r.end, false), rest)
    ensures Clean(source, Standing(stack, cursor, waiting), Between(ListTag(start), ItemsEvents(items), r) + rest)
    decreases items, 1
  {
    hide Clean, Within, InLeaf, Verbatim, UnderHeading, Between, ItemsPlaced, ItemsLimited;
    BlockOpened(stack, ListTag(start), r);
    var inner := stack + [Open(ListTag(start), r)];
    var done := Standing(inner, EndOfItems(items, r.start), false);
    var end := [EndEvent(ListEnd, r)] + rest;
    if Clean(source, done, end) { ItemsClean(source, inner, r.start, items, r.end, end); }
    TagClean(source, stack, cursor, waiting, ListTag(start), r, to, ItemsEvents(items), done, rest);
  }

  lemma {:induction false} BlocksClean(source: string, stack: seq<Open>, cursor: nat, blocks: seq<Block>, to: nat, rest: seq<Event>)
    requires !InLeaf(stack) && !Verbatim(stack) && WithinTop(stack, to) && BlocksPlaced(source, blocks, cursor, to) && BlocksLimited(blocks)
    requires Clean(source, Standing(stack, EndOfBlocks(blocks, cursor), false), rest)
    ensures Clean(source, Standing(stack, cursor, false), BlocksEvents(blocks) + rest)
    decreases blocks, 0
  {
    hide Clean, InLeaf, Verbatim, BlockPlaced, BlockLimited, BlockEvents, WithinTop;
    if blocks == [] {
      assert [] + rest == rest;
    } else {
      BlocksClean(source, stack, blocks[0].range.end, blocks[1..], to, rest);
      BlockClean(source, stack, cursor, false, blocks[0], to, BlocksEvents(blocks[1..]) + rest);
      assert BlockEvents(blocks[0]) + BlocksEvents(blocks[1..]) + rest == BlockEvents(blocks[0]) + (BlocksEvents(blocks[1..]) + rest);
    }
  }

  // ----- items

  lemma TaskClean(source: string, stack: seq<Open>, r: Range, item: Item, rest: seq<Event>)
    requires stack != [] && Top(stack).source == r && item.range == r && !InLeaf(stack) && !Verbatim(stack)
    requires item.task.Some? ==> Within(source, r.start, r.end, item.task.value.range)
    requires Clean(source, Standing(stack, AfterTask(item), false), rest)
    ensures Clean(source, Standing(stack, r.start, false), TaskEvents(item.task) + rest)
  {
    hide Clean, Get, InLeaf, Verbatim;
    if item.task.Some? {
      var c, e := Standing(stack, r.start, false), TaskEvent(item.task.value.checked, item.task.value.range);
      assert Next(c, e) == Standing(stack, AfterTask(item), false);
      CleanStep(source, c, e, rest);
    } else {
      assert [] + rest == rest;
    }
  }

  lemma {:induction false} ItemClean(source: string, stack: seq<Open>, cursor: nat, item: Item, to: nat, rest: seq<Event>)
    requires !InLeaf(stack) && !Verbatim(stack) && WithinTop(stack, to) && ItemPlaced(source, item, cursor, to) && PartsLimited(item.parts, false)
    requires Clean(source, Standing(stack, item.range.end, false), rest)
    ensures Clean(source, Standing(stack, cursor, false), ItemEvents(item) + rest)
    decreases item, 1
  {
    hide Clean, Within, InLeaf, Verbatim, UnderHeading, Between, PartsPlaced, PartsLimited;
    var r := item.range;
    BlockOpened(stack, ItemTag, r);
    var inner := stack + [Open(ItemTag, r)];
    var done := Standing(inner, EndOfParts(item.parts, AfterTask(item)), PartsWait(item.parts, false));
    var end := [EndEvent(ItemEnd, r)] + rest;
    if Clean(source, done, end) {
      PartsClean(source, inner, AfterTask(item), false, item.parts, r.end, end);
      TaskClean(source, inner, r, item, PartsEvents(item.parts) + end);
      assert TaskEvents(item.task) + PartsEvents(item.parts) + end == TaskEvents(item.task) + (PartsEvents(item.parts) + end);
    }
    TagClean(source, stack, cursor, false, ItemTag, r, to, TaskEvents(item.task) + PartsEvents(item.parts), done, rest);
  }

  lemma {:induction false} ItemsClean(source: string, stack: seq<Open>, cursor: nat, items: seq<Item>, to: nat, rest: seq<Event>)
    requires !InLeaf(stack) && !Verbatim(stack) && WithinTop(stack, to) && ItemsPlaced(source, items, cursor, to) && ItemsLimited(items)
    requires Clean(source, Standing(stack, EndOfItems(items, cursor), false), rest)
    ensures Clean(source, Standing(stack, cursor, false), ItemsEvents(items) + rest)
    decreases items, 0
  {
    hide Clean, InLeaf, Verbatim, ItemPlaced, PartsLimited, ItemEvents, WithinTop;
    if items == [] {
      assert [] + rest == rest;
    } else {
      ItemsClean(source, stack, items[0].range.end, items[1..], to, rest);
      ItemClean(source, stack, cursor, items[0], to, ItemsEvents(items[1..]) + rest);
      assert ItemEvents(items[0]) + ItemsEvents(items[1..]) + rest == ItemEvents(items[0]) + (ItemsEvents(items[1..]) + rest);
    }
  }

  /** Whether bare text waits after some parts of an item. */
  predicate PartsWait(parts: seq<Part>, waiting: bool) {
    if parts == [] then waiting else PartsWait(parts[1..], WaitsAfterPart(parts[0], waiting))
  }

  lemma {:induction false} PartClean(source: string, stack: seq<Open>, cursor: nat, waiting: bool, part: Part, to: nat, rest: seq<Event>)
    requires stack != [] && to == Top(stack).source.end && !InLeaf(stack) && !Verbatim(stack)
    requires PartPlaced(source, part, cursor, to) && PartLimited(part, waiting)
    requires Clean(source, Standing(stack, EndOfPart(part, cursor), WaitsAfterPart(part, waiting)), rest)
    ensures Clean(source, Standing(stack, cursor, waiting), PartEvents(part) + rest)
    decreases part, 1
  {
    hide Clean, InLeaf, Verbatim, BlockPlaced, BlockLimited, BlockEvents, PiecesPlaced, AllImagesApart, UnderHeading;
    match part
    case Bare(content) =>
      var c := Standing(stack, cursor, waiting);
      HeadingIsLeaf(stack);
      assert !InImage([]);
      assert Marked([], AnyOwnText(content), AnyImage(content)) == [];
      assert AfterPieces(c, content) == Standing(stack, EndOfPart(part, cursor), WaitsAfterPart(part, waiting));
      PiecesClean(source, c, content, rest);
    case Inner(block) => BlockClean(source, stack, cursor, waiting, block, to, rest);
  }

  lemma {:induction false} PartsClean(source: string, stack: seq<Open>, cursor: nat, waiting: bool, parts: seq<Part>, to: nat, rest: seq<Event>)
    requires stack != [] && to == Top(stack).source.end && !InLeaf(stack) && !Verbatim(stack)
    requires PartsPlaced(source, parts, cursor, to) && PartsLimited(parts, waiting)
    requires Clean(source, Standing(stack, EndOfParts(parts, cursor), PartsWait(parts, waiting)), rest)
    ensures Clean(source, Standing(stack, cursor, waiting), PartsEvents(parts) + rest)
    decreases parts, 0
  {
    hide Clean, InLeaf, Verbatim, PartPlaced, PartLimited, PartEvents, EndOfPart, WaitsAfterPart;
    if parts == [] {
      assert [] + rest == rest;
    } else {
      PartsClean(source, stack, EndOfPart(parts[0], cursor), WaitsAfterPart(parts[0], waiting), parts[1..], to, rest);
      PartClean(source, stack, cursor, waiting, parts[0], to, PartsEvents(parts[1..]) + rest);
      assert PartEvents(parts[0]) + PartsEvents(parts[1..]) + rest == PartEvents(parts[0]) + (PartsEvents(parts[1..]) + rest);
    }
  }

  // ----- documents

  /** A document laid out in the source, within the limits, has clean events. */
  lemma DocumentIsClean(source: string, doc: seq<Block>)
    requires BlocksPlaced(source, doc, 0, ByteLen(source)) && BlocksLimited(doc)
    ensures Clean(source, START_CARE, BlocksEvents(doc))
  {
    hide BlocksPlaced, BlocksLimited, ByteLen;
    assert Clean(source, Standing([], EndOfBlocks(doc, 0), false), []);
    BlocksClean(source, [], 0, doc, ByteLen(source), []);
    assert BlocksEvents(doc) + [] == BlocksEvents(doc);
  }

  /** So for every such document the finished map is coherent and leads to the AST's nodes; and
      the AST is what the document means if and only if it is tight and keeps its styles. */
  lemma DocumentParses(source: string, doc: seq<Block>, blocks: seq<BlockSpan>)
    requires BlocksPlaced(source, doc, 0, ByteLen(source)) && BlocksLimited(doc) && ByteLen(source) <= ISIZE_MAX
    requires SpanMapBuilders.Finished(CleanMaps.Pushed(HandleAll(source, INITIAL, BlocksEvents(doc)).regs), blocks)
    ensures var root := HandleAll(source, INITIAL, BlocksEvents(doc)).root;
            (forall i :: 0 <= i < |blocks| ==> Walk(root, blocks[i].path).Some?)
            && (root == MeaningAll(doc) <==> AllTight(doc) && AllStylesKept(doc))
    ensures Coherent(source, blocks, {})
  {
    hide BlocksPlaced, BlocksLimited, AllStylesKept, AllTight, ByteLen, HandleAll, Coherent, MeaningAll, Walk, Clean, WellNested;
    DocumentIsClean(source, doc);
    DocumentTheorems.DocumentMeans(source, doc);
    CleanMaps.CleanStreamsAreCoherent(source, BlocksEvents(doc), blocks);
    CleanIsWellNested(source, START_CARE, BlocksEvents(doc));
    forall i | 0 <= i < |blocks| ensures Walk(HandleAll(source, INITIAL, BlocksEvents(doc)).root, blocks[i].path).Some? {
      CleanMaps.StreamLengths(source, BlocksEvents(doc), blocks, i);
    }
  }
}
