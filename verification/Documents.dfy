/** A document's own structure: blocks of pieces, the events the Markdown parser sends for it,
    and the AST it means, defined by recursion over the structure alone. */
module Documents {
  import opened Text
  import opened Ast
  import opened Inlines
  import opened Events
  import opened BuilderModel

  datatype Style = Strong | Emphasis | Strikethrough

  /** A code span has at least one character (section 6.1 of the CommonMark specification). */
  type Shown = s: string | s != "" witness "x"

  /** Inline content. */
  datatype Piece =
    | Words(text: string, range: Range)
    | CodeSpan(code: Shown, range: Range)
    | LineBreak(range: Range)
    | Unread(range: Range)
    | InStyle(style: Style, content: seq<Piece>, range: Range)
    | Linked(target: LinkTarget, content: seq<Piece>, range: Range)
    | Pictured(url: string, alt: seq<Piece>, range: Range)

  datatype Block =
    | Head(level: nat, content: seq<Piece>, range: Range)
    | Para(content: seq<Piece>, range: Range)
    | Quote(blocks: seq<Block>, range: Range)
    | Listing(start: Option<nat>, items: seq<Item>, range: Range)
    | Code(info: Option<string>, texts: seq<(string, Range)>, range: Range)
    | Rule(range: Range)
    | Front(texts: seq<(string, Range)>, range: Range)
    | Aside(range: Range)

  /** A list item: its task marker, then blocks and bare text. */
  datatype Item = Item(task: Option<Task>, parts: seq<Part>, range: Range)

  datatype Task = Task(checked: bool, range: Range)

  datatype Part = Bare(content: seq<Piece>) | Inner(block: Block)

  // ----- events

  function StyleTag(style: Style): Tag {
    match style
    case Strong => StrongTag
    case Emphasis => EmphasisTag
    case Strikethrough => StrikethroughTag
  }

  function Between(tag: Tag, inner: seq<Event>, range: Range): seq<Event> {
    [StartEvent(tag, range)] + inner + [EndEvent(EndOf(tag), range)]
  }

  function PieceEvents(p: Piece): seq<Event>
    decreases p, 1
  {
    match p
    case Words(text, range) => [TextEvent(text, range)]
    case CodeSpan(text, range) => [CodeEvent(text, range)]
    case LineBreak(range) => [BreakEvent(range)]
    case Unread(range) => [OtherEvent(range)]
    case InStyle(style, content, range) => Between(StyleTag(style), PiecesEvents(content), range)
    case Linked(target, content, range) => Between(LinkTag(target), PiecesEvents(content), range)
    case Pictured(url, alt, range) => Between(ImageTag(url), PiecesEvents(alt), range)
  }

  function PiecesEvents(pieces: seq<Piece>): seq<Event>
    decreases pieces, 0
  {
    if pieces == [] then [] else PieceEvents(pieces[0]) + PiecesEvents(pieces[1..])
  }

  function TextEvents(texts: seq<(string, Range)>): seq<Event> {
    if texts == [] then [] else [TextEvent(texts[0].0, texts[0].1)] + TextEvents(texts[1..])
  }

  function BlockEvents(b: Block): seq<Event>
    decreases b, 1
  {
    match b
    case Head(level, content, range) => Between(HeadingTag(level), PiecesEvents(content), range)
    case Para(content, range) => Between(ParagraphTag, PiecesEvents(content), range)
    case Quote(blocks, range) => Between(BlockQuoteTag, BlocksEvents(blocks), range)
    case Listing(start, items, range) => Between(ListTag(start), ItemsEvents(items), range)
    case Code(info, texts, range) =>
      Between(if info.Some? then FencedTag(info.value) else IndentedTag, TextEvents(texts), range)
    case Rule(range) => [RuleEvent(range)]
    case Front(texts, range) => Between(MetadataTag, TextEvents(texts), range)
    case Aside(range) => [OtherEvent(range)]
  }

  function BlocksEvents(blocks: seq<Block>): seq<Event>
    decreases blocks, 0
  {
    if blocks == [] then [] else BlockEvents(blocks[0]) + BlocksEvents(blocks[1..])
  }

  function TaskEvents(task: Option<Task>): seq<Event> {
    if task.Some? then [TaskEvent(task.value.checked, task.value.range)] else []
  }

  function ItemEvents(item: Item): seq<Event>
    decreases item, 1
  {
    Between(ItemTag, TaskEvents(item.task) + PartsEvents(item.parts), item.range)
  }

  function ItemsEvents(items: seq<Item>): seq<Event>
    decreases items, 0
  {
    if items == [] then [] else ItemEvents(items[0]) + ItemsEvents(items[1..])
  }

  function PartEvents(part: Part): seq<Event>
    decreases part, 1
  {
    match part
    case Bare(content) => PiecesEvents(content)
    case Inner(block) => BlockEvents(block)
  }

  function PartsEvents(parts: seq<Part>): seq<Event>
    decreases parts, 0
  {
    if parts == [] then [] else PartEvents(parts[0]) + PartsEvents(parts[1..])
  }

  // ----- meaning

  /** What inline content amounts to: inline elements, and images taken out of it. */
  datatype Bit = Elem(element: Inline) | Hoisted(node: AstNode)

  function Elems(bits: seq<Bit>): seq<Inline> {
    if bits == [] then []
    else (if bits[0].Elem? then [bits[0].element] else []) + Elems(bits[1..])
  }

  function Images(bits: seq<Bit>): seq<AstNode> {
    if bits == [] then []
    else (if bits[0].Hoisted? then [bits[0].node] else []) + Images(bits[1..])
  }

  function HoistedOnly(bits: seq<Bit>): seq<Bit> {
    if bits == [] then []
    else (if bits[0].Hoisted? then [bits[0]] else []) + HoistedOnly(bits[1..])
  }

  function WithStyle(f: Format, style: Style): Format {
    match style
    case Strong => f.(bold := true)
    case Emphasis => f.(italic := true)
    case Strikethrough => f.(strikethrough := true)
  }

  predicate HasStyle(f: Format, style: Style) {
    match style
    case Strong => f.bold
    case Emphasis => f.italic
    case Strikethrough => f.strikethrough
  }

  function RunIn(f: Format, text: string, code: bool): Bit {
    Elem(Run(TextRun(text, f.bold, f.italic, f.strikethrough, code)))
  }

  /** Images inside a link come before the link, and a link that renders nothing disappears. */
  function LinkBits(target: LinkTarget, inner: seq<Bit>): seq<Bit> {
    HoistedOnly(inner) +
    (if InlineText(Elems(inner)) == "" then [] else [Elem(LinkShown(target, ProcessInlines(Elems(inner))))])
  }

  /** Whether a linked note exists is decided later. */
  function LinkShown(target: LinkTarget, content: seq<Inline>): Inline {
    match target case Internal(id) => Link(id, false, content) case External(url) => ExternalLink(url, content)
  }

  /** The alternative text an image's content amounts to: all its words, but not what is linked
      or an image itself. */
  function AltOf(p: Piece): string
    decreases p, 1
  {
    match p
    case Words(text, _) => text
    case CodeSpan(text, _) => text
    case LineBreak(_) => "\n"
    case InStyle(_, content, _) => AltOfAll(content)
    case _ => ""
  }

  function AltOfAll(pieces: seq<Piece>): string
    decreases pieces, 0
  {
    if pieces == [] then "" else AltOf(pieces[0]) + AltOfAll(pieces[1..])
  }

  /** Images inside an image's text come before it. */
  function ImageShown(url: string, altText: string, inner: seq<Bit>): seq<Bit> {
    HoistedOnly(inner) + [Hoisted(Image(altText, url))]
  }

  /** A piece in the style of what encloses it. */
  function Flow(p: Piece, f: Format): seq<Bit>
    decreases p, 1
  {
    match p
    case Words(text, _) => if text == "" then [] else [RunIn(f, text, false)]
    case CodeSpan(text, _) => [RunIn(f, text, true)]
    case LineBreak(_) => [RunIn(f, "\n", false)]
    case Unread(_) => []
    case InStyle(style, content, _) => FlowAll(content, WithStyle(f, style))
    case Linked(target, content, _) => LinkBits(target, FlowAll(content, f))
    case Pictured(url, alt, _) => ImageShown(url, AltOfAll(alt), FlowAll(alt, f))
  }

  function FlowAll(pieces: seq<Piece>, f: Format): seq<Bit>
    decreases pieces, 0
  {
    if pieces == [] then [] else Flow(pieces[0], f) + FlowAll(pieces[1..], f)
  }

  const PLAIN := Format(false, false, false)

  function ParagraphOf(pending: seq<Inline>): seq<AstNode> {
    if pending == [] then [] else [Paragraph(ProcessInlines(pending))]
  }

  /** Text cut at its images: the paragraphs and images so far, and the text left over. */
  function Cut(pending: seq<Inline>, bits: seq<Bit>): (seq<AstNode>, seq<Inline>)
    decreases |bits|
  {
    if bits == [] then ([], pending)
    else match bits[0]
      case Elem(element) => Cut(pending + [element], bits[1..])
      case Hoisted(node) =>
        var rest := Cut([], bits[1..]);
        (ParagraphOf(pending) + [node] + rest.0, rest.1)
  }

  function Broken(bits: seq<Bit>): seq<AstNode> {
    Cut([], bits).0 + ParagraphOf(Cut([], bits).1)
  }

  function CodeText(texts: seq<(string, Range)>): string {
    if texts == [] then "" else texts[0].0 + CodeText(texts[1..])
  }

  function Language(info: Option<string>): Option<string> {
    if info.None? || Trim(info.value) == "" then None else Some(Trim(info.value))
  }

  /** A heading, and after it the images taken out of it. */
  function HeadingOf(level: nat, bits: seq<Bit>): seq<AstNode> {
    [Heading(level, ProcessInlines(Elems(bits)))] + Images(bits)
  }

  /** The nodes a block becomes. */
  function Meaning(b: Block): seq<AstNode>
    decreases b, 1
  {
    match b
    case Head(level, content, _) => HeadingOf(level, FlowAll(content, PLAIN))
    case Para(content, _) => Broken(FlowAll(content, PLAIN))
    case Quote(blocks, _) => [Blockquote(MeaningAll(blocks))]
    case Listing(start, items, _) => [List(start.Some?, MeaningItems(items))]
    case Code(info, texts, _) => [CodeBlock(Language(info), CodeText(texts))]
    case Rule(_) => [ThematicBreak]
    case Front(_, _) => []
    case Aside(_) => []
  }

  function MeaningAll(blocks: seq<Block>): seq<AstNode>
    decreases blocks, 0
  {
    if blocks == [] then [] else Meaning(blocks[0]) + MeaningAll(blocks[1..])
  }

  function Checked(task: Option<Task>): Option<bool> {
    if task.Some? then Some(task.value.checked) else None
  }

  function MeaningItems(items: seq<Item>): seq<AstNode>
    decreases items, 0
  {
    if items == [] then [] else [ListItem(MeaningParts(items[0].parts, []), Checked(items[0].task))] + MeaningItems(items[1..])
  }

  /** Blocks without nodes of their own, which do not break bare text either. */
  predicate Unseen(b: Block) {
    b.Front? || b.Aside?
  }

  /** An item's content: bare text becomes paragraphs, in its place among the blocks. */
  function MeaningParts(parts: seq<Part>, pending: seq<Inline>): seq<AstNode>
    decreases parts, 0
  {
    if parts == [] then ParagraphOf(pending)
    else match parts[0]
      case Bare(content) =>
        var cut := Cut(pending, FlowAll(content, PLAIN));
        cut.0 + MeaningParts(parts[1..], cut.1)
      case Inner(block) =>
        if Unseen(block) then MeaningParts(parts[1..], pending)
        else ParagraphOf(pending) + PartMeaning(parts[0]) + MeaningParts(parts[1..], [])
  }

  function PartMeaning(part: Part): seq<AstNode>
    requires part.Inner?
    decreases part, 1
  {
    Meaning(part.block)
  }

  // ----- the documents this holds for

  /** Whether a piece opens a style, at any depth. */
  predicate Opens(p: Piece, style: Style)
    decreases p, 1
  {
    match p
    case InStyle(own, content, _) => own == style || AnyOpens(content, style)
    case Linked(_, content, _) => AnyOpens(content, style)
    case Pictured(_, alt, _) => AnyOpens(alt, style)
    case _ => false
  }

  predicate AnyOpens(pieces: seq<Piece>, style: Style)
    decreases pieces, 0
  {
    pieces != [] && (Opens(pieces[0], style) || AnyOpens(pieces[1..], style))
  }

  /** The styles still in force after a piece: not those it opened, for their ends end them
      all the way out. */
  function After(p: Piece, f: Format): Format {
    Format(f.bold && !Opens(p, Strong), f.italic && !Opens(p, Emphasis), f.strikethrough && !Opens(p, Strikethrough))
  }

  function AfterAll(pieces: seq<Piece>, f: Format): Format {
    Format(f.bold && !AnyOpens(pieces, Strong), f.italic && !AnyOpens(pieces, Emphasis),
           f.strikethrough && !AnyOpens(pieces, Strikethrough))
  }

  /** Whether all a piece shows is in its style, where `meant` encloses it and `given` is in
      force: nothing shown follows a style that was opened again inside itself, up to the end of
      the enclosing one. An image's text has no style. */
  predicate Kept(p: Piece, meant: Format, given: Format)
    decreases p, 1
  {
    match p
    case Words(text, _) => text == "" || meant == given
    case CodeSpan(_, _) => meant == given
    case LineBreak(_) => meant == given
    case InStyle(style, content, _) => AllKept(content, WithStyle(meant, style), WithStyle(given, style))
    case Linked(_, content, _) => AllKept(content, meant, given)
    case _ => true
  }

  predicate AllKept(pieces: seq<Piece>, meant: Format, given: Format)
    decreases pieces, 0
  {
    pieces == [] || (Kept(pieces[0], meant, given) && AllKept(pieces[1..], meant, After(pieces[0], given)))
  }

  /** So at every depth of a block. */
  predicate StylesKept(b: Block)
    decreases b, 1
  {
    match b
    case Head(_, content, _) => AllKept(content, PLAIN, PLAIN)
    case Para(content, _) => AllKept(content, PLAIN, PLAIN)
    case Quote(blocks, _) => AllStylesKept(blocks)
    case Listing(_, items, _) => ItemStylesKept(items)
    case _ => true
  }

  predicate AllStylesKept(blocks: seq<Block>)
    decreases blocks, 0
  {
    blocks == [] || (StylesKept(blocks[0]) && AllStylesKept(blocks[1..]))
  }

  predicate ItemStylesKept(items: seq<Item>)
    decreases items, 0
  {
    items == [] || (PartStylesKept(items[0].parts) && ItemStylesKept(items[1..]))
  }

  predicate PartStyleKept(part: Part)
    decreases part, 1
  {
    match part case Bare(content) => AllKept(content, PLAIN, PLAIN) case Inner(block) => StylesKept(block)
  }

  predicate PartStylesKept(parts: seq<Part>)
    decreases parts, 0
  {
    parts == [] || (PartStyleKept(parts[0]) && PartStylesKept(parts[1..]))
  }

  /** At every depth, of the blocks with nodes only a list follows bare text that is still waiting. */
  predicate Tight(b: Block)
    decreases b, 1
  {
    match b
    case Quote(blocks, _) => AllTight(blocks)
    case Listing(_, items, _) => ItemsTight(items)
    case _ => true
  }

  predicate AllTight(blocks: seq<Block>)
    decreases blocks, 0
  {
    blocks == [] || (Tight(blocks[0]) && AllTight(blocks[1..]))
  }

  predicate ItemsTight(items: seq<Item>)
    decreases items, 0
  {
    items == [] || (PartsTight(items[0].parts, []) && ItemsTight(items[1..]))
  }

  predicate PartsTight(parts: seq<Part>, pending: seq<Inline>)
    decreases parts, 0
  {
    parts == [] ||
    match parts[0]
      case Bare(content) => PartsTight(parts[1..], Cut(pending, FlowAll(content, PLAIN)).1)
      case Inner(block) =>
        if Unseen(block) then PartsTight(parts[1..], pending)
        else (pending == [] || block.Listing?) && PartTight(parts[0]) && PartsTight(parts[1..], [])
  }

  predicate PartTight(part: Part)
    requires part.Inner?
    decreases part, 1
  {
    Tight(part.block)
  }
}
