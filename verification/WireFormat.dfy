/** The wire format of AST values: what is written, and what reading it back yields. A read that
    panics (an unknown tag, a negative length, bytes that are not UTF-8, or not enough bytes) fails. */
module WireFormat {
  import opened Text
  import opened Ast
  import opened Utf8

  /** The byte order of the machine. */
  datatype Endian = Little | Big

  datatype Parsed<T> = Ok(value: T, rest: seq<Byte>) | Fail

  // ----- primitives

  const TWO_31: int := 0x8000_0000
  const TWO_32: int := 0x1_0000_0000

  /** `as i32` of a length. */
  function AsI32(n: nat): (r: int)
    ensures -TWO_31 <= r < TWO_31
  {
    if n % TWO_32 < TWO_31 then n % TWO_32 else n % TWO_32 - TWO_32
  }

  function EncodeI32(e: Endian, n: int): seq<Byte>
    requires -TWO_31 <= n < TWO_31
  {
    var u := if n < 0 then n + TWO_32 else n;
    var b0, b1, b2, b3 := u % 256, u / 256 % 256, u / 256 / 256 % 256, u / 256 / 256 / 256;
    if e.Little? then [b0, b1, b2, b3] else [b3, b2, b1, b0]
  }

  function DecodeI32(e: Endian, data: seq<Byte>): (r: Parsed<int>)
    ensures r.Ok? ==> |data| >= 4 && r.rest == data[4..] && -TWO_31 <= r.value < TWO_31 && |r.rest| == |data| - 4
  {
    if |data| < 4 then Fail
    else
      var b0: int, b1: int, b2: int, b3: int := data[0], data[1], data[2], data[3];
      var u := if e.Little? then ((b3 * 256 + b2) * 256 + b1) * 256 + b0 else ((b0 * 256 + b1) * 256 + b2) * 256 + b3;
      Ok(if u < TWO_31 then u else u - TWO_32, data[4..])
  }

  function EncodeBool(b: bool): seq<Byte> {
    [if b then 1 else 0]
  }

  /** Any non-zero byte is true. */
  function DecodeBool(data: seq<Byte>): (r: Parsed<bool>)
    ensures r.Ok? ==> |r.rest| == |data| - 1
  {
    if data == [] then Fail else Ok(data[0] != 0, data[1..])
  }

  function DecodeByte(data: seq<Byte>): (r: Parsed<nat>)
    ensures r.Ok? ==> |r.rest| == |data| - 1 && r.value < 256
  {
    if data == [] then Fail else Ok(data[0], data[1..])
  }

  function EncodeString(e: Endian, s: string): seq<Byte> {
    EncodeI32(e, AsI32(|Encode(s)|)) + Encode(s)
  }

  function DecodeBytes(e: Endian, data: seq<Byte>): (r: Parsed<seq<Byte>>)
    ensures r.Ok? ==> |r.rest| < |data| && |r.value| < TWO_31
  {
    match DecodeI32(e, data)
    case Fail => Fail
    case Ok(len, rest) => if 0 <= len <= |rest| then Ok(rest[..len], rest[len..]) else Fail
  }

  function DecodeString(e: Endian, data: seq<Byte>): (r: Parsed<string>)
    ensures r.Ok? ==> |r.rest| < |data|
  {
    match DecodeBytes(e, data)
    case Fail => Fail
    case Ok(bytes, rest) => match Decode(bytes) case None => Fail case Some(s) => Ok(s, rest)
  }

  function EncodeOptBool(b: Option<bool>): seq<Byte> {
    match b case None => EncodeBool(false) case Some(v) => EncodeBool(true) + EncodeBool(v)
  }

  function DecodeOptBool(data: seq<Byte>): (r: Parsed<Option<bool>>)
    ensures r.Ok? ==> |r.rest| < |data|
  {
    match DecodeBool(data)
    case Fail => Fail
    case Ok(present, rest) =>
      if !present then Ok(None, rest)
      else match DecodeBool(rest) case Fail => Fail case Ok(v, rest') => Ok(Some(v), rest')
  }

  function EncodeOptString(e: Endian, s: Option<string>): seq<Byte> {
    match s case None => EncodeBool(false) case Some(v) => EncodeBool(true) + EncodeString(e, v)
  }

  function DecodeOptString(e: Endian, data: seq<Byte>): (r: Parsed<Option<string>>)
    ensures r.Ok? ==> |r.rest| < |data|
  {
    match DecodeBool(data)
    case Fail => Fail
    case Ok(present, rest) =>
      if !present then Ok(None, rest)
      else match DecodeString(e, rest) case Fail => Fail case Ok(v, rest') => Ok(Some(v), rest')
  }

  // ----- inline content

  function EncodeRun(e: Endian, r: TextRun): seq<Byte> {
    EncodeString(e, r.content) + (EncodeBool(r.bold) + (EncodeBool(r.italic) + (EncodeBool(r.strikethrough) + EncodeBool(r.code))))
  }

  function DecodeRun(e: Endian, data: seq<Byte>): (r: Parsed<TextRun>)
    ensures r.Ok? ==> |r.rest| < |data|
  {
    match DecodeString(e, data)
    case Fail => Fail
    case Ok(content, d1) =>
      match DecodeBool(d1)
      case Fail => Fail
      case Ok(bold, d2) =>
        match DecodeBool(d2)
        case Fail => Fail
        case Ok(italic, d3) =>
          match DecodeBool(d3)
          case Fail => Fail
          case Ok(strikethrough, d4) =>
            match DecodeBool(d4)
            case Fail => Fail
            case Ok(code, d5) => Ok(TextRun(content, bold, italic, strikethrough, code), d5)
  }

  function EncodeInline(e: Endian, x: Inline): seq<Byte>
    decreases x, 1
  {
    match x
    case Run(run) => EncodeI32(e, 0) + EncodeRun(e, run)
    case Link(targetId, exists_, content) =>
      EncodeI32(e, 1) + (EncodeString(e, targetId) + (EncodeBool(exists_) + EncodeInlines(e, content)))
    case ExternalLink(url, content) => EncodeI32(e, 2) + (EncodeString(e, url) + EncodeInlines(e, content))
  }

  function EncodeInlines(e: Endian, content: seq<Inline>): seq<Byte>
    decreases content, 1
  {
    EncodeI32(e, AsI32(|content|)) + InlineItems(e, content)
  }

  function InlineItems(e: Endian, content: seq<Inline>): seq<Byte>
    decreases content, 0
  {
    if content == [] then [] else EncodeInline(e, content[0]) + InlineItems(e, content[1..])
  }

  function DecodeInline(e: Endian, data: seq<Byte>): (r: Parsed<Inline>)
    ensures r.Ok? ==> |r.rest| < |data|
    decreases |data|, 0
  {
    match DecodeI32(e, data)
    case Fail => Fail
    case Ok(tag, d0) =>
      if tag == 0 then
        match DecodeRun(e, d0) case Fail => Fail case Ok(run, d1) => Ok(Run(run), d1)
      else if tag == 1 then
        match DecodeString(e, d0)
        case Fail => Fail
        case Ok(targetId, d1) =>
          (match DecodeBool(d1)
           case Fail => Fail
           case Ok(known, d2) =>
             match DecodeInlines(e, d2) case Fail => Fail case Ok(content, d3) => Ok(Link(targetId, known, content), d3))
      else if tag == 2 then
        match DecodeString(e, d0)
        case Fail => Fail
        case Ok(url, d1) =>
          match DecodeInlines(e, d1) case Fail => Fail case Ok(content, d2) => Ok(ExternalLink(url, content), d2)
      else Fail
  }

  /** A negative length overflows the vector's capacity. */
  function DecodeInlines(e: Endian, data: seq<Byte>): (r: Parsed<seq<Inline>>)
    ensures r.Ok? ==> |r.rest| < |data| && |r.value| < TWO_31
    decreases |data|, 2
  {
    match DecodeI32(e, data)
    case Fail => Fail
    case Ok(len, d0) => if len < 0 then Fail else DecodeInlineItems(e, d0, len)
  }

  function DecodeInlineItems(e: Endian, data: seq<Byte>, n: nat): (r: Parsed<seq<Inline>>)
    ensures r.Ok? ==> |r.rest| <= |data| && |r.value| == n
    decreases |data|, 1
  {
    if n == 0 then Ok([], data)
    else
      match DecodeInline(e, data)
      case Fail => Fail
      case Ok(x, d1) =>
        match DecodeInlineItems(e, d1, n - 1) case Fail => Fail case Ok(more, d2) => Ok([x] + more, d2)
  }

  // ----- nodes

  /** A heading's level is one byte. */
  function EncodeNode(e: Endian, x: AstNode): seq<Byte>
    decreases x, 2
  {
    match x
    case Heading(level, inlines) => EncodeI32(e, 0) + ([level % 256] + EncodeInlines(e, inlines))
    case Paragraph(inlines) => EncodeI32(e, 1) + EncodeInlines(e, inlines)
    case List(ordered, items) => EncodeI32(e, 2) + (EncodeBool(ordered) + EncodeNodes(e, items))
    case ListItem(nodes, checked) => EncodeI32(e, 3) + (EncodeNodes(e, nodes) + EncodeOptBool(checked))
    case Blockquote(nodes) => EncodeI32(e, 4) + EncodeNodes(e, nodes)
    case CodeBlock(language, code) => EncodeI32(e, 5) + (EncodeOptString(e, language) + EncodeString(e, code))
    case ThematicBreak => EncodeI32(e, 6)
    case Image(altText, url) => EncodeI32(e, 7) + (EncodeString(e, altText) + EncodeString(e, url))
    case Suggestion(base, local, incoming) =>
      EncodeI32(e, 8) + (EncodeOptNodes(e, base) + (EncodeNodes(e, local) + EncodeNodes(e, incoming)))
  }

  function EncodeOptNodes(e: Endian, base: MaybeNodes): seq<Byte>
    decreases base, 1
  {
    match base case NoNodes => EncodeBool(false) case SomeNodes(nodes) => EncodeBool(true) + EncodeNodes(e, nodes)
  }

  function EncodeNodes(e: Endian, nodes: seq<AstNode>): seq<Byte>
    decreases nodes, 1
  {
    EncodeI32(e, AsI32(|nodes|)) + NodeItems(e, nodes)
  }

  function NodeItems(e: Endian, nodes: seq<AstNode>): seq<Byte>
    decreases nodes, 0
  {
    if nodes == [] then [] else EncodeNode(e, nodes[0]) + NodeItems(e, nodes[1..])
  }

  function DecodeNode(e: Endian, data: seq<Byte>): (r: Parsed<AstNode>)
    ensures r.Ok? ==> |r.rest| < |data|
    decreases |data|, 0
  {
    match DecodeI32(e, data)
    case Fail => Fail
    case Ok(tag, d0) =>
      if tag == 0 then
        match DecodeByte(d0)
        case Fail => Fail
        case Ok(level, d1) =>
          (match DecodeInlines(e, d1) case Fail => Fail case Ok(inlines, d2) => Ok(Heading(level, inlines), d2))
      else if tag == 1 then
        match DecodeInlines(e, d0) case Fail => Fail case Ok(inlines, d1) => Ok(Paragraph(inlines), d1)
      else if tag == 2 then
        match DecodeBool(d0)
        case Fail => Fail
        case Ok(ordered, d1) =>
          (match DecodeNodes(e, d1) case Fail => Fail case Ok(items, d2) => Ok(List(ordered, items), d2))
      else if tag == 3 then
        match DecodeNodes(e, d0)
        case Fail => Fail
        case Ok(nodes, d1) =>
          (match DecodeOptBool(d1) case Fail => Fail case Ok(checked, d2) => Ok(ListItem(nodes, checked), d2))
      else if tag == 4 then
        match DecodeNodes(e, d0) case Fail => Fail case Ok(nodes, d1) => Ok(Blockquote(nodes), d1)
      else if tag == 5 then
        match DecodeOptString(e, d0)
        case Fail => Fail
        case Ok(language, d1) =>
          (match DecodeString(e, d1) case Fail => Fail case Ok(code, d2) => Ok(CodeBlock(language, code), d2))
      else if tag == 6 then Ok(ThematicBreak, d0)
      else if tag == 7 then
        match DecodeString(e, d0)
        case Fail => Fail
        case Ok(altText, d1) =>
          (match DecodeString(e, d1) case Fail => Fail case Ok(url, d2) => Ok(Image(altText, url), d2))
      else if tag == 8 then
        match DecodeOptNodes(e, d0)
        case Fail => Fail
        case Ok(base, d1) =>
          (match DecodeNodes(e, d1)
           case Fail => Fail
           case Ok(local, d2) =>
             match DecodeNodes(e, d2) case Fail => Fail case Ok(incoming, d3) => Ok(Suggestion(base, local, incoming), d3))
      else Fail
  }

  function DecodeOptNodes(e: Endian, data: seq<Byte>): (r: Parsed<MaybeNodes>)
    ensures r.Ok? ==> |r.rest| < |data|
    decreases |data|, 3
  {
    match DecodeBool(data)
    case Fail => Fail
    case Ok(present, rest) =>
      if !present then Ok(NoNodes, rest)
      else match DecodeNodes(e, rest) case Fail => Fail case Ok(nodes, rest') => Ok(SomeNodes(nodes), rest')
  }

  function DecodeNodes(e: Endian, data: seq<Byte>): (r: Parsed<seq<AstNode>>)
    ensures r.Ok? ==> |r.rest| < |data| && |r.value| < TWO_31
    decreases |data|, 2
  {
    match DecodeI32(e, data)
    case Fail => Fail
    case Ok(len, d0) => if len < 0 then Fail else DecodeNodeItems(e, d0, len)
  }

  function DecodeNodeItems(e: Endian, data: seq<Byte>, n: nat): (r: Parsed<seq<AstNode>>)
    ensures r.Ok? ==> |r.rest| <= |data| && |r.value| == n
    decreases |data|, 1
  {
    if n == 0 then Ok([], data)
    else
      match DecodeNode(e, data)
      case Fail => Fail
      case Ok(x, d1) =>
        match DecodeNodeItems(e, d1, n - 1) case Fail => Fail case Ok(more, d2) => Ok([x] + more, d2)
  }
}
