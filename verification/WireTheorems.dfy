/** Decoding an encoding yields the value and leaves the bytes that follow, exactly for the values
    whose vectors and strings are shorter than 2^31. */
module WireTheorems {
  import opened Text
  import opened Ast
  import opened Utf8
  import opened WireFormat

  // ----- what fits

  predicate FitsString(s: string) {
    |Encode(s)| < TWO_31
  }

  predicate FitsInline(x: Inline)
    decreases x, 1
  {
    match x
    case Run(run) => FitsString(run.content)
    case Link(targetId, _, content) => FitsString(targetId) && FitsInlines(content)
    case ExternalLink(url, content) => FitsString(url) && FitsInlines(content)
  }

  predicate FitsInlines(content: seq<Inline>)
    decreases content, 1
  {
    |content| < TWO_31 && FitInlineItems(content)
  }

  predicate FitInlineItems(content: seq<Inline>)
    decreases content, 0
  {
    content == [] || (FitsInline(content[0]) && FitInlineItems(content[1..]))
  }

  predicate FitsNode(x: AstNode)
    decreases x, 2
  {
    match x
    case Heading(level, inlines) => level < 256 && FitsInlines(inlines)
    case Paragraph(inlines) => FitsInlines(inlines)
    case List(_, items) => FitsNodes(items)
    case ListItem(nodes, _) => FitsNodes(nodes)
    case Blockquote(nodes) => FitsNodes(nodes)
    case CodeBlock(language, code) => (language.Some? ==> FitsString(language.value)) && FitsString(code)
    case ThematicBreak => true
    case Image(altText, url) => FitsString(altText) && FitsString(url)
    case Suggestion(base, local, incoming) => FitsBase(base) && FitsNodes(local) && FitsNodes(incoming)
  }

  predicate FitsBase(base: MaybeNodes)
    decreases base, 1
  {
    match base case NoNodes => true case SomeNodes(nodes) => FitsNodes(nodes)
  }

  predicate FitsNodes(nodes: seq<AstNode>)
    decreases nodes, 1
  {
    |nodes| < TWO_31 && FitNodeItems(nodes)
  }

  predicate FitNodeItems(nodes: seq<AstNode>)
    decreases nodes, 0
  {
    nodes == [] || (FitsNode(nodes[0]) && FitNodeItems(nodes[1..]))
  }

  // ----- primitives

  lemma Assoc(a: seq<Byte>, b: seq<Byte>, c: seq<Byte>)
    ensures (a + b) + c == a + (b + c)
  {
  }

  lemma Digits(u: nat)
    requires u < TWO_32
    ensures ((u / 256 / 256 / 256 * 256 + u / 256 / 256 % 256) * 256 + u / 256 % 256) * 256 + u % 256 == u
    ensures u / 256 / 256 / 256 < 256
  {
  }

  lemma I32Back(e: Endian, n: int, rest: seq<Byte>)
    requires -TWO_31 <= n < TWO_31
    ensures DecodeI32(e, EncodeI32(e, n) + rest) == Ok(n, rest)
  {
    var u := if n < 0 then n + TWO_32 else n;
    Digits(u);
    var here := EncodeI32(e, n);
    assert forall k :: 0 <= k < 4 ==> (here + rest)[k] == here[k];
    assert (here + rest)[4..] == rest;
  }

  lemma BoolBack(b: bool, rest: seq<Byte>)
    ensures DecodeBool(EncodeBool(b) + rest) == Ok(b, rest)
  {
  }

  lemma Parts(a: seq<Byte>, b: seq<Byte>)
    ensures (a + b)[..|a|] == a && (a + b)[|a|..] == b
  {
  }

  lemma BytesBack(e: Endian, bytes: seq<Byte>, rest: seq<Byte>)
    requires |bytes| < TWO_31
    ensures DecodeBytes(e, EncodeI32(e, AsI32(|bytes|)) + (bytes + rest)) == Ok(bytes, rest)
  {
    hide EncodeI32, DecodeI32;
    I32Back(e, |bytes|, bytes + rest);
    Parts(bytes, rest);
  }

  lemma StringBack(e: Endian, s: string, rest: seq<Byte>)
    requires FitsString(s)
    ensures DecodeString(e, EncodeString(e, s) + rest) == Ok(s, rest)
  {
    hide EncodeI32, DecodeBytes, Encode, Decode, AsI32;
    var bytes := Encode(s);
    Assoc(EncodeI32(e, AsI32(|bytes|)), bytes, rest);
    BytesBack(e, bytes, rest);
    DecodeEncode(s);
  }

  lemma OptBoolBack(b: Option<bool>, rest: seq<Byte>)
    ensures DecodeOptBool(EncodeOptBool(b) + rest) == Ok(b, rest)
  {
    hide EncodeBool, DecodeBool;
    BoolBack(b.Some?, if b.Some? then EncodeBool(b.value) + rest else rest);
    if b.Some? {
      Assoc(EncodeBool(true), EncodeBool(b.value), rest);
      BoolBack(b.value, rest);
    }
  }

  lemma OptStringBack(e: Endian, s: Option<string>, rest: seq<Byte>)
    requires s.Some? ==> FitsString(s.value)
    ensures DecodeOptString(e, EncodeOptString(e, s) + rest) == Ok(s, rest)
  {
    hide EncodeBool, DecodeBool, EncodeString, DecodeString;
    BoolBack(s.Some?, if s.Some? then EncodeString(e, s.value) + rest else rest);
    if s.Some? {
      Assoc(EncodeBool(true), EncodeString(e, s.value), rest);
      StringBack(e, s.value, rest);
    }
  }

  // ----- round trips

  lemma RunBack(e: Endian, r: TextRun, rest: seq<Byte>)
    requires FitsString(r.content)
    ensures DecodeRun(e, EncodeRun(e, r) + rest) == Ok(r, rest)
  {
    hide EncodeBool, DecodeBool, EncodeString, DecodeString;
    var code := EncodeBool(r.code);
    var strikethrough := EncodeBool(r.strikethrough) + code;
    var italic := EncodeBool(r.italic) + strikethrough;
    var bold := EncodeBool(r.bold) + italic;
    Assoc(EncodeString(e, r.content), bold, rest);
    Assoc(EncodeBool(r.bold), italic, rest);
    Assoc(EncodeBool(r.italic), strikethrough, rest);
    Assoc(EncodeBool(r.strikethrough), code, rest);
    StringBack(e, r.content, bold + rest);
    BoolBack(r.bold, italic + rest);
    BoolBack(r.italic, strikethrough + rest);
    BoolBack(r.strikethrough, code + rest);
    BoolBack(r.code, rest);
  }

  lemma {:induction false} InlineBack(e: Endian, x: Inline, rest: seq<Byte>)
    requires FitsInline(x)
    ensures DecodeInline(e, EncodeInline(e, x) + rest) == Ok(x, rest)
    decreases x, 1
  {
    hide EncodeBool, DecodeBool, EncodeString, DecodeString, EncodeI32, DecodeI32, EncodeRun, DecodeRun, EncodeInlines, DecodeInlines, FitsString, FitsInlines;
    match x {
      case Run(run) =>
        Assoc(EncodeI32(e, 0), EncodeRun(e, run), rest);
        I32Back(e, 0, EncodeRun(e, run) + rest);
        RunBack(e, run, rest);
      case Link(targetId, known, content) =>
        var c := EncodeInlines(e, content);
        var b := EncodeBool(known) + c;
        var a := EncodeString(e, targetId) + b;
        Assoc(EncodeI32(e, 1), a, rest);
        Assoc(EncodeString(e, targetId), b, rest);
        Assoc(EncodeBool(known), c, rest);
        I32Back(e, 1, a + rest);
        StringBack(e, targetId, b + rest);
        BoolBack(known, c + rest);
        InlinesBack(e, content, rest);
      case ExternalLink(url, content) =>
        var c := EncodeInlines(e, content);
        var a := EncodeString(e, url) + c;
        Assoc(EncodeI32(e, 2), a, rest);
        Assoc(EncodeString(e, url), c, rest);
        I32Back(e, 2, a + rest);
        StringBack(e, url, c + rest);
        InlinesBack(e, content, rest);
    }
  }

  lemma {:induction false} InlinesBack(e: Endian, content: seq<Inline>, rest: seq<Byte>)
    requires FitsInlines(content)
    ensures DecodeInlines(e, EncodeInlines(e, content) + rest) == Ok(content, rest)
    decreases content, 1
  {
    hide EncodeI32, DecodeI32, InlineItems, DecodeInlineItems, FitInlineItems;
    Assoc(EncodeI32(e, AsI32(|content|)), InlineItems(e, content), rest);
    I32Back(e, |content|, InlineItems(e, content) + rest);
    InlineItemsBack(e, content, rest);
  }

  lemma {:induction false} InlineItemsBack(e: Endian, content: seq<Inline>, rest: seq<Byte>)
    requires FitInlineItems(content)
    ensures DecodeInlineItems(e, InlineItems(e, content) + rest, |content|) == Ok(content, rest)
    decreases content, 0
  {
    hide EncodeInline, DecodeInline, FitsInline;
    if content != [] {
      Assoc(EncodeInline(e, content[0]), InlineItems(e, content[1..]), rest);
      InlineBack(e, content[0], InlineItems(e, content[1..]) + rest);
      InlineItemsBack(e, content[1..], rest);
      assert content == [content[0]] + content[1..];
    }
  }

  /** For every AST value that fits, and any bytes after its encoding. */
  lemma {:induction false} NodeBack(e: Endian, x: AstNode, rest: seq<Byte>)
    requires FitsNode(x)
    ensures DecodeNode(e, EncodeNode(e, x) + rest) == Ok(x, rest)
    decreases x, 2
  {
    hide EncodeBool, DecodeBool, EncodeString, DecodeString, EncodeI32, DecodeI32, EncodeInlines, DecodeInlines, FitsString, FitsInlines,
         EncodeNodes, DecodeNodes, FitsNodes, FitsBase, EncodeOptNodes, DecodeOptNodes, EncodeOptBool, DecodeOptBool, EncodeOptString, DecodeOptString;
    match x {
      case Heading(level, inlines) =>
        var c := EncodeInlines(e, inlines);
        Assoc(EncodeI32(e, 0), [level % 256] + c, rest);
        Assoc([level % 256], c, rest);
        I32Back(e, 0, [level % 256] + c + rest);
        assert ([level % 256] + (c + rest))[1..] == c + rest;
        InlinesBack(e, inlines, rest);
      case Paragraph(inlines) =>
        Assoc(EncodeI32(e, 1), EncodeInlines(e, inlines), rest);
        I32Back(e, 1, EncodeInlines(e, inlines) + rest);
        InlinesBack(e, inlines, rest);
      case List(ordered, items) =>
        var c := EncodeNodes(e, items);
        Assoc(EncodeI32(e, 2), EncodeBool(ordered) + c, rest);
        Assoc(EncodeBool(ordered), c, rest);
        I32Back(e, 2, EncodeBool(ordered) + c + rest);
        BoolBack(ordered, c + rest);
        NodesBack(e, items, rest);
      case ListItem(nodes, checked) =>
        var c := EncodeOptBool(checked);
        Assoc(EncodeI32(e, 3), EncodeNodes(e, nodes) + c, rest);
        Assoc(EncodeNodes(e, nodes), c, rest);
        I32Back(e, 3, EncodeNodes(e, nodes) + c + rest);
        NodesBack(e, nodes, c + rest);
        OptBoolBack(checked, rest);
      case Blockquote(nodes) =>
        Assoc(EncodeI32(e, 4), EncodeNodes(e, nodes), rest);
        I32Back(e, 4, EncodeNodes(e, nodes) + rest);
        NodesBack(e, nodes, rest);
      case CodeBlock(language, code) =>
        var c := EncodeString(e, code);
        Assoc(EncodeI32(e, 5), EncodeOptString(e, language) + c, rest);
        Assoc(EncodeOptString(e, language), c, rest);
        I32Back(e, 5, EncodeOptString(e, language) + c + rest);
        OptStringBack(e, language, c + rest);
        StringBack(e, code, rest);
      case ThematicBreak => I32Back(e, 6, rest);
      case Image(altText, url) =>
        var c := EncodeString(e, url);
        Assoc(EncodeI32(e, 7), EncodeString(e, altText) + c, rest);
        Assoc(EncodeString(e, altText), c, rest);
        I32Back(e, 7, EncodeString(e, altText) + c + rest);
        StringBack(e, altText, c + rest);
        StringBack(e, url, rest);
      case Suggestion(base, local, incoming) => SuggestionBack(e, base, local, incoming, rest);
    }
  }

  lemma {:induction false} SuggestionBack(e: Endian, base: MaybeNodes, local: seq<AstNode>, incoming: seq<AstNode>, rest: seq<Byte>)
    requires FitsBase(base) && FitsNodes(local) && FitsNodes(incoming)
    ensures var x := Suggestion(base, local, incoming); DecodeNode(e, EncodeNode(e, x) + rest) == Ok(x, rest)
    decreases Suggestion(base, local, incoming), 1
  {
    hide EncodeBool, DecodeBool, EncodeI32, DecodeI32, EncodeNodes, DecodeNodes, FitsNodes, FitsBase, EncodeOptNodes, DecodeOptNodes;
    var c := EncodeNodes(e, incoming);
    var b := EncodeNodes(e, local) + c;
    Assoc(EncodeI32(e, 8), EncodeOptNodes(e, base) + b, rest);
    Assoc(EncodeOptNodes(e, base), b, rest);
    Assoc(EncodeNodes(e, local), c, rest);
    I32Back(e, 8, EncodeOptNodes(e, base) + b + rest);
    BaseBack(e, base, b + rest);
    NodesBack(e, local, c + rest);
    NodesBack(e, incoming, rest);
  }

  lemma {:induction false} BaseBack(e: Endian, base: MaybeNodes, rest: seq<Byte>)
    requires FitsBase(base)
    ensures DecodeOptNodes(e, EncodeOptNodes(e, base) + rest) == Ok(base, rest)
    decreases base, 1
  {
    hide EncodeBool, DecodeBool, EncodeNodes, DecodeNodes, FitsNodes;
    BoolBack(base.SomeNodes?, if base.SomeNodes? then EncodeNodes(e, base.nodes) + rest else rest);
    if base.SomeNodes? {
      Assoc(EncodeBool(true), EncodeNodes(e, base.nodes), rest);
      NodesBack(e, base.nodes, rest);
    }
  }

  lemma {:induction false} NodesBack(e: Endian, nodes: seq<AstNode>, rest: seq<Byte>)
    requires FitsNodes(nodes)
    ensures DecodeNodes(e, EncodeNodes(e, nodes) + rest) == Ok(nodes, rest)
    decreases nodes, 1
  {
    hide EncodeI32, DecodeI32, NodeItems, DecodeNodeItems, FitNodeItems;
    Assoc(EncodeI32(e, AsI32(|nodes|)), NodeItems(e, nodes), rest);
    I32Back(e, |nodes|, NodeItems(e, nodes) + rest);
    NodeItemsBack(e, nodes, rest);
  }

  lemma {:induction false} NodeItemsBack(e: Endian, nodes: seq<AstNode>, rest: seq<Byte>)
    requires FitNodeItems(nodes)
    ensures DecodeNodeItems(e, NodeItems(e, nodes) + rest, |nodes|) == Ok(nodes, rest)
    decreases nodes, 0
  {
    hide EncodeNode, DecodeNode, FitsNode;
    if nodes != [] {
      Assoc(EncodeNode(e, nodes[0]), NodeItems(e, nodes[1..]), rest);
      NodeBack(e, nodes[0], NodeItems(e, nodes[1..]) + rest);
      NodeItemsBack(e, nodes[1..], rest);
      assert nodes == [nodes[0]] + nodes[1..];
    }
  }

  // ----- whatever is decoded fits

  lemma DecodedString(e: Endian, data: seq<Byte>)
    ensures var r := DecodeString(e, data); r.Ok? ==> FitsString(r.value)
  {
    var bytes := DecodeBytes(e, data);
    if bytes.Ok? && Decode(bytes.value).Some? { EncodeDecode(bytes.value); }
  }

  lemma DecodedRun(e: Endian, data: seq<Byte>)
    ensures var r := DecodeRun(e, data); r.Ok? ==> FitsString(r.value.content)
  {
    hide DecodeString, DecodeBool;
    DecodedString(e, data);
  }

  lemma {:induction false} DecodedInline(e: Endian, data: seq<Byte>)
    ensures var r := DecodeInline(e, data); r.Ok? ==> FitsInline(r.value)
    decreases |data|, 0
  {
    hide DecodeString, DecodeBool, DecodeI32, DecodeRun, DecodeInlines, FitsString, FitsInlines;
    var tag := DecodeI32(e, data);
    if tag.Ok? {
      DecodedRun(e, tag.rest);
      DecodedString(e, tag.rest);
      var s := DecodeString(e, tag.rest);
      if s.Ok? {
        DecodedInlines(e, s.rest);
        var b := DecodeBool(s.rest);
        if b.Ok? { DecodedInlines(e, b.rest); }
      }
    }
  }

  lemma {:induction false} DecodedInlines(e: Endian, data: seq<Byte>)
    ensures var r := DecodeInlines(e, data); r.Ok? ==> FitsInlines(r.value)
    decreases |data|, 2
  {
    hide DecodeI32, DecodeInlineItems, FitInlineItems;
    var len := DecodeI32(e, data);
    if len.Ok? && len.value >= 0 { DecodedInlineItems(e, len.rest, len.value); }
  }

  lemma {:induction false} DecodedInlineItems(e: Endian, data: seq<Byte>, n: nat)
    ensures var r := DecodeInlineItems(e, data, n); r.Ok? ==> FitInlineItems(r.value)
    decreases |data|, 1
  {
    hide DecodeInline, FitsInline;
    if n != 0 {
      var first := DecodeInline(e, data);
      DecodedInline(e, data);
      if first.Ok? {
        DecodedInlineItems(e, first.rest, n - 1);
        var more := DecodeInlineItems(e, first.rest, n - 1);
        if more.Ok? { assert ([first.value] + more.value)[1..] == more.value; }
      }
    }
  }

  lemma DecodedOptString(e: Endian, data: seq<Byte>)
    ensures var r := DecodeOptString(e, data); r.Ok? && r.value.Some? ==> FitsString(r.value.value)
  {
    hide DecodeString, DecodeBool, FitsString;
    var b := DecodeBool(data);
    if b.Ok? { DecodedString(e, b.rest); }
  }

  lemma {:induction false} DecodedNode(e: Endian, data: seq<Byte>)
    ensures var r := DecodeNode(e, data); r.Ok? ==> FitsNode(r.value)
    decreases |data|, 0
  {
    hide DecodeBool, DecodeString, DecodeI32, DecodeInlines, FitsString, FitsInlines, DecodeNodes, FitsNodes, FitsBase, DecodeOptNodes,
         DecodeOptBool, DecodeOptString;
    var tag := DecodeI32(e, data);
    if tag.Ok? {
      var d := tag.rest;
      if tag.value == 0 { if d != [] { DecodedInlines(e, d[1..]); } }
      else if tag.value == 1 { DecodedInlines(e, d); }
      else if tag.value == 2 { var b := DecodeBool(d); if b.Ok? { DecodedNodes(e, b.rest); } }
      else if tag.value == 3 || tag.value == 4 { DecodedNodes(e, d); }
      else if tag.value == 5 {
        DecodedOptString(e, d);
        var s := DecodeOptString(e, d);
        if s.Ok? { DecodedString(e, s.rest); }
      } else if tag.value == 7 {
        DecodedString(e, d);
        var s := DecodeString(e, d);
        if s.Ok? { DecodedString(e, s.rest); }
      } else if tag.value == 8 {
        DecodedBase(e, d);
        var base := DecodeOptNodes(e, d);
        if base.Ok? {
          DecodedNodes(e, base.rest);
          var local := DecodeNodes(e, base.rest);
          if local.Ok? { DecodedNodes(e, local.rest); }
        }
      }
    }
  }

  lemma {:induction false} DecodedBase(e: Endian, data: seq<Byte>)
    ensures var r := DecodeOptNodes(e, data); r.Ok? ==> FitsBase(r.value)
    decreases |data|, 3
  {
    hide DecodeBool, DecodeNodes, FitsNodes;
    var b := DecodeBool(data);
    if b.Ok? { DecodedNodes(e, b.rest); }
  }

  lemma {:induction false} DecodedNodes(e: Endian, data: seq<Byte>)
    ensures var r := DecodeNodes(e, data); r.Ok? ==> FitsNodes(r.value)
    decreases |data|, 2
  {
    hide DecodeI32, DecodeNodeItems, FitNodeItems;
    var len := DecodeI32(e, data);
    if len.Ok? && len.value >= 0 { DecodedNodeItems(e, len.rest, len.value); }
  }

  lemma {:induction false} DecodedNodeItems(e: Endian, data: seq<Byte>, n: nat)
    ensures var r := DecodeNodeItems(e, data, n); r.Ok? ==> FitNodeItems(r.value)
    decreases |data|, 1
  {
    hide DecodeNode, FitsNode;
    if n != 0 {
      var first := DecodeNode(e, data);
      DecodedNode(e, data);
      if first.Ok? {
        DecodedNodeItems(e, first.rest, n - 1);
        var more := DecodeNodeItems(e, first.rest, n - 1);
        if more.Ok? { assert ([first.value] + more.value)[1..] == more.value; }
      }
    }
  }

  // ----- the law, exactly

  /** The round trip holds for exactly the values whose vectors and strings are shorter than 2^31
      and whose levels are a byte: a longer length is cast to another one. */
  lemma RoundTripsExactly(e: Endian, x: AstNode, rest: seq<Byte>)
    ensures DecodeNode(e, EncodeNode(e, x) + rest) == Ok(x, rest) <==> FitsNode(x)
  {
    hide EncodeNode, DecodeNode, FitsNode;
    DecodedNode(e, EncodeNode(e, x) + rest);
    if FitsNode(x) { NodeBack(e, x, rest); }
  }

  /** Reading is stable: what any bytes decode to decodes again from its own encoding. */
  lemma DecodedAgain(e: Endian, data: seq<Byte>, more: seq<Byte>)
    requires DecodeNode(e, data).Ok?
    ensures var x := DecodeNode(e, data).value; DecodeNode(e, EncodeNode(e, x) + more) == Ok(x, more)
  {
    hide EncodeNode, DecodeNode, FitsNode;
    DecodedNode(e, data);
    NodeBack(e, DecodeNode(e, data).value, more);
  }

  /** Encodings of values that fit are unambiguous: none is the beginning of another's. */
  lemma Unambiguous(e: Endian, x: AstNode, y: AstNode, restX: seq<Byte>, restY: seq<Byte>)
    requires FitsNode(x) && FitsNode(y) && EncodeNode(e, x) + restX == EncodeNode(e, y) + restY
    ensures x == y && restX == restY
  {
    hide EncodeNode, DecodeNode, FitsNode;
    NodeBack(e, x, restX);
    NodeBack(e, y, restY);
  }
}
