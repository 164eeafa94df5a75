/** The codec as it runs: a serializer that writes in order, and a deserializer that moves a cursor
    and pushes what it reads, returning nothing as soon as a read fails. */
module WireCodec {
  import opened Text
  import opened Ast
  import opened Utf8
  import opened WireFormat
  import opened WireTheorems

  lemma FiveInOrder(o: seq<Byte>, a: seq<Byte>, b: seq<Byte>, c: seq<Byte>, d: seq<Byte>, e: seq<Byte>)
    ensures o + a + b + c + d + e == o + (a + (b + (c + (d + e))))
  {
    Assoc(o + a + b + c, d, e);
    Assoc(o + a + b, c, d + e);
    Assoc(o + a, b, c + (d + e));
    Assoc(o, a, b + (c + (d + e)));
  }

  class Serializer {
    const endian: Endian
    var out: seq<Byte>

    constructor (endian: Endian)
      ensures this.endian == endian && out == []
    {
      this.endian := endian;
      out := [];
    }

    method WriteI32(n: int)
      requires -TWO_31 <= n < TWO_31
      modifies this
      ensures out == old(out) + EncodeI32(endian, n)
    {
      out := out + EncodeI32(endian, n);
    }

    method WriteBool(b: bool)
      modifies this
      ensures out == old(out) + EncodeBool(b)
    {
      out := out + [if b then 1 else 0];
    }

    method WriteString(s: string)
      modifies this
      ensures out == old(out) + EncodeString(endian, s)
    {
      hide EncodeI32, Encode;
      var bytes := Encode(s);
      WriteI32(AsI32(|bytes|));
      ghost var start := out;
      for i := 0 to |bytes|
        invariant out == start + bytes[..i]
      {
        out := out + [bytes[i]];
      }
      assert bytes[..|bytes|] == bytes;
      Assoc(old(out), EncodeI32(endian, AsI32(|bytes|)), bytes);
    }

    method WriteRun(r: TextRun)
      modifies this
      ensures out == old(out) + EncodeRun(endian, r)
    {
      hide EncodeString, EncodeBool;
      WriteString(r.content);
      WriteBool(r.bold);
      WriteBool(r.italic);
      WriteBool(r.strikethrough);
      WriteBool(r.code);
      FiveInOrder(old(out), EncodeString(endian, r.content), EncodeBool(r.bold), EncodeBool(r.italic), EncodeBool(r.strikethrough), EncodeBool(r.code));
    }

    method WriteInline(x: Inline)
      modifies this
      ensures out == old(out) + EncodeInline(endian, x)
      decreases x, 1
    {
      hide EncodeString, EncodeBool, EncodeI32, EncodeRun, EncodeInlines;
      match x {
        case Run(run) =>
          WriteI32(0);
          WriteRun(run);
        case Link(targetId, known, content) =>
          WriteI32(1);
          WriteString(targetId);
          WriteBool(known);
          WriteInlines(content);
        case ExternalLink(url, content) =>
          WriteI32(2);
          WriteString(url);
          WriteInlines(content);
      }
    }

    method WriteInlines(content: seq<Inline>)
      modifies this
      ensures out == old(out) + EncodeInlines(endian, content)
      decreases content, 0
    {
      hide EncodeI32, EncodeInline;
      WriteI32(AsI32(|content|));
      ghost var start := out;
      for i := 0 to |content|
        invariant out + InlineItems(endian, content[i..]) == start + InlineItems(endian, content)
      {
        ghost var before := out;
        assert content[i..][0] == content[i] && content[i..][1..] == content[i + 1..];
        WriteInline(content[i]);
        Assoc(before, EncodeInline(endian, content[i]), InlineItems(endian, content[i + 1..]));
      }
      assert content[|content|..] == [] && out + [] == out;
      Assoc(old(out), EncodeI32(endian, AsI32(|content|)), InlineItems(endian, content));
    }

    method WriteOptBool(b: Option<bool>)
      modifies this
      ensures out == old(out) + EncodeOptBool(b)
    {
      WriteBool(b.Some?);
      if b.Some? { WriteBool(b.value); }
    }

    method WriteOptString(s: Option<string>)
      modifies this
      ensures out == old(out) + EncodeOptString(endian, s)
    {
      hide EncodeString, EncodeBool;
      WriteBool(s.Some?);
      if s.Some? { WriteString(s.value); }
    }

    method WriteNode(x: AstNode)
      modifies this
      ensures out == old(out) + EncodeNode(endian, x)
      decreases x, 1
    {
      hide EncodeString, EncodeBool, EncodeI32, EncodeInlines, EncodeNodes, EncodeOptNodes, EncodeOptBool, EncodeOptString;
      match x {
        case Heading(level, inlines) =>
          WriteI32(0);
          out := out + [level % 256];
          WriteInlines(inlines);
        case Paragraph(inlines) =>
          WriteI32(1);
          WriteInlines(inlines);
        case List(ordered, items) =>
          WriteI32(2);
          WriteBool(ordered);
          WriteNodes(items);
        case ListItem(nodes, checked) =>
          WriteI32(3);
          WriteNodes(nodes);
          WriteOptBool(checked);
        case Blockquote(nodes) =>
          WriteI32(4);
          WriteNodes(nodes);
        case CodeBlock(language, code) =>
          WriteI32(5);
          WriteOptString(language);
          WriteString(code);
        case ThematicBreak => WriteI32(6);
        case Image(altText, url) =>
          WriteI32(7);
          WriteString(altText);
          WriteString(url);
        case Suggestion(base, local, incoming) =>
          WriteI32(8);
          WriteOptNodes(base);
          WriteNodes(local);
          WriteNodes(incoming);
      }
    }

    method WriteOptNodes(base: MaybeNodes)
      modifies this
      ensures out == old(out) + EncodeOptNodes(endian, base)
      decreases base, 1
    {
      hide EncodeBool, EncodeNodes;
      WriteBool(base.SomeNodes?);
      if base.SomeNodes? { WriteNodes(base.nodes); }
    }

    method WriteNodes(nodes: seq<AstNode>)
      modifies this
      ensures out == old(out) + EncodeNodes(endian, nodes)
      decreases nodes, 0
    {
      hide EncodeI32, EncodeNode;
      WriteI32(AsI32(|nodes|));
      ghost var start := out;
      for i := 0 to |nodes|
        invariant out + NodeItems(endian, nodes[i..]) == start + NodeItems(endian, nodes)
      {
        ghost var before := out;
        assert nodes[i..][0] == nodes[i] && nodes[i..][1..] == nodes[i + 1..];
        WriteNode(nodes[i]);
        Assoc(before, EncodeNode(endian, nodes[i]), NodeItems(endian, nodes[i + 1..]));
      }
      assert nodes[|nodes|..] == [] && out + [] == out;
      Assoc(old(out), EncodeI32(endian, AsI32(|nodes|)), NodeItems(endian, nodes));
    }
  }

  /** What a read returns: the value, or nothing when the bytes do not parse. */
  function Value<T>(p: Parsed<T>): Option<T> {
    match p case Fail => None case Ok(v, _) => Some(v)
  }

  /** A vector partly read: what is done and what is still to come make up the whole. */
  ghost predicate SoFar<T>(all: Parsed<seq<T>>, done: seq<T>, more: Parsed<seq<T>>) {
    if more.Fail? then all.Fail? else all.Ok? && all.value == done + more.value && all.rest == more.rest
  }

  lemma OneFurther<T>(all: Parsed<seq<T>>, done: seq<T>, x: T, tail: Parsed<seq<T>>, more: Parsed<seq<T>>)
    requires SoFar(all, done, tail)
    requires tail == match more case Fail => Fail case Ok(rest, left) => Ok([x] + rest, left)
    ensures SoFar(all, done + [x], more)
  {
    if more.Ok? { assert done + ([x] + more.value) == done + [x] + more.value; }
  }

  class Deserializer {
    const endian: Endian
    const data: seq<Byte>
    var cursor: nat

    constructor (endian: Endian, data: seq<Byte>)
      ensures this.endian == endian && this.data == data && cursor == 0 && Valid()
    {
      this.endian := endian;
      this.data := data;
      cursor := 0;
    }

    ghost predicate Valid()
      reads this
    {
      cursor <= |data|
    }

    function Left(): seq<Byte>
      requires Valid()
      reads this
    {
      data[cursor..]
    }

    /** The read did what parsing the bytes left does, and did not move back. */
    ghost predicate Read<T>(p: Parsed<T>, r: Option<T>, from: nat)
      reads this
    {
      && Valid() && from <= cursor
      && r == Value(p) && (p.Ok? ==> Left() == p.rest)
    }

    method ReadI32() returns (r: Option<int>)
      requires Valid()
      modifies this
      ensures Read(DecodeI32(endian, old(Left())), r, old(cursor))
      ensures r.Some? ==> cursor == old(cursor) + 4 && -TWO_31 <= r.value < TWO_31
    {
      var p := DecodeI32(endian, Left());
      if p.Fail? { return None; }
      cursor := cursor + 4;
      return Some(p.value);
    }

    method ReadBool() returns (r: Option<bool>)
      requires Valid()
      modifies this
      ensures Read(DecodeBool(old(Left())), r, old(cursor))
      ensures r.Some? ==> cursor == old(cursor) + 1
    {
      if cursor == |data| { return None; }
      r := Some(data[cursor] != 0);
      cursor := cursor + 1;
    }

    method ReadByte() returns (r: Option<nat>)
      requires Valid()
      modifies this
      ensures Read(DecodeByte(old(Left())), r, old(cursor))
      ensures r.Some? ==> cursor == old(cursor) + 1
    {
      if cursor == |data| { return None; }
      r := Some(data[cursor]);
      cursor := cursor + 1;
    }

    /** `Vec<u8>`: byte after byte. */
    method ReadBytes() returns (r: Option<seq<Byte>>)
      requires Valid()
      modifies this
      ensures Read(DecodeBytes(endian, old(Left())), r, old(cursor))
    {
      hide DecodeI32;
      var len := ReadI32();
      if len.None? || len.value < 0 { return None; }
      var bytes: seq<Byte> := [];
      ghost var left := Left();
      ghost var start := cursor;
      while |bytes| < len.value
        invariant Valid() && start <= cursor && |bytes| <= len.value && cursor == start + |bytes|
        invariant |bytes| <= |left| && bytes == left[..|bytes|] && Left() == left[|bytes|..]
      {
        var b := ReadByte();
        if b.None? { return None; }
        assert left[..|bytes| + 1] == left[..|bytes|] + [left[|bytes|]];
        bytes := bytes + [b.value];
      }
      return Some(bytes);
    }

    method ReadString() returns (r: Option<string>)
      requires Valid()
      modifies this
      ensures Read(DecodeString(endian, old(Left())), r, old(cursor))
    {
      hide DecodeBytes;
      var bytes := ReadBytes();
      if bytes.None? { return None; }
      return Decode(bytes.value);
    }

    method ReadRun() returns (r: Option<TextRun>)
      requires Valid()
      modifies this
      ensures Read(DecodeRun(endian, old(Left())), r, old(cursor))
    {
      hide DecodeString, DecodeBool;
      var content := ReadString();
      if content.None? { return None; }
      var bold := ReadBool();
      if bold.None? { return None; }
      var italic := ReadBool();
      if italic.None? { return None; }
      var strikethrough := ReadBool();
      if strikethrough.None? { return None; }
      var code := ReadBool();
      if code.None? { return None; }
      return Some(TextRun(content.value, bold.value, italic.value, strikethrough.value, code.value));
    }

    method ReadInline() returns (r: Option<Inline>)
      requires Valid()
      modifies this
      ensures Read(DecodeInline(endian, old(Left())), r, old(cursor))
      decreases |data| - cursor, 0
    {
      hide DecodeString, DecodeBool, DecodeI32, DecodeRun, DecodeInlines;
      var tag := ReadI32();
      if tag.None? { return None; }
      if tag.value == 0 {
        var run := ReadRun();
        if run.None? { return None; }
        return Some(Run(run.value));
      } else if tag.value == 1 {
        var targetId := ReadString();
        if targetId.None? { return None; }
        var known := ReadBool();
        if known.None? { return None; }
        var content := ReadInlines();
        if content.None? { return None; }
        return Some(Link(targetId.value, known.value, content.value));
      } else if tag.value == 2 {
        var url := ReadString();
        if url.None? { return None; }
        var content := ReadInlines();
        if content.None? { return None; }
        return Some(ExternalLink(url.value, content.value));
      }
      return None;
    }

    method ReadInlines() returns (r: Option<seq<Inline>>)
      requires Valid()
      modifies this
      ensures Read(DecodeInlines(endian, old(Left())), r, old(cursor))
      decreases |data| - cursor, 1
    {
      hide DecodeI32, DecodeInline;
      var len := ReadI32();
      if len.None? || len.value < 0 { return None; }
      var content: seq<Inline> := [];
      ghost var all := DecodeInlineItems(endian, Left(), len.value);
      ghost var start := cursor;
      while |content| < len.value
        invariant Valid() && start <= cursor && |content| <= len.value
        invariant SoFar(all, content, DecodeInlineItems(endian, Left(), len.value - |content|))
      {
        ghost var n := len.value - |content|;
        ghost var tail := DecodeInlineItems(endian, Left(), n);
        var x := ReadInline();
        if x.None? { return None; }
        OneFurther(all, content, x.value, tail, DecodeInlineItems(endian, Left(), n - 1));
        content := content + [x.value];
      }
      assert content + [] == content;
      return Some(content);
    }

    method ReadOptBool() returns (r: Option<Option<bool>>)
      requires Valid()
      modifies this
      ensures Read(DecodeOptBool(old(Left())), r, old(cursor))
    {
      hide DecodeBool;
      var present := ReadBool();
      if present.None? { return None; }
      if !present.value { return Some(None); }
      var v := ReadBool();
      if v.None? { return None; }
      return Some(Some(v.value));
    }

    method ReadOptString() returns (r: Option<Option<string>>)
      requires Valid()
      modifies this
      ensures Read(DecodeOptString(endian, old(Left())), r, old(cursor))
    {
      hide DecodeBool, DecodeString;
      var present := ReadBool();
      if present.None? { return None; }
      if !present.value { return Some(None); }
      var v := ReadString();
      if v.None? { return None; }
      return Some(Some(v.value));
    }

    method ReadOptNodes() returns (r: Option<MaybeNodes>)
      requires Valid()
      modifies this
      ensures Read(DecodeOptNodes(endian, old(Left())), r, old(cursor))
      decreases |data| - cursor, 3
    {
      hide DecodeBool, DecodeNodes;
      var present := ReadBool();
      if present.None? { return None; }
      if !present.value { return Some(NoNodes); }
      var v := ReadNodes();
      if v.None? { return None; }
      return Some(SomeNodes(v.value));
    }

    method ReadNodes() returns (r: Option<seq<AstNode>>)
      requires Valid()
      modifies this
      ensures Read(DecodeNodes(endian, old(Left())), r, old(cursor))
      decreases |data| - cursor, 2
    {
      hide DecodeI32, DecodeNode;
      var len := ReadI32();
      if len.None? || len.value < 0 { return None; }
      var nodes: seq<AstNode> := [];
      ghost var all := DecodeNodeItems(endian, Left(), len.value);
      ghost var start := cursor;
      while |nodes| < len.value
        invariant Valid() && start <= cursor && |nodes| <= len.value
        invariant SoFar(all, nodes, DecodeNodeItems(endian, Left(), len.value - |nodes|))
      {
        ghost var n := len.value - |nodes|;
        ghost var tail := DecodeNodeItems(endian, Left(), n);
        var x := ReadNode();
        if x.None? { return None; }
        OneFurther(all, nodes, x.value, tail, DecodeNodeItems(endian, Left(), n - 1));
        nodes := nodes + [x.value];
      }
      assert nodes + [] == nodes;
      return Some(nodes);
    }

    method ReadNode() returns (r: Option<AstNode>)
      requires Valid()
      modifies this
      ensures Read(DecodeNode(endian, old(Left())), r, old(cursor))
      decreases |data| - cursor, 0
    {
      hide DecodeString, DecodeBool, DecodeI32, DecodeInlines, DecodeNodes, DecodeOptNodes, DecodeOptString, DecodeOptBool, DecodeByte;
      var tag := ReadI32();
      if tag.None? { return None; }
      if tag.value == 0 {
        var level := ReadByte();
        if level.None? { return None; }
        var inlines := ReadInlines();
        if inlines.None? { return None; }
        return Some(Heading(level.value, inlines.value));
      } else if tag.value == 1 {
        var inlines := ReadInlines();
        if inlines.None? { return None; }
        return Some(Paragraph(inlines.value));
      } else if tag.value == 2 {
        var ordered := ReadBool();
        if ordered.None? { return None; }
        var items := ReadNodes();
        if items.None? { return None; }
        return Some(List(ordered.value, items.value));
      } else if tag.value == 3 {
        var nodes := ReadNodes();
        if nodes.None? { return None; }
        var checked := ReadOptBool();
        if checked.None? { return None; }
        return Some(ListItem(nodes.value, checked.value));
      } else if tag.value == 4 {
        var nodes := ReadNodes();
        if nodes.None? { return None; }
        return Some(Blockquote(nodes.value));
      } else if tag.value == 5 {
        var language := ReadOptString();
        if language.None? { return None; }
        var text := ReadString();
        if text.None? { return None; }
        return Some(CodeBlock(language.value, text.value));
      } else if tag.value == 6 {
        return Some(ThematicBreak);
      } else if tag.value == 7 {
        var altText := ReadString();
        if altText.None? { return None; }
        var url := ReadString();
        if url.None? { return None; }
        return Some(Image(altText.value, url.value));
      } else if tag.value == 8 {
        var base := ReadOptNodes();
        if base.None? { return None; }
        var local := ReadNodes();
        if local.None? { return None; }
        var incoming := ReadNodes();
        if incoming.None? { return None; }
        return Some(Suggestion(base.value, local.value, incoming.value));
      }
      return None;
    }
  }

  /** A note's AST sent across: what is read is what was written, and no byte is left over. */
  method SendAcross(endian: Endian, ast: seq<AstNode>) returns (received: Option<seq<AstNode>>, left: nat)
    ensures FitsNodes(ast) ==> received == Some(ast) && left == 0
  {
    hide EncodeNodes, DecodeNodes, FitsNodes;
    var serializer := new Serializer(endian);
    serializer.WriteNodes(ast);
    var deserializer := new Deserializer(endian, serializer.out);
    assert deserializer.Left() == serializer.out && serializer.out == [] + EncodeNodes(endian, ast);
    if FitsNodes(ast) {
      NodesBack(endian, ast, []);
      assert EncodeNodes(endian, ast) + [] == EncodeNodes(endian, ast);
    }
    received := deserializer.ReadNodes();
    left := |deserializer.data| - deserializer.cursor;
    assert |deserializer.Left()| == left;
  }
}
