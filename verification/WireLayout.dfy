/** The bytes themselves: what stands where on the wire, and what is refused. */
module WireLayout {
  import opened Text
  import opened Ast
  import opened Utf8
  import opened WireFormat
  import opened WireTheorems

  function At(b: seq<Byte>, i: nat): int
    requires i < |b|
  {
    b[i]
  }

  /** The table of section 3 of RFC 3629: how many bytes a scalar value takes, what each begins
      with, and the scalar value its other bits make up. */
  lemma CharBits(c: char)
    ensures var n := c as int; var b := EncodeChar(c);
            if n < 0x80 then b == [n]
            else if n < 0x800 then
              |b| == 2 && 0xC2 <= b[0] <= 0xDF && IsTail(b[1]) && n == (At(b, 0) - 0xC0) * 0x40 + (At(b, 1) - 0x80)
            else if n < 0x1_0000 then
              |b| == 3 && 0xE0 <= b[0] <= 0xEF && IsTail(b[1]) && IsTail(b[2])
              && n == (At(b, 0) - 0xE0) * 0x1000 + (At(b, 1) - 0x80) * 0x40 + (At(b, 2) - 0x80)
            else
              |b| == 4 && 0xF0 <= b[0] <= 0xF4 && IsTail(b[1]) && IsTail(b[2]) && IsTail(b[3])
              && n == (At(b, 0) - 0xF0) * 0x4_0000 + (At(b, 1) - 0x80) * 0x1000 + (At(b, 2) - 0x80) * 0x40 + (At(b, 3) - 0x80)
  {
  }

  /** Two's complement, in the byte order of the machine. */
  lemma I32Bytes(n: int)
    requires -TWO_31 <= n < TWO_31
    ensures var b := EncodeI32(Little, n);
            |b| == 4 && At(b, 0) + 0x100 * At(b, 1) + 0x1_0000 * At(b, 2) + 0x100_0000 * At(b, 3) == (if n < 0 then n + 0x1_0000_0000 else n)
            && EncodeI32(Big, n) == [b[3], b[2], b[1], b[0]]
  {
    Digits(if n < 0 then n + TWO_32 else n);
  }

  lemma SmallI32(n: nat)
    requires n < 256
    ensures EncodeI32(Little, n) == [n, 0, 0, 0] && AsI32(n) == n
  {
  }

  lemma OneChar(c: char)
    requires c as int < 0x80
    ensures EncodeString(Little, [c]) == [1, 0, 0, 0, c as int]
  {
    assert [c][1..] == "";
    assert Encode([c]) == [c as int];
    SmallI32(1);
  }

  // ----- inline elements

  /** A text run: its text, then its four switches. */
  lemma RunBytes(e: Endian, r: TextRun)
    ensures EncodeInline(e, Run(r)) ==
            EncodeI32(e, 0) + EncodeString(e, r.content) +
            [if r.bold then 1 else 0, if r.italic then 1 else 0, if r.strikethrough then 1 else 0, if r.code then 1 else 0]
  {
    hide EncodeI32, EncodeString;
    var switches := EncodeBool(r.bold) + (EncodeBool(r.italic) + (EncodeBool(r.strikethrough) + EncodeBool(r.code)));
    assert switches == [if r.bold then 1 else 0, if r.italic then 1 else 0, if r.strikethrough then 1 else 0, if r.code then 1 else 0];
    Assoc(EncodeI32(e, 0), EncodeString(e, r.content), switches);
  }

  /** Links: `a` to an existing note and to `b` outside, both empty. */
  lemma LinkBytes()
    ensures EncodeInline(Little, Link("a", true, [])) == [1, 0, 0, 0, 1, 0, 0, 0, 97, 1, 0, 0, 0, 0]
    ensures EncodeInline(Little, ExternalLink("b", [])) == [2, 0, 0, 0, 1, 0, 0, 0, 98, 0, 0, 0, 0]
  {
    OneChar('a');
    OneChar('b');
    NothingBytes();
    SmallI32(1);
    SmallI32(2);
    hide EncodeString, EncodeInlines, EncodeI32;
  }

  lemma NothingBytes()
    ensures EncodeInlines(Little, []) == [0, 0, 0, 0] && EncodeNodes(Little, []) == [0, 0, 0, 0]
    ensures EncodeNodes(Little, [ThematicBreak]) == [1, 0, 0, 0, 6, 0, 0, 0]
  {
    SmallI32(0);
    SmallI32(1);
    SmallI32(6);
    hide EncodeI32, AsI32;
    assert [ThematicBreak][1..] == [];
    assert NodeItems(Little, []) == [];
    assert InlineItems(Little, []) == [];
    assert NodeItems(Little, [ThematicBreak]) == [6, 0, 0, 0];
  }

  // ----- nodes

  /** A level-two heading, a paragraph and a rule. */
  lemma TextBytes()
    ensures EncodeNode(Little, Heading(2, [])) == [0, 0, 0, 0, 2, 0, 0, 0, 0]
    ensures EncodeNode(Little, Paragraph([])) == [1, 0, 0, 0, 0, 0, 0, 0]
    ensures EncodeNode(Little, ThematicBreak) == [6, 0, 0, 0]
  {
    NothingBytes();
    SmallI32(0);
    SmallI32(1);
    SmallI32(6);
    hide EncodeInlines, EncodeI32;
  }

  /** A code block in `c`, one without a language, and an image. */
  lemma LeafBytes()
    ensures EncodeNode(Little, CodeBlock(Some("c"), "d")) == [5, 0, 0, 0, 1, 1, 0, 0, 0, 99, 1, 0, 0, 0, 100]
    ensures EncodeNode(Little, CodeBlock(None, "d")) == [5, 0, 0, 0, 0, 1, 0, 0, 0, 100]
    ensures EncodeNode(Little, Image("a", "b")) == [7, 0, 0, 0, 1, 0, 0, 0, 97, 1, 0, 0, 0, 98]
  {
    OneChar('a');
    OneChar('b');
    OneChar('c');
    OneChar('d');
    SmallI32(5);
    SmallI32(7);
    hide EncodeString, EncodeI32;
  }

  /** Containers around a rule: an ordered list, a checked-off item and one that is no task, a
      quote, and a suggestion without local content, with and without a base. */
  lemma ContainerBytes()
    ensures EncodeNode(Little, List(true, [ThematicBreak])) == [2, 0, 0, 0, 1, 1, 0, 0, 0, 6, 0, 0, 0]
    ensures EncodeNode(Little, ListItem([ThematicBreak], Some(true))) == [3, 0, 0, 0, 1, 0, 0, 0, 6, 0, 0, 0, 1, 1]
    ensures EncodeNode(Little, ListItem([ThematicBreak], Some(false))) == [3, 0, 0, 0, 1, 0, 0, 0, 6, 0, 0, 0, 1, 0]
    ensures EncodeNode(Little, ListItem([ThematicBreak], None)) == [3, 0, 0, 0, 1, 0, 0, 0, 6, 0, 0, 0, 0]
    ensures EncodeNode(Little, Blockquote([ThematicBreak])) == [4, 0, 0, 0, 1, 0, 0, 0, 6, 0, 0, 0]
  {
    NothingBytes();
    SmallI32(2);
    SmallI32(3);
    SmallI32(4);
    hide EncodeNodes, EncodeI32;
  }

  lemma SuggestionBytes()
    ensures EncodeNode(Little, Suggestion(SomeNodes([ThematicBreak]), [], [ThematicBreak])) ==
            [8, 0, 0, 0, 1, 1, 0, 0, 0, 6, 0, 0, 0, 0, 0, 0, 0, 1, 0, 0, 0, 6, 0, 0, 0]
    ensures EncodeNode(Little, Suggestion(NoNodes, [], [ThematicBreak])) == [8, 0, 0, 0, 0, 0, 0, 0, 0, 1, 0, 0, 0, 6, 0, 0, 0]
  {
    NothingBytes();
    SmallI32(8);
    hide EncodeNodes, EncodeI32;
  }

  // ----- what is refused

  /** A tag other than a node's nine, or an inline element's three, cannot be read. */
  lemma UnknownTags(e: Endian, tag: int, rest: seq<Byte>)
    requires -TWO_31 <= tag < TWO_31
    ensures !(0 <= tag <= 8) ==> DecodeNode(e, EncodeI32(e, tag) + rest) == Fail
    ensures !(0 <= tag <= 2) ==> DecodeInline(e, EncodeI32(e, tag) + rest) == Fail
  {
    hide EncodeI32, DecodeI32, DecodeRun, DecodeString, DecodeInlines, DecodeNodes, DecodeOptNodes;
    I32Back(e, tag, rest);
  }

  /** Nor can a string or a vector of negative length, a string longer than what is left, or bytes
      that are not UTF-8. */
  lemma BadLengths(e: Endian, len: int, rest: seq<Byte>)
    requires -TWO_31 <= len < TWO_31
    ensures len < 0 ==> DecodeNodes(e, EncodeI32(e, len) + rest) == Fail && DecodeInlines(e, EncodeI32(e, len) + rest) == Fail
    ensures len < 0 || len > |rest| ==> DecodeString(e, EncodeI32(e, len) + rest) == Fail
    ensures 0 <= len <= |rest| && Decode(rest[..len]) == None ==> DecodeString(e, EncodeI32(e, len) + rest) == Fail
  {
    hide EncodeI32, DecodeI32, DecodeNodeItems, DecodeInlineItems, Decode;
    I32Back(e, len, rest);
  }
}
