/** UTF-8 as Rust strings use it: section 3 of RFC 3629, shortest forms and scalar values only. */
module Utf8 {
  import opened Text

  type Byte = b: int | 0 <= b < 256

  function EncodeChar(c: char): seq<Byte> {
    var n := c as int;
    if n < 0x80 then [n]
    else if n < 0x800 then [0xC0 + n / 64, 0x80 + n % 64]
    else if n < 0x1_0000 then [0xE0 + n / 64 / 64, 0x80 + n / 64 % 64, 0x80 + n % 64]
    else [0xF0 + n / 64 / 64 / 64, 0x80 + n / 64 / 64 % 64, 0x80 + n / 64 % 64, 0x80 + n % 64]
  }

  /** `into_bytes`. */
  function Encode(s: string): seq<Byte> {
    if s == "" then [] else EncodeChar(s[0]) + Encode(s[1..])
  }

  predicate IsTail(b: Byte) {
    0x80 <= b < 0xC0
  }

  predicate IsScalar(n: int) {
    0 <= n < 0xD800 || 0xE000 <= n < 0x11_0000
  }

  /** One more continuation byte. */
  function Append(n: int, tail: int): int {
    n * 64 + (tail - 0x80)
  }

  /** The first scalar of some bytes and how many bytes it takes. */
  function FirstScalar(b: seq<Byte>): (r: Option<(int, nat)>)
    ensures r.Some? ==> IsScalar(r.value.0) && 0 < r.value.1 <= |b|
  {
    if b == [] then None
    else
      var lead: int := b[0];
      if lead < 0x80 then Some((lead, 1))
      else if 0xC0 <= lead < 0xE0 && |b| >= 2 && IsTail(b[1]) then
        var n := Append(lead - 0xC0, b[1]);
        if n >= 0x80 then Some((n, 2)) else None
      else if 0xE0 <= lead < 0xF0 && |b| >= 3 && IsTail(b[1]) && IsTail(b[2]) then
        var n := Append(Append(lead - 0xE0, b[1]), b[2]);
        if n >= 0x800 && IsScalar(n) then Some((n, 3)) else None
      else if 0xF0 <= lead < 0xF8 && |b| >= 4 && IsTail(b[1]) && IsTail(b[2]) && IsTail(b[3]) then
        var n := Append(Append(Append(lead - 0xF0, b[1]), b[2]), b[3]);
        if n >= 0x1_0000 && IsScalar(n) then Some((n, 4)) else None
      else None
  }

  /** `String::from_utf8`. */
  function Decode(b: seq<Byte>): Option<string>
    decreases |b|
  {
    if b == [] then Some("")
    else
      var first := FirstScalar(b);
      if first.None? then None
      else
        var rest := Decode(b[first.value.1..]);
        if rest.None? then None else Some([first.value.0 as char] + rest.value)
  }

  lemma AppendDivides(n: nat)
    ensures Append(n / 64, 0x80 + n % 64) == n
  {
  }

  lemma DivideAppends(n: nat, tail: int)
    requires 0x80 <= tail < 0xC0
    ensures Append(n, tail) / 64 == n && 0x80 + Append(n, tail) % 64 == tail
  {
  }

  lemma FirstOfEncoded(c: char, rest: seq<Byte>)
    ensures FirstScalar(EncodeChar(c) + rest) == Some((c as int, |EncodeChar(c)|))
  {
    hide Append;
    var n := c as int;
    AppendDivides(n);
    AppendDivides(n / 64);
    AppendDivides(n / 64 / 64);
    var b := EncodeChar(c) + rest;
    assert forall k :: 0 <= k < |EncodeChar(c)| ==> b[k] == EncodeChar(c)[k];
  }

  lemma {:induction false} DecodeEncode(s: string)
    ensures Decode(Encode(s)) == Some(s)
  {
    if s != "" {
      var here, rest := EncodeChar(s[0]), Encode(s[1..]);
      FirstOfEncoded(s[0], rest);
      assert (here + rest)[|here|..] == rest;
      DecodeEncode(s[1..]);
      assert s == [s[0]] + s[1..];
    }
  }

  lemma EncodedFirst(b: seq<Byte>)
    requires FirstScalar(b).Some?
    ensures EncodeChar(FirstScalar(b).value.0 as char) == b[..FirstScalar(b).value.1]
  {
    var lead: int, n := b[0], FirstScalar(b).value.0;
    if lead < 0x80 {
    } else if lead < 0xE0 {
      TwoBytes(lead, b[1], n);
    } else if lead < 0xF0 {
      ThreeBytes(lead, b[1], b[2], n);
    } else {
      FourBytes(lead, b[1], b[2], b[3], n);
    }
  }

  lemma TwoBytes(a: int, b: int, n: int)
    requires 0xC0 <= a < 0xE0 && 0x80 <= b < 0xC0 && n == Append(a - 0xC0, b) && n >= 0x80
    ensures n < 0x800 && EncodeChar(n as char) == [a, b]
  {
    DivideAppends(a - 0xC0, b);
  }

  lemma ThreeBytes(a: int, b: int, c: int, n: int)
    requires 0xE0 <= a < 0xF0 && 0x80 <= b < 0xC0 && 0x80 <= c < 0xC0
    requires n == Append(Append(a - 0xE0, b), c) && n >= 0x800 && IsScalar(n)
    ensures n < 0x1_0000 && EncodeChar(n as char) == [a, b, c]
  {
    var m := Append(a - 0xE0, b);
    DivideAppends(a - 0xE0, b);
    assert m < 0x400;
    DivideAppends(m, c);
    hide Append;
  }

  lemma FourBytes(a: int, b: int, c: int, d: int, n: int)
    requires 0xF0 <= a < 0xF8 && 0x80 <= b < 0xC0 && 0x80 <= c < 0xC0 && 0x80 <= d < 0xC0
    requires n == Append(Append(Append(a - 0xF0, b), c), d) && n >= 0x1_0000 && IsScalar(n)
    ensures EncodeChar(n as char) == [a, b, c, d]
  {
    hide Append;
    var l := Append(a - 0xF0, b);
    DivideAppends(a - 0xF0, b);
    DivideAppends(l, c);
    DivideAppends(Append(l, c), d);
  }

  /** No two byte strings decode alike. */
  lemma {:induction false} EncodeDecode(b: seq<Byte>)
    requires Decode(b).Some?
    ensures Encode(Decode(b).value) == b
    decreases |b|
  {
    hide FirstScalar, EncodeChar;
    if b != [] {
      var first := FirstScalar(b).value;
      EncodedFirst(b);
      EncodeDecode(b[first.1..]);
      assert Decode(b).value[1..] == Decode(b[first.1..]).value;
      assert b == b[..first.1] + b[first.1..];
    }
  }

  /** The byte length the span map counts in. */
  lemma {:induction false} EncodedLength(s: string)
    ensures |Encode(s)| == ByteLen(s)
  {
    if s != "" {
      EncodedLength(s[1..]);
      assert s == [s[0]] + s[1..];
      ConcatOffsets([s[0]], s[1..], |s| - 1);
      assert ByteOff([s[0]], 1) == ByteOff([s[0]], 0) + Utf8Len(s[0]);
    }
  }
}
