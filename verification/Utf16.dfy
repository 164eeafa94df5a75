/** UTF-16 carets: Flutter counts code units, the map counts scalars and bytes. */
module Utf16 {
  import opened Text

  /** Code units of the first `i` scalars. */
  function Units(s: string, i: nat): (u: nat)
    requires i <= |s|
  {
    if i == 0 then 0 else Units(s, i - 1) + Utf16Len(s[i - 1])
  }

  /** An offset between two scalars, never between the halves of a surrogate pair. */
  ghost predicate ScalarBoundary(s: string, units: nat) {
    exists i :: 0 <= i <= |s| && Units(s, i) == units
  }

  lemma {:induction false} UnitsGrow(s: string, i: nat, j: nat)
    requires i <= j <= |s|
    ensures Units(s, i) + (j - i) <= Units(s, j)
    decreases j
  {
    if i < j { UnitsGrow(s, i, j - 1); }
  }

  /** `utf16_to_scalar_offset`: inverts the count of code units, and fails exactly where there
      is nothing to invert. */
  method ScalarOffset(text: string, offset: nat) returns (r: Option<nat>)
    ensures r.Some? <==> ScalarBoundary(text, offset)
    ensures r.Some? ==> r.value <= |text| && Units(text, r.value) == offset
  {
    var units := 0;
    for scalar := 0 to |text|
      invariant units == Units(text, scalar)
      invariant forall i :: 0 <= i < scalar ==> Units(text, i) != offset
      invariant scalar > 0 ==> units <= offset
    {
      if offset == units { return Some(scalar); }
      assert Units(text, scalar + 1) == units + Utf16Len(text[scalar]);
      units := units + Utf16Len(text[scalar]);
      if offset < units {
        InsideAPair(text, scalar, offset);
        return None;
      }
    }
    return if offset == units then Some(|text|) else None;
  }

  /** `utf16_to_byte_offset`: the byte at which the same scalar starts. */
  method ByteOffset(text: string, offset: nat) returns (r: Option<nat>)
    ensures r.Some? <==> ScalarBoundary(text, offset)
    ensures r.Some? ==> exists i :: 0 <= i <= |text| && Units(text, i) == offset && ByteOff(text, i) == r.value
  {
    var units := 0;
    var byte := 0;
    for scalar := 0 to |text|
      invariant units == Units(text, scalar) && byte == ByteOff(text, scalar)
      invariant forall i :: 0 <= i < scalar ==> Units(text, i) != offset
      invariant scalar > 0 ==> units <= offset
    {
      if offset == units { return Some(byte); }
      assert Units(text, scalar + 1) == units + Utf16Len(text[scalar]);
      units := units + Utf16Len(text[scalar]);
      byte := byte + Utf8Len(text[scalar]);
      if offset < units {
        InsideAPair(text, scalar, offset);
        return None;
      }
    }
    return if offset == units then Some(ByteLen(text)) else None;
  }

  /** An offset past one scalar and short of the next is no boundary. */
  lemma InsideAPair(text: string, i: nat, offset: nat)
    requires i < |text| && Units(text, i) < offset < Units(text, i + 1)
    ensures !ScalarBoundary(text, offset)
  {
    hide Units;
    forall k | 0 <= k <= |text| ensures Units(text, k) != offset {
      if k <= i { UnitsGrow(text, k, i); } else { UnitsGrow(text, i + 1, k); }
    }
  }

  /** The offsets that fail are those past the end and those between the halves of a pair. */
  lemma {:induction false} FailsInsidePairs(text: string, offset: nat, n: nat)
    requires n <= |text| && offset <= Units(text, n)
    ensures ScalarBoundary(text, offset) ||
            exists i :: 0 <= i < n && Utf16Len(text[i]) == 2 && offset == Units(text, i) + 1
  {
    if offset == Units(text, n) {
      assert ScalarBoundary(text, offset);
    } else if offset <= Units(text, n - 1) {
      FailsInsidePairs(text, offset, n - 1);
    } else {
      assert Utf16Len(text[n - 1]) == 2 && offset == Units(text, n - 1) + 1;
    }
  }

  /** A scalar's code-unit offset names it. */
  lemma UnitsNameScalars(text: string, i: nat, j: nat)
    requires i <= |text| && j <= |text| && Units(text, i) == Units(text, j)
    ensures i == j
  {
    if i < j { UnitsGrow(text, i, j); } else { UnitsGrow(text, j, i); }
  }

  lemma {:induction false} PrefixUnits(s: string, i: nat, k: nat)
    requires i <= k <= |s|
    ensures Units(s[..k], i) == Units(s, i)
  {
    if i > 0 { PrefixUnits(s, i - 1, k); }
  }

  // ----- the code units themselves

  /** A scalar in UTF-16 (section 2.1 of RFC 2781): itself, or a surrogate pair. */
  function EncodeScalar(c: char): seq<nat> {
    var n := c as int;
    if n < 0x1_0000 then [n] else [0xD800 + (n - 0x1_0000) / 0x400, 0xDC00 + (n - 0x1_0000) % 0x400]
  }

  function Encode(s: string): seq<nat> {
    if s == "" then [] else EncodeScalar(s[0]) + Encode(s[1..])
  }

  predicate IsHigh(u: nat) {
    0xD800 <= u < 0xDC00
  }

  predicate IsLow(u: nat) {
    0xDC00 <= u < 0xE000
  }

  /** What code units stand for (section 2.2 of RFC 2781), if every surrogate is in a pair. */
  function Decode(units: seq<nat>): Option<string>
    decreases |units|
  {
    if units == [] then Some("")
    else if IsHigh(units[0]) then
      if |units| < 2 || !IsLow(units[1]) then None
      else
        match Decode(units[2..])
        case None => None
        case Some(rest) => Some([(0x1_0000 + (units[0] - 0xD800) * 0x400 + (units[1] - 0xDC00)) as char] + rest)
    else if IsLow(units[0]) || units[0] >= 0x1_0000 then None
    else
      match Decode(units[1..])
      case None => None
      case Some(rest) => Some([units[0] as char] + rest)
  }

  lemma ScalarBack(c: char, rest: seq<nat>)
    ensures Decode(EncodeScalar(c) + rest) == match Decode(rest) case None => None case Some(s) => Some([c] + s)
  {
    var n := c as int;
    var units := EncodeScalar(c) + rest;
    if n < 0x1_0000 {
      assert units[1..] == rest;
    } else {
      assert units[2..] == rest;
      assert (0x1_0000 + (units[0] - 0xD800) * 0x400 + (units[1] - 0xDC00)) == n;
    }
  }

  /** Decoding a text's code units gives the text. */
  lemma {:induction false} DecodeEncode(s: string)
    ensures Decode(Encode(s)) == Some(s)
  {
    if s != "" {
      ScalarBack(s[0], Encode(s[1..]));
      DecodeEncode(s[1..]);
      assert [s[0]] + s[1..] == s;
    }
  }

  lemma {:induction false} EncodeAppend(s: string, c: char)
    ensures Encode(s + [c]) == Encode(s) + EncodeScalar(c)
  {
    hide EncodeScalar;
    if s == "" {
      assert s + [c] == [c] && [c][1..] == "";
      assert EncodeScalar(c) + [] == [] + EncodeScalar(c);
    } else {
      assert (s + [c])[1..] == s[1..] + [c];
      EncodeAppend(s[1..], c);
      assert EncodeScalar(s[0]) + (Encode(s[1..]) + EncodeScalar(c)) == (EncodeScalar(s[0]) + Encode(s[1..])) + EncodeScalar(c);
    }
  }

  /** The offset carets are counted in is the number of code units before it. */
  lemma {:induction false} UnitsAreCounted(s: string, i: nat)
    requires i <= |s|
    ensures Units(s, i) == |Encode(s[..i])|
  {
    if i > 0 {
      UnitsAreCounted(s, i - 1);
      assert s[..i] == s[..i - 1] + [s[i - 1]];
      EncodeAppend(s[..i - 1], s[i - 1]);
    }
  }
}
