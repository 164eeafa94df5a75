/** The order paths are sorted in is the order of their UTF-8 bytes. */
module ByteOrder {
  import opened SlashPaths
  import opened Utf8

  /** At the first difference the smaller byte, or the end, comes first. */
  ghost predicate BytesBefore(a: seq<Byte>, b: seq<Byte>) {
    exists i :: 0 <= i <= |a| && i < |b| && DiffersAt(a, b, i)
  }

  ghost predicate DiffersAt(a: seq<Byte>, b: seq<Byte>, i: nat)
    requires i <= |a| && i < |b|
  {
    a[..i] == b[..i] && (i == |a| || a[i] < b[i])
  }

  lemma OneWayOnly(a: seq<Byte>, b: seq<Byte>)
    requires BytesBefore(a, b)
    ensures !BytesBefore(b, a)
  {
    var i :| 0 <= i <= |a| && i < |b| && DiffersAt(a, b, i);
    forall j | 0 <= j <= |b| && j < |a| ensures !DiffersAt(b, a, j) {
      if i < j { assert a[..j][i] == a[i]; }
    }
  }

  lemma NotBeforeItself(a: seq<Byte>)
    ensures !BytesBefore(a, a)
  {
  }

  lemma AfterPrefix(p: seq<Byte>, a: seq<Byte>, b: seq<Byte>)
    requires BytesBefore(a, b)
    ensures BytesBefore(p + a, p + b)
  {
    var i :| 0 <= i <= |a| && i < |b| && DiffersAt(a, b, i);
    var k := |p| + i;
    assert (p + a)[..k] == p + a[..i] && (p + b)[..k] == p + b[..i];
    assert DiffersAt(p + a, p + b, k);
  }

  lemma MoreBytes(a: seq<Byte>, b: seq<Byte>, c: seq<Byte>, d: seq<Byte>, i: nat)
    requires i < |a| && i < |b| && a[..i] == b[..i] && a[i] < b[i]
    ensures BytesBefore(a + c, b + d)
  {
    assert (a + c)[..i] == a[..i] && (b + d)[..i] == b[..i];
    assert DiffersAt(a + c, b + d, i);
  }

  /** The encodings of two scalar values differ first where the smaller one's byte is smaller. */
  lemma CharsInOrder(c: char, d: char) returns (i: nat)
    requires c < d
    ensures var a, b := EncodeChar(c), EncodeChar(d); i < |a| && i < |b| && a[..i] == b[..i] && a[i] < b[i]
  {
    var a, b, m, n := EncodeChar(c), EncodeChar(d), c as int, d as int;
    if |a| < |b| || m < 0x80 || a[0] != b[0] {
      i := 0;
    } else if |a| == 2 || a[1] != b[1] {
      i := 1;
    } else if |a| == 3 || a[2] != b[2] {
      i := 2;
    } else {
      i := 3;
    }
  }

  lemma {:induction false} LessBefore(a: string, b: string)
    requires Less(a, b)
    ensures BytesBefore(Encode(a), Encode(b))
  {
    hide EncodeChar, BytesBefore;
    if a == "" {
      NothingBefore(Encode(b[1..]), b[0]);
    } else if a[0] == b[0] {
      LessBefore(a[1..], b[1..]);
      AfterPrefix(EncodeChar(a[0]), Encode(a[1..]), Encode(b[1..]));
    } else {
      var i := CharsInOrder(a[0], b[0]);
      MoreBytes(EncodeChar(a[0]), EncodeChar(b[0]), Encode(a[1..]), Encode(b[1..]), i);
    }
  }

  lemma NothingBefore(rest: seq<Byte>, c: char)
    ensures BytesBefore([], EncodeChar(c) + rest)
  {
    assert DiffersAt([], EncodeChar(c) + rest, 0);
  }

  /** Comparing paths character by character is comparing their bytes. */
  lemma LessIsByteOrder(a: string, b: string)
    ensures Less(a, b) <==> BytesBefore(Encode(a), Encode(b))
  {
    hide *;
    LessTotal(a, b);
    if Less(a, b) {
      LessBefore(a, b);
    } else if Less(b, a) {
      LessBefore(b, a);
      OneWayOnly(Encode(b), Encode(a));
    } else {
      NotBeforeItself(Encode(a));
    }
  }
}
