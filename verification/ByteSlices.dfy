/** Ranges of a text are ranges of its UTF-8 bytes: what reading and splicing mean there. */
module ByteSlices {
  import opened Text
  import opened Utf8

  /** `is_char_boundary`: the end of the bytes, or one that does not continue a scalar. */
  predicate CharStart(b: seq<Byte>, at: nat) {
    at == |b| || (at < |b| && !IsTail(b[at]))
  }

  lemma CharTails(c: char)
    ensures |EncodeChar(c)| == Utf8Len(c) && !IsTail(EncodeChar(c)[0])
    ensures forall k :: 0 < k < |EncodeChar(c)| ==> IsTail(EncodeChar(c)[k])
  {
  }

  lemma {:induction false} EncodeConcat(s: string, t: string)
    ensures Encode(s + t) == Encode(s) + Encode(t)
    decreases |s|
  {
    hide EncodeChar;
    if s == "" {
      assert s + t == t;
    } else {
      assert (s + t)[0] == s[0] && (s + t)[1..] == s[1..] + t;
      EncodeConcat(s[1..], t);
    }
  }

  /** The bytes before and after a scalar position. */
  lemma SplitBytes(s: string, i: nat)
    requires i <= |s|
    ensures Encode(s) == Encode(s[..i]) + Encode(s[i..]) && |Encode(s[..i])| == ByteOff(s, i)
  {
    hide Encode, ByteOff;
    assert s == s[..i] + s[i..];
    EncodeConcat(s[..i], s[i..]);
    EncodedLength(s[..i]);
    PrefixOffsets(s[..i], s, i);
  }

  lemma FirstByte(s: string)
    requires s != ""
    ensures Encode(s) != [] && !IsTail(Encode(s)[0])
  {
    hide EncodeChar;
    CharTails(s[0]);
  }

  lemma StartAt(s: string, i: nat)
    requires i <= |s|
    ensures CharStart(Encode(s), ByteOff(s, i))
  {
    hide Encode, ByteOff;
    SplitBytes(s, i);
    if i < |s| {
      FirstByte(s[i..]);
    } else {
      assert s[i..] == "";
      assert |Encode("")| == 0 by { EmptyBytes(); }
    }
  }

  lemma EmptyBytes()
    ensures Encode("") == []
  {
  }

  lemma JoinedAt(a: seq<Byte>, b: seq<Byte>, k: nat)
    requires k < |a + b|
    ensures (a + b)[k] == if k < |a| then a[k] else b[k - |a|]
  {
  }

  /** Only the first bytes of scalars start them. */
  lemma {:induction false} ScalarAt(s: string, b: nat) returns (i: nat)
    requires CharStart(Encode(s), b)
    ensures i <= |s| && ByteOff(s, i) == b
    decreases |s|
  {
    hide EncodeChar, IsTail;
    if b == 0 {
      i := 0;
    } else if s == "" {
      assert false;
    } else {
      var here, rest := EncodeChar(s[0]), Encode(s[1..]);
      CharTails(s[0]);
      if b < |here + rest| { JoinedAt(here, rest, b); }
      var k := ScalarAt(s[1..], b - |here|);
      i := k + 1;
      ConcatOffsets([s[0]], s[1..], k);
      assert [s[0]] + s[1..] == s;
      assert ByteOff([s[0]], 1) == ByteOff([s[0]], 0) + Utf8Len(s[0]);
    }
  }

  /** The bytes between two scalar positions are those of the text between them. */
  lemma BytesBetween(s: string, i: nat, j: nat)
    requires i <= j <= |s|
    ensures ByteOff(s, i) <= ByteOff(s, j) <= |Encode(s)|
    ensures Encode(s)[ByteOff(s, i)..ByteOff(s, j)] == Encode(s[i..j])
  {
    hide Encode, ByteOff;
    SplitBytes(s, j);
    SplitBytes(s[..j], i);
    assert s[..j][..i] == s[..i] && s[..j][i..] == s[i..j];
    PrefixOffsets(s[..j], s, i);
    assert Encode(s)[..ByteOff(s, j)] == Encode(s[..j]);
  }

  /** Reading a range reads exactly the bytes in it, when both its ends are between scalars, and
      nothing otherwise. */
  lemma GetIsSlice(s: string, r: Range, t: string)
    ensures Get(s, r).Some? <==> r.start <= r.end && CharStart(Encode(s), r.start) && CharStart(Encode(s), r.end)
    ensures Get(s, r) == Some(t) <==> Get(s, r).Some? && r.end <= |Encode(s)| && Encode(s)[r.start..r.end] == Encode(t)
  {
    hide Encode, ByteOff, Get, FindScalar, IsTail;
    if Get(s, r).Some? { GetLength(s, r); }
    if CharStart(Encode(s), r.start) && CharStart(Encode(s), r.end) && r.start <= r.end {
      var i := ScalarAt(s, r.start);
      var j := ScalarAt(s, r.end);
      OffsetsOrder(s, i, j);
      GetAt(s, i, j);
      BytesBetween(s, i, j);
      DecodeEncode(s[i..j]);
      DecodeEncode(t);
    } else if Get(s, r).Some? {
      var i :| 0 <= i <= |s| && ByteOff(s, i) == r.start;
      var j :| 0 <= j <= |s| && ByteOff(s, j) == r.end;
      StartAt(s, i);
      StartAt(s, j);
    }
  }

  /** Splicing replaces exactly the bytes in the range. */
  lemma SpliceIsSplice(s: string, r: Range, t: string)
    requires Get(s, r).Some?
    ensures r.start <= r.end <= |Encode(s)|
    ensures Encode(Splice(s, r, t)) == Encode(s)[..r.start] + Encode(t) + Encode(s)[r.end..]
  {
    hide Encode, ByteOff, IsTail;
    GetLength(s, r);
    var i, j := FindScalar(s, r.start, |s|).value, FindScalar(s, r.end, |s|).value;
    SplitBytes(s, i);
    SplitBytes(s, j);
    EncodeConcat(s[..i], t);
    EncodeConcat(s[..i] + t, s[j..]);
    assert Encode(s)[..r.start] == Encode(s[..i]) && Encode(s)[r.end..] == Encode(s[j..]);
  }
}
