/** Source text as a Rust `str`: a sequence of Unicode scalar values (Dafny's `char`)
    whose offsets are counted in UTF-8 bytes, and whose byte ranges can be taken only
    between scalar boundaries. */
module Text {
  datatype Option<+T> = None | Some(value: T)

  datatype Range = Range(start: nat, end: nat)

  /** Bytes a scalar takes in UTF-8 (section 3 of RFC 3629). */
  function Utf8Len(c: char): (n: nat)
    ensures 1 <= n <= 4
  {
    if (c as int) < 0x80 then 1
    else if (c as int) < 0x800 then 2
    else if (c as int) < 0x1_0000 then 3
    else 4
  }

  /** Code units a scalar takes in UTF-16 (section 2.1 of RFC 2781). */
  function Utf16Len(c: char): (n: nat)
    ensures 1 <= n <= 2
  {
    if (c as int) < 0x1_0000 then 1 else 2
  }

  /** The byte offset at which the i-th scalar of `s` starts. */
  function ByteOff(s: string, i: nat): (b: nat)
    requires i <= |s|
  {
    if i == 0 then 0 else ByteOff(s, i - 1) + Utf8Len(s[i - 1])
  }

  function ByteLen(s: string): nat {
    ByteOff(s, |s|)
  }

  ghost predicate IsBoundary(s: string, b: nat) {
    exists i :: 0 <= i <= |s| && ByteOff(s, i) == b
  }

  /** The index of the scalar that starts at byte `b`, looking no further than scalar `i`. */
  function FindScalar(s: string, b: nat, i: nat): (r: Option<nat>)
    requires i <= |s|
    ensures r.Some? ==> r.value <= i && ByteOff(s, r.value) == b
    ensures r.None? ==> forall k :: 0 <= k <= i ==> ByteOff(s, k) != b
  {
    if ByteOff(s, i) == b then Some(i)
    else if i == 0 then None
    else FindScalar(s, b, i - 1)
  }

  /** `str::get(range)`: the text between two byte offsets when both are scalar boundaries. */
  function Get(s: string, r: Range): (t: Option<string>) {
    var lo, hi := FindScalar(s, r.start, |s|), FindScalar(s, r.end, |s|);
    if lo.Some? && hi.Some? && lo.value <= hi.value then Some(s[lo.value..hi.value]) else None
  }

  lemma {:induction false} OffsetsGrow(s: string, i: nat, j: nat)
    requires i <= j <= |s|
    ensures ByteOff(s, i) + (j - i) <= ByteOff(s, j) <= ByteOff(s, i) + 4 * (j - i)
    decreases j
  {
    if i < j { OffsetsGrow(s, i, j - 1); }
  }

  /** Byte offsets name scalars uniquely, in the same order. */
  lemma OffsetsOrder(s: string, i: nat, j: nat)
    requires i <= |s| && j <= |s|
    ensures i < j <==> ByteOff(s, i) < ByteOff(s, j)
    ensures i == j <==> ByteOff(s, i) == ByteOff(s, j)
  {
    if i <= j { OffsetsGrow(s, i, j); } else { OffsetsGrow(s, j, i); }
  }

  lemma FindScalarAt(s: string, i: nat)
    requires i <= |s|
    ensures FindScalar(s, ByteOff(s, i), |s|) == Some(i)
  {
    var r := FindScalar(s, ByteOff(s, i), |s|);
    if r.Some? { OffsetsOrder(s, r.value, i); }
  }

  lemma {:induction false} PrefixOffsets(s: string, t: string, i: nat)
    requires i <= |s| && i <= |t| && s[..i] == t[..i]
    ensures ByteOff(s, i) == ByteOff(t, i)
  {
    if i > 0 {
      assert s[i - 1] == s[..i][i - 1] == t[..i][i - 1] == t[i - 1];
      assert s[..i - 1] == s[..i][..i - 1] == t[..i][..i - 1] == t[..i - 1];
      PrefixOffsets(s, t, i - 1);
    }
  }

  /** Offsets after a common prefix: concatenation adds byte lengths. */
  lemma {:induction false} ConcatOffsets(s: string, t: string, i: nat)
    requires i <= |t|
    ensures ByteOff(s + t, |s| + i) == ByteLen(s) + ByteOff(t, i)
  {
    if i == 0 {
      assert (s + t)[..|s|] == s[..|s|];
      PrefixOffsets(s + t, s, |s|);
    } else {
      ConcatOffsets(s, t, i - 1);
      assert (s + t)[|s| + i - 1] == t[i - 1];
    }
  }

  lemma SliceOffsets(s: string, i: nat, j: nat, k: nat)
    requires i <= k <= j <= |s|
    ensures ByteOff(s, k) == ByteOff(s, i) + ByteOff(s[i..j], k - i)
  {
    var u := s[..i] + s[i..j];
    assert u == s[..j];
    ConcatOffsets(s[..i], s[i..j], k - i);
    assert u[..k] == s[..k];
    PrefixOffsets(u, s, k);
    PrefixOffsets(s[..i], s, i);
  }

  /** What `Get` returns, in terms of scalar positions. */
  lemma GetAt(s: string, i: nat, j: nat)
    requires i <= j <= |s|
    ensures Get(s, Range(ByteOff(s, i), ByteOff(s, j))) == Some(s[i..j])
    ensures ByteLen(s[i..j]) == ByteOff(s, j) - ByteOff(s, i)
  {
    hide ByteOff, FindScalar;
    FindScalarAt(s, i);
    FindScalarAt(s, j);
    SliceOffsets(s, i, j, j);
  }

  lemma GetLength(s: string, r: Range)
    requires Get(s, r).Some?
    ensures r.start <= r.end <= ByteLen(s)
    ensures ByteLen(Get(s, r).value) == r.end - r.start
    ensures IsBoundary(s, r.start) && IsBoundary(s, r.end)
  {
    var lo, hi := FindScalar(s, r.start, |s|).value, FindScalar(s, r.end, |s|).value;
    GetAt(s, lo, hi);
    OffsetsGrow(s, hi, |s|);
    OffsetsGrow(s, lo, hi);
  }

  lemma GetExists(s: string, r: Range)
    requires IsBoundary(s, r.start) && IsBoundary(s, r.end) && r.start <= r.end
    ensures Get(s, r).Some?
  {
    var i :| 0 <= i <= |s| && ByteOff(s, i) == r.start;
    var j :| 0 <= j <= |s| && ByteOff(s, j) == r.end;
    OffsetsOrder(s, i, j);
    GetAt(s, i, j);
  }

  /** `String::replace_range`: what a caller does with the range a buffered edit returns. */
  function Splice(s: string, r: Range, t: string): (u: string)
    requires Get(s, r).Some?
  {
    s[..FindScalar(s, r.start, |s|).value] + t + s[FindScalar(s, r.end, |s|).value..]
  }

  /** Positions before the spliced range keep their byte offset. */
  lemma SpliceStart(s: string, i: nat, j: nat, t: string, k: nat)
    requires k <= i <= j <= |s|
    ensures ByteOff(s[..i] + t + s[j..], k) == ByteOff(s, k)
  {
    var u := s[..i] + t + s[j..];
    assert u[..k] == s[..k];
    PrefixOffsets(u, s, k);
  }

  /** Positions at or after the end of the splice move by the difference in length. */
  lemma SpliceEnd(s: string, i: nat, j: nat, t: string, b: nat)
    requires i <= j <= b <= |s|
    ensures var u := s[..i] + t + s[j..];
            b - j + i + |t| <= |u| &&
            ByteOff(u, b - j + i + |t|) == ByteOff(s, b) - ByteOff(s, j) + ByteOff(s, i) + ByteLen(t)
  {
    var m, tail := s[..i] + t, s[j..];
    var u := m + tail;
    assert ByteOff(u, |m| + (b - j)) == ByteLen(m) + ByteOff(tail, b - j) by {
      ConcatOffsets(m, tail, b - j);
    }
    assert ByteOff(m, i + |t|) == ByteOff(s, i) + ByteLen(t) by {
      ConcatOffsets(s[..i], t, |t|);
      PrefixOffsets(s[..i], s, i);
    }
    assert ByteOff(s, b) == ByteOff(s, j) + ByteOff(tail, b - j) by {
      SliceOffsets(s, j, |s|, b);
      assert s[j..|s|] == tail;
    }
    assert |m| + (b - j) == b - j + i + |t|;
  }

  /** `y` is where the range `x` lies once `t` has replaced `r`: unmoved when it ends before
      the splice, moved by the difference in length when it starts after it. */
  ghost predicate MovedBy(r: Range, t: string, x: Range, y: Range) {
    var d := ByteLen(t) - (r.end - r.start);
    || (x.end <= r.start && y == x)
    || (r.end <= x.start && y.start == x.start + d && y.end == x.end + d)
  }

  /** `y` is where the range `x` around `r` lies once `t` has replaced `r`. */
  ghost predicate ResizedBy(r: Range, t: string, x: Range, y: Range) {
    x.start <= r.start && r.end <= x.end &&
    y.start == x.start && y.end == x.end + ByteLen(t) - (r.end - r.start)
  }

  /** Slices of a spliced text, by where they lie. */
  lemma SliceBefore(s: string, i: nat, j: nat, t: string, a: nat, b: nat)
    requires a <= b <= i <= j <= |s|
    ensures (s[..i] + t + s[j..])[a..b] == s[a..b]
  {
  }

  lemma SliceAfter(s: string, i: nat, j: nat, t: string, a: nat, b: nat)
    requires i <= j <= a <= b <= |s|
    ensures (s[..i] + t + s[j..])[a - j + i + |t|..b - j + i + |t|] == s[a..b]
  {
  }

  lemma SliceAround(s: string, i: nat, j: nat, t: string, a: nat, b: nat)
    requires a <= i <= j <= b <= |s|
    ensures (s[..i] + t + s[j..])[a..b - j + i + |t|] == s[a..b][..i - a] + t + s[a..b][j - a..]
  {
    var u, e := s[..i] + t + s[j..], b - j + i + |t|;
    assert s[a..b][..i - a] == s[a..i] == u[a..i];
    assert s[a..b][j - a..] == s[j..b] == u[i + |t|..e];
    assert t == u[i..i + |t|];
    assert u[a..e] == u[a..i] + u[i..i + |t|] + u[i + |t|..e];
  }

  lemma SliceAfterPrefix(s: string, t: string, a: nat, b: nat)
    requires a <= b <= |t|
    ensures (s + t)[|s| + a..|s| + b] == t[a..b]
  {
  }

  lemma SliceOfSlice(s: string, a: nat, b: nat, c: nat, d: nat)
    requires a <= b <= |s| && c <= d <= b - a
    ensures s[a..b][c..d] == s[a + c..a + d]
  {
    var t := s[a..b];
    forall k | 0 <= k < d - c ensures t[c..d][k] == s[a + c..a + d][k] {
      assert t[c + k] == s[a + (c + k)];
    }
    assert |t[c..d]| == |s[a + c..a + d]|;
  }

  /** A range that ends before the splice, or starts after it, still reads what it read. */
  lemma SpliceKeeps(s: string, r: Range, t: string, x: Range, y: Range)
    requires Get(s, r).Some? && Get(s, x).Some? && MovedBy(r, t, x, y)
    ensures Get(Splice(s, r, t), y) == Get(s, x)
  {
    hide ByteOff;
    GetLength(s, r);
    var i, j := FindScalar(s, r.start, |s|).value, FindScalar(s, r.end, |s|).value;
    var a, b := FindScalar(s, x.start, |s|).value, FindScalar(s, x.end, |s|).value;
    if x.end <= r.start && y == x {
      OffsetsOrder(s, b, i);
      SpliceStart(s, i, j, t, a);
      SpliceStart(s, i, j, t, b);
      SliceBefore(s, i, j, t, a, b);
      GetAt(Splice(s, r, t), a, b);
    } else {
      OffsetsOrder(s, a, j);
      SpliceEnd(s, i, j, t, a);
      SpliceEnd(s, i, j, t, b);
      SliceAfter(s, i, j, t, a, b);
      GetAt(Splice(s, r, t), a - j + i + |t|, b - j + i + |t|);
    }
  }

  /** A range around the splice reads its old text with the same splice made inside it. */
  lemma SpliceInside(s: string, r: Range, t: string, x: Range, y: Range, inner: Range)
    requires Get(s, r).Some? && Get(s, x).Some? && ResizedBy(r, t, x, y)
    requires inner.start == r.start - x.start && inner.end == r.end - x.start
    ensures Get(Get(s, x).value, inner).Some?
    ensures Get(Splice(s, r, t), y) == Some(Splice(Get(s, x).value, inner, t))
  {
    hide ByteOff;
    GetLength(s, r);
    var i, j := FindScalar(s, r.start, |s|).value, FindScalar(s, r.end, |s|).value;
    var a, b := FindScalar(s, x.start, |s|).value, FindScalar(s, x.end, |s|).value;
    OffsetsOrder(s, i, a);
    OffsetsOrder(s, b, j);
    InnerScalars(s, a, b, i, j, inner);
    SpliceStart(s, i, j, t, a);
    SpliceEnd(s, i, j, t, b);
    SliceAround(s, i, j, t, a, b);
    GetAt(Splice(s, r, t), a, b - j + i + |t|);
  }

  lemma InnerScalars(s: string, a: nat, b: nat, i: nat, j: nat, inner: Range)
    requires a <= i <= j <= b <= |s|
    requires inner.start == ByteOff(s, i) - ByteOff(s, a) && inner.end == ByteOff(s, j) - ByteOff(s, a)
    ensures FindScalar(s[a..b], inner.start, b - a) == Some(i - a)
    ensures FindScalar(s[a..b], inner.end, b - a) == Some(j - a)
  {
    SliceOffsets(s, a, b, i);
    SliceOffsets(s, a, b, j);
    FindScalarAt(s[a..b], i - a);
    FindScalarAt(s[a..b], j - a);
  }

  /** The spliced range itself reads the text put there. */
  lemma SpliceReads(s: string, r: Range, t: string, y: Range)
    requires Get(s, r).Some? && y.start == r.start && y.end == r.start + ByteLen(t)
    ensures Get(Splice(s, r, t), y) == Some(t)
    ensures ByteLen(Splice(s, r, t)) == ByteLen(s) - (r.end - r.start) + ByteLen(t)
  {
    hide ByteOff;
    GetLength(s, r);
    var i, j := FindScalar(s, r.start, |s|).value, FindScalar(s, r.end, |s|).value;
    SpliceStart(s, i, j, t, i);
    SpliceEnd(s, i, j, t, j);
    SpliceEnd(s, i, j, t, |s|);
    SliceAround(s, i, j, t, i, j);
    assert s[i..j][..0] + t + s[i..j][j - i..] == t;
    GetAt(Splice(s, r, t), i, i + |t|);
  }

  // ----- ASCII texts

  ghost predicate Ascii(s: string) {
    forall k :: 0 <= k < |s| ==> (s[k] as int) < 0x80
  }

  lemma {:induction false} AsciiOffsets(s: string, i: nat)
    requires Ascii(s) && i <= |s|
    ensures ByteOff(s, i) == i
    decreases i
  {
    if i > 0 { AsciiOffsets(s, i - 1); }
  }

  /** In ASCII text every byte is a scalar. */
  lemma AsciiGet(s: string, r: Range)
    requires Ascii(s) && r.start <= r.end <= |s|
    ensures FindScalar(s, r.start, |s|) == Some(r.start) && FindScalar(s, r.end, |s|) == Some(r.end)
    ensures Get(s, r) == Some(s[r.start..r.end])
  {
    AsciiOffsets(s, r.start);
    AsciiOffsets(s, r.end);
    FindScalarAt(s, r.start);
    FindScalarAt(s, r.end);
  }
}
