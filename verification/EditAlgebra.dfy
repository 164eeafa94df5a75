/** How buffered edits compose: on one leaf the last wins, on two leaves they commute, and
    typing the old text back restores the document. */
module EditAlgebra {
  import opened Text
  import opened Paths
  import opened Spans
  import opened BufferedEdit
  import opened EditSession

  // ----- texts

  lemma ScalarsOf(s: string, r: Range) returns (i: nat, j: nat)
    requires Get(s, r).Some?
    ensures i <= j <= |s| && ByteOff(s, i) == r.start && ByteOff(s, j) == r.end
    ensures FindScalar(s, r.start, |s|) == Some(i) && FindScalar(s, r.end, |s|) == Some(j)
  {
    i, j := FindScalar(s, r.start, |s|).value, FindScalar(s, r.end, |s|).value;
  }

  /** Where the ends of a spliced-in text are found again. */
  lemma SplicedScalars(s: string, i: nat, j: nat, t: string, a: nat, start: nat, end: nat)
    requires i <= j <= |s| && start == ByteOff(s, i) && end == start + ByteLen(t)
    ensures var u := s[..i] + t + s[j..];
            FindScalar(u, start, |u|) == Some(i) && FindScalar(u, end, |u|) == Some(i + |t|)
  {
    var u := s[..i] + t + s[j..];
    SpliceStart(s, i, j, t, i);
    SpliceEnd(s, i, j, t, j);
    FindScalarAt(u, i);
    FindScalarAt(u, i + |t|);
  }

  lemma SpliceTwice(s: string, r: Range, t: string, r': Range, u: string)
    requires Get(s, r).Some? && r' == Range(r.start, r.start + ByteLen(t))
    ensures Get(Splice(s, r, t), r').Some?
    ensures Splice(Splice(s, r, t), r', u) == Splice(s, r, u)
  {
    var i, j := ScalarsOf(s, r);
    hide ByteOff;
    SplicedScalars(s, i, j, t, i, r'.start, r'.end);
    var v := s[..i] + t + s[j..];
    assert v[..i] == s[..i] && v[i + |t|..] == s[j..];
  }

  lemma SpliceSame(s: string, r: Range)
    requires Get(s, r).Some?
    ensures Splice(s, r, Get(s, r).value) == s
  {
    var i, j := ScalarsOf(s, r);
    assert s[..i] + s[i..j] + s[j..] == s;
  }

  lemma LaterScalar(s: string, i: nat, j: nat, t: string, k: nat, at: nat)
    requires i <= j <= k <= |s| && at == ByteOff(s, k) - ByteOff(s, j) + ByteOff(s, i) + ByteLen(t)
    ensures var v := s[..i] + t + s[j..]; FindScalar(v, at, |v|) == Some(k - j + i + |t|)
  {
    SpliceEnd(s, i, j, t, k);
    FindScalarAt(s[..i] + t + s[j..], k - j + i + |t|);
  }

  lemma EarlierScalar(s: string, k: nat, l: nat, u: string, i: nat, at: nat)
    requires i <= k <= l <= |s| && at == ByteOff(s, i)
    ensures var w := s[..k] + u + s[l..]; FindScalar(w, at, |w|) == Some(i)
  {
    SpliceStart(s, k, l, u, i);
    FindScalarAt(s[..k] + u + s[l..], i);
  }

  /** A splice, once the scalars at the range's ends are known. */
  lemma SpliceAt(s: string, r: Range, t: string, i: nat, j: nat)
    requires FindScalar(s, r.start, |s|) == Some(i) && FindScalar(s, r.end, |s|) == Some(j) && i <= j <= |s|
    ensures Get(s, r).Some? && Splice(s, r, t) == s[..i] + t + s[j..]
  {
    hide FindScalar;
  }

  /** Two splices, the first range before the second, in either order. */
  lemma SplicesCommute(s: string, r: Range, t: string, q: Range, u: string, q': Range)
    requires Get(s, r).Some? && Get(s, q).Some? && r.end <= q.start
    requires q'.start == q.start + ByteLen(t) - (r.end - r.start) && q'.end == q.end + ByteLen(t) - (r.end - r.start)
    ensures Get(Splice(s, r, t), q').Some? && Get(Splice(s, q, u), r).Some?
    ensures Splice(Splice(s, r, t), q', u) == Splice(Splice(s, q, u), r, t)
  {
    hide ByteOff, FindScalar, Splice, Get;
    GetLength(s, q);
    var i, j := ScalarsOf(s, r);
    var k, l := ScalarsOf(s, q);
    assert j <= k by { OffsetsOrder(s, j, k); }
    LaterScalar(s, i, j, t, k, q'.start);
    LaterScalar(s, i, j, t, l, q'.end);
    EarlierScalar(s, k, l, u, i, r.start);
    EarlierScalar(s, k, l, u, j, r.end);
    SpliceAt(s, r, t, i, j);
    SpliceAt(s, q, u, k, l);
    SpliceAt(s[..i] + t + s[j..], q', u, k - j + i + |t|, l - j + i + |t|);
    SpliceAt(s[..k] + u + s[l..], r, t, i, j);
    PiecesCommute(s, i, j, t, k, l, u);
  }

  lemma PiecesCommute(s: string, i: nat, j: nat, t: string, k: nat, l: nat, u: string)
    requires i <= j <= k <= l <= |s|
    ensures var v, w := s[..i] + t + s[j..], s[..k] + u + s[l..];
            var a, b := k - j + i + |t|, l - j + i + |t|;
            v[..a] + u + v[b..] == w[..i] + t + w[j..]
  {
    var v, w := s[..i] + t + s[j..], s[..k] + u + s[l..];
    assert v[..k - j + i + |t|] == s[..i] + t + s[j..k];
    assert v[l - j + i + |t|..] == s[l..];
    assert w[..i] == s[..i] && w[j..] == s[j..k] + u + s[l..];
  }

  // ----- blocks

  lemma RunsAgree(b: BlockSpan, c: BlockSpan)
    requires b.path == c.path && b.source == c.source && b.renderedLen == c.renderedLen && b.children == c.children
    requires |b.runs| == |c.runs|
    requires forall k :: 0 <= k < |b.runs| ==> RunMoved(b.runs[k], c.runs[k], 0)
    ensures b == c
  {
    forall k | 0 <= k < |b.runs| ensures b.runs[k] == c.runs[k] {
      assert RunMoved(b.runs[k], c.runs[k], 0);
    }
  }

  lemma RunsChain(b: BlockSpan, b1: BlockSpan, b2: BlockSpan, d: int, d': int)
    requires |b1.runs| == |b.runs| && |b2.runs| == |b1.runs|
    requires forall k :: 0 <= k < |b.runs| ==> RunMoved(b.runs[k], b1.runs[k], d)
    requires forall k :: 0 <= k < |b1.runs| ==> RunMoved(b1.runs[k], b2.runs[k], d')
    ensures forall k :: 0 <= k < |b.runs| ==> RunMoved(b.runs[k], b2.runs[k], d + d')
  {
    forall k | 0 <= k < |b.runs| ensures RunMoved(b.runs[k], b2.runs[k], d + d') {
      assert RunMoved(b.runs[k], b1.runs[k], d) && RunMoved(b1.runs[k], b2.runs[k], d');
    }
  }

  lemma RunsMeet(b: BlockSpan, b2: BlockSpan, c2: BlockSpan, d: int)
    requires b2.path == c2.path && b2.source == c2.source && b2.renderedLen == c2.renderedLen && b2.children == c2.children
    requires |b2.runs| == |b.runs| && |c2.runs| == |b.runs|
    requires forall k :: 0 <= k < |b.runs| ==> RunMoved(b.runs[k], b2.runs[k], d)
    requires forall k :: 0 <= k < |b.runs| ==> RunMoved(b.runs[k], c2.runs[k], d)
    ensures b2 == c2
  {
    forall k | 0 <= k < |b2.runs| ensures RunMoved(b2.runs[k], c2.runs[k], 0) {
      assert RunMoved(b.runs[k], b2.runs[k], d) && RunMoved(b.runs[k], c2.runs[k], d);
    }
    RunsAgree(b2, c2);
  }

  /** Two edits of one leaf move a block as the second alone would have. */
  lemma ExactlyTwice(b: BlockSpan, b1: BlockSpan, b2: BlockSpan, c: BlockSpan,
                     leaf: BlockSpan, leaf1: BlockSpan, n: nat, m: nat)
    requires Exactly(leaf, leaf1, leaf, n) && !Before(leaf.path, leaf.path)
    requires Exactly(b, b1, leaf, n) && Exactly(b1, b2, leaf1, m) && Exactly(b, c, leaf, m)
    ensures b2 == c
  {
    var r := leaf.source;
    var after := Before(leaf.path, b.path);
    RunsChain(b, b1, b2, if after then n - (r.end - r.start) else 0, if after then m - n else 0);
    RunsMeet(b, b2, c, if after then m - (r.end - r.start) else 0);
  }

  /** Edits of two leaves, one before the other, move a block the same way in either order. */
  lemma ExactlyCommutes(b: BlockSpan, b1: BlockSpan, b2: BlockSpan, c1: BlockSpan, c2: BlockSpan,
                        e: BlockSpan, e1: BlockSpan, f: BlockSpan, f1: BlockSpan, n: nat, m: nat)
    requires Before(e.path, f.path) && !Before(f.path, e.path)
    requires Exactly(b, b1, e, n) && Exactly(f, f1, e, n) && Exactly(b1, b2, f1, m)
    requires Exactly(b, c1, f, m) && Exactly(e, e1, f, m) && Exactly(c1, c2, e1, n)
    ensures b2 == c2
  {
    hide Outside;
    var de := if Before(e.path, b.path) then n - (e.source.end - e.source.start) else 0;
    var df := if Before(f.path, b.path) then m - (f.source.end - f.source.start) else 0;
    RunsChain(b, b1, b2, de, df);
    RunsChain(b, c1, c2, df, de);
    RunsMeet(b, b2, c2, de + df);
  }

  // ----- documents

  /** A document ready for edits of the leaf at `e`. */
  ghost predicate Ready(doc: Doc, stale: set<BlockPath>, e: nat) {
    && Laid(doc.text, doc.blocks, stale) && ByteLen(doc.text) <= ISIZE_MAX
    && e < |doc.blocks| && doc.blocks[e].children == []
  }

  function Type(doc: Doc, e: nat, t: string): Doc
    requires e < |doc.blocks|
  {
    Step(doc, Typing(doc.blocks[e].path, t))
  }

  ghost predicate Fits(doc: Doc) {
    ByteLen(doc.text) <= ISIZE_MAX
  }

  /** A step on a ready leaf, in the terms the lemmas about one edit use. */
  lemma TypeIs(doc: Doc, stale: set<BlockPath>, e: nat, t: string)
    requires Ready(doc, stale, e) && Fits(Type(doc, e, t))
    ensures MayEdit(doc.text, doc.blocks, stale, e, t)
    ensures Type(doc, e, t) == Doc(Splice(doc.text, doc.blocks[e].source, t), Edited(doc.blocks, e, ByteLen(t)))
    ensures |Type(doc, e, t).blocks| == |doc.blocks|
  {
    StepAccepted(doc, Typing(doc.blocks[e].path, t), stale, e);
  }

  /** A clear one keeps the document ready, for this leaf and any other. */
  lemma TypeReady(doc: Doc, stale: set<BlockPath>, e: nat, t: string, f: nat)
    requires Ready(doc, stale, e) && Fits(Type(doc, e, t)) && Clear(doc.blocks, e, ByteLen(t))
    requires f < |doc.blocks| && doc.blocks[f].children == []
    ensures |Type(doc, e, t).blocks| == |doc.blocks|
    ensures Ready(Type(doc, e, t), stale + {doc.blocks[e].path}, f)
    ensures NoneEmpty(doc.blocks) && t != "" ==> NoneEmpty(Type(doc, e, t).blocks)
  {
    hide Laid, Step, ByteOff, Clear, Splice, Edited;
    TypeIs(doc, stale, e, t);
    EditKeepsLayout(doc.text, doc.blocks, stale, e, t);
    if NoneEmpty(doc.blocks) && t != "" {
      EditKeepsCoherence(doc.text, doc.blocks, stale, e, t);
      CoherentIsLaid(Type(doc, e, t).text, Type(doc, e, t).blocks, stale + {doc.blocks[e].path});
    }
  }

  lemma TypeExactly(doc: Doc, stale: set<BlockPath>, e: nat, t: string, i: nat)
    requires Ready(doc, stale, e) && Fits(Type(doc, e, t)) && Clear(doc.blocks, e, ByteLen(t)) && i < |doc.blocks|
    ensures i < |Type(doc, e, t).blocks|
    ensures Exactly(doc.blocks[i], Type(doc, e, t).blocks[i], doc.blocks[e], ByteLen(t))
  {
    hide Laid, Step, ByteOff, Clear, Splice, Edited;
    TypeIs(doc, stale, e, t);
    EditExactly(doc.text, doc.blocks, stale, e, t, i);
  }

  // ----- one leaf

  /** What two edits of one leaf leave in the text is what the second leaves. */
  lemma TextTwice(doc: Doc, stale: set<BlockPath>, e: nat, t: string, u: string)
    requires Ready(doc, stale, e) && Fits(Type(doc, e, t)) && Fits(Type(doc, e, u)) && Clear(doc.blocks, e, ByteLen(t))
    ensures |Type(doc, e, t).blocks| == |doc.blocks| && Type(doc, e, t).blocks[e].path == doc.blocks[e].path
    ensures Type(Type(doc, e, t), e, u).text == Type(doc, e, u).text
    ensures Type(Type(doc, e, t), e, u).blocks == Edited(Type(doc, e, t).blocks, e, ByteLen(u))
  {
    hide ByteOff, FindScalar, Get, Splice, Edited, Laid, Step, Clear;
    var r, mid := doc.blocks[e].source, Type(doc, e, t);
    TypeIs(doc, stale, e, t);
    TypeIs(doc, stale, e, u);
    TypeExactly(doc, stale, e, t, e);
    Trichotomy(doc.blocks[e].path, doc.blocks[e].path);
    assert Get(doc.text, r).Some? by { StepAccepted(doc, Typing(doc.blocks[e].path, t), stale, e); }
    SpliceTwice(doc.text, r, t, mid.blocks[e].source, u);
    TypeReady(doc, stale, e, t, e);
    StepAccepted(mid, Typing(mid.blocks[e].path, u), stale + {doc.blocks[e].path}, e);
  }

  /** Two edits of one leaf collapse to the second exactly when the second is clear: always, if
      the first was not to the empty text. */
  lemma LastEditWins(doc: Doc, stale: set<BlockPath>, e: nat, t: string, u: string)
    requires Ready(doc, stale, e) && Fits(Type(doc, e, t)) && Fits(Type(doc, e, u))
    requires Clear(doc.blocks, e, ByteLen(t)) && Clear(doc.blocks, e, ByteLen(u))
    ensures |Type(doc, e, t).blocks| == |doc.blocks|
    ensures Type(Type(doc, e, t), e, u) == Type(doc, e, u) <==> Clear(Type(doc, e, t).blocks, e, ByteLen(u))
    ensures t != "" ==> Clear(Type(doc, e, t).blocks, e, ByteLen(u))
  {
    hide ByteOff, FindScalar, Get, Splice, Edited, Laid, Step;
    var mid := Type(doc, e, t);
    TextTwice(doc, stale, e, t, u);
    if t != "" { NotEmptyIsClear(doc, stale, e, t); }
    if Clear(mid.blocks, e, ByteLen(u)) {
      BlocksTwice(doc, stale, e, t, u);
    } else {
      var i: nat :| i < |mid.blocks| && i != e && mid.blocks[i].source.start == mid.blocks[e].source.start
                    && !Before(mid.blocks[e].path, mid.blocks[i].path);
      OutOfPlace(doc, stale, e, t, u, i);
    }
  }

  lemma NotEmptyIsClear(doc: Doc, stale: set<BlockPath>, e: nat, t: string)
    requires Ready(doc, stale, e) && Fits(Type(doc, e, t)) && Clear(doc.blocks, e, ByteLen(t)) && t != ""
    ensures |Type(doc, e, t).blocks| == |doc.blocks|
    ensures Type(doc, e, t).blocks[e].source.start < Type(doc, e, t).blocks[e].source.end
  {
    assert ByteLen(t) > 0 by { OffsetsGrow(t, 0, |t|); }
    hide ByteOff, Laid, Step, Clear;
    TypeIs(doc, stale, e, t);
    TypeExactly(doc, stale, e, t, e);
    Trichotomy(doc.blocks[e].path, doc.blocks[e].path);
  }

  lemma BlocksTwice(doc: Doc, stale: set<BlockPath>, e: nat, t: string, u: string)
    requires Ready(doc, stale, e) && Fits(Type(doc, e, t)) && Fits(Type(doc, e, u))
    requires Clear(doc.blocks, e, ByteLen(t)) && Clear(doc.blocks, e, ByteLen(u))
    requires |Type(doc, e, t).blocks| == |doc.blocks| && Clear(Type(doc, e, t).blocks, e, ByteLen(u))
    ensures Type(Type(doc, e, t), e, u) == Type(doc, e, u)
  {
    var mid := Type(doc, e, t);
    TextTwice(doc, stale, e, t, u);
    TypeReady(doc, stale, e, t, e);
    hide ByteOff, Laid, Step, Clear, Edited;
    var two, one := Type(mid, e, u), Type(doc, e, u);
    assert Fits(two);
    TypeIs(doc, stale, e, u);
    TypeIs(mid, stale + {doc.blocks[e].path}, e, u);
    Trichotomy(doc.blocks[e].path, doc.blocks[e].path);
    forall i | 0 <= i < |doc.blocks| ensures two.blocks[i] == one.blocks[i] {
      TypeExactly(doc, stale, e, t, i);
      TypeExactly(doc, stale, e, t, e);
      TypeExactly(doc, stale, e, u, i);
      TypeExactly(mid, stale + {doc.blocks[e].path}, e, u, i);
      ExactlyTwice(doc.blocks[i], mid.blocks[i], two.blocks[i], one.blocks[i], doc.blocks[e], mid.blocks[e], ByteLen(t), ByteLen(u));
    }
  }

  /** A block that starts where the emptied leaf does, before or around it, moves when the leaf is
      typed into again, and would not have moved without the first edit. */
  lemma OutOfPlace(doc: Doc, stale: set<BlockPath>, e: nat, t: string, u: string, i: nat)
    requires Ready(doc, stale, e) && Fits(Type(doc, e, t)) && Fits(Type(doc, e, u))
    requires Clear(doc.blocks, e, ByteLen(t)) && Clear(doc.blocks, e, ByteLen(u))
    requires var mid := Type(doc, e, t);
             |mid.blocks| == |doc.blocks| && i < |mid.blocks| && i != e && !Before(mid.blocks[e].path, mid.blocks[i].path)
             && mid.blocks[i].source.start == mid.blocks[e].source.start >= mid.blocks[e].source.end && ByteLen(u) > 0
    ensures Type(Type(doc, e, t), e, u) != Type(doc, e, u)
  {
    hide ByteOff, Laid, Step, Clear, Edited, FindScalar, Get, Splice;
    var mid := Type(doc, e, t);
    TextTwice(doc, stale, e, t, u);
    TypeReady(doc, stale, e, t, e);
    TypeExactly(doc, stale, e, t, i);
    TypeExactly(doc, stale, e, u, i);
    assert Fits(Type(mid, e, u));
    TypeIs(mid, stale + {doc.blocks[e].path}, e, u);
    RoomInTheText(mid.text, mid.blocks, stale + {doc.blocks[e].path}, e, u, i);
    OutsideTheLeaf(mid.text, mid.blocks, stale + {doc.blocks[e].path}, e, e);
    Shoved(mid.blocks, e, ByteLen(u), i);
  }

  lemma Shoved(blocks: seq<BlockSpan>, e: nat, n: nat, i: nat)
    requires e < |blocks| && i < |blocks| && i != e && n > 0 && RoomToEdit(blocks[i], blocks[e], n)
    requires blocks[e].source.start == blocks[e].source.end == blocks[i].source.start && blocks[i].source.start <= blocks[i].source.end
    ensures Edited(blocks, e, n)[i].source.start == blocks[i].source.start + n
  {
    assert Edited(blocks, e, n)[i] == EditedBlock(blocks[i], false, blocks[e].path, blocks[e].source, n);
  }

  /** Typing any text of the old length restores the map, stale runs included; typing the old text
      back restores the whole document. */
  lemma TypingBackRestores(doc: Doc, stale: set<BlockPath>, e: nat, t: string, u: string)
    requires Ready(doc, stale, e) && Fits(Type(doc, e, t)) && Clear(doc.blocks, e, ByteLen(t))
    requires ByteLen(u) == doc.blocks[e].source.end - doc.blocks[e].source.start
    ensures |Type(doc, e, t).blocks| == |doc.blocks|
    ensures t != "" ==> Clear(Type(doc, e, t).blocks, e, ByteLen(u))
    ensures Clear(Type(doc, e, t).blocks, e, ByteLen(u)) ==>
              Type(Type(doc, e, t), e, u).blocks == doc.blocks
              && (Get(doc.text, doc.blocks[e].source) == Some(u) ==> Type(Type(doc, e, t), e, u) == doc)
  {
    hide Laid, ByteOff, Step;
    var r := doc.blocks[e].source;
    var one := Type(doc, e, u);
    StepAccepted(doc, Typing(doc.blocks[e].path, u), stale, e);
    assert one == Doc(Splice(doc.text, r, u), doc.blocks);
    assert Fits(one) by {
      GetLength(doc.text, r);
      SpliceReads(doc.text, r, u, Range(r.start, r.start + ByteLen(u)));
    }
    LastEditWins(doc, stale, e, t, u);
    if Get(doc.text, r) == Some(u) { SpliceSame(doc.text, r); }
  }

  // ----- two leaves

  /** Two different leaves are apart, in the order of their paths. */
  lemma LeavesApart(doc: Doc, stale: set<BlockPath>, e: nat, f: nat)
    requires Ready(doc, stale, e) && Ready(doc, stale, f) && e != f
    ensures Before(doc.blocks[e].path, doc.blocks[f].path) || Before(doc.blocks[f].path, doc.blocks[e].path)
    ensures Before(doc.blocks[e].path, doc.blocks[f].path) ==> doc.blocks[e].source.end <= doc.blocks[f].source.start
    ensures Get(doc.text, doc.blocks[e].source).Some? && Get(doc.text, doc.blocks[f].source).Some?
  {
    OutsideTheLeaf(doc.text, doc.blocks, stale, e, f);
    Trichotomy(doc.blocks[f].path, doc.blocks[e].path);
  }

  /** Edits of two different leaves, each clear on its own, read the same in either order, and
      leave the same document if and only if each is still clear after the other: always, if
      neither is to the empty text. */
  lemma EditsCommute(doc: Doc, stale: set<BlockPath>, e: nat, t: string, f: nat, u: string)
    requires Ready(doc, stale, e) && Ready(doc, stale, f) && e != f
    requires Clear(doc.blocks, e, ByteLen(t)) && Clear(doc.blocks, f, ByteLen(u))
    requires Fits(Type(doc, e, t)) && Fits(Type(doc, f, u)) && Fits(Type(Type(doc, e, t), f, u))
    ensures |Type(doc, e, t).blocks| == |doc.blocks| == |Type(doc, f, u).blocks|
    ensures Type(Type(doc, e, t), f, u).text == Type(Type(doc, f, u), e, t).text
    ensures Type(Type(doc, e, t), f, u) == Type(Type(doc, f, u), e, t) <==>
            Clear(Type(doc, e, t).blocks, f, ByteLen(u)) && Clear(Type(doc, f, u).blocks, e, ByteLen(t))
    ensures t != "" && u != "" ==> Type(Type(doc, e, t), f, u) == Type(Type(doc, f, u), e, t)
  {
    hide Step, Laid, ByteOff, Clear, Before;
    LeavesApart(doc, stale, e, f);
    TypeReady(doc, stale, e, t, f);
    TypeReady(doc, stale, f, u, e);
    if Before(doc.blocks[e].path, doc.blocks[f].path) {
      ForwardCommutes(doc, stale, e, t, f, u);
    } else {
      ForwardTexts(doc, stale, f, u, e, t);
      ForwardCommutes(doc, stale, f, u, e, t);
    }
  }

  /** An edit further on leaves a leaf as clear as it was. */
  lemma EarlierStaysClear(doc: Doc, stale: set<BlockPath>, e: nat, f: nat, u: string, n: nat)
    requires Ready(doc, stale, e) && Ready(doc, stale, f) && Before(doc.blocks[e].path, doc.blocks[f].path)
    requires Fits(Type(doc, f, u)) && Clear(doc.blocks, f, ByteLen(u)) && Clear(doc.blocks, e, n)
    ensures |Type(doc, f, u).blocks| == |doc.blocks| && Clear(Type(doc, f, u).blocks, e, n)
  {
    var m := Type(doc, f, u).blocks;
    TypeReady(doc, stale, f, u, e);
    hide Laid, Step, ByteOff, Before, Type;
    Trichotomy(doc.blocks[e].path, doc.blocks[f].path);
    TypeExactly(doc, stale, f, u, e);
    forall i | 0 <= i < |m| && i != e && m[i].source.start == m[e].source.start && doc.blocks[e].source.start >= doc.blocks[e].source.end && n != 0
      ensures Before(m[e].path, m[i].path)
    {
      TypeExactly(doc, stale, f, u, i);
      if Before(doc.blocks[f].path, doc.blocks[i].path) {
        BeforeTransitive(doc.blocks[e].path, doc.blocks[f].path, doc.blocks[i].path);
      }
    }
  }

  /** So does an edit before it, unless it is to the empty text. */
  lemma LaterStaysClear(doc: Doc, stale: set<BlockPath>, e: nat, t: string, f: nat, n: nat)
    requires Ready(doc, stale, e) && Ready(doc, stale, f) && Before(doc.blocks[e].path, doc.blocks[f].path) && t != ""
    requires Fits(Type(doc, e, t)) && Clear(doc.blocks, e, ByteLen(t)) && Clear(doc.blocks, f, n)
    ensures |Type(doc, e, t).blocks| == |doc.blocks| && Clear(Type(doc, e, t).blocks, f, n)
  {
    assert ByteLen(t) > 0 by { OffsetsGrow(t, 0, |t|); }
    var m := Type(doc, e, t).blocks;
    TypeReady(doc, stale, e, t, f);
    hide Laid, Step, ByteOff, Before, Type;
    hide Exactly;
    TypeExactly(doc, stale, e, t, f);
    assert m[f].path == doc.blocks[f].path && m[f].source.end - m[f].source.start == doc.blocks[f].source.end - doc.blocks[f].source.start by {
      SameWidth(doc.blocks[f], m[f], doc.blocks[e], ByteLen(t));
    }
    forall i | 0 <= i < |m| && i != f && m[i].source.start == m[f].source.start && doc.blocks[f].source.start >= doc.blocks[f].source.end && n != 0
      ensures Before(m[f].path, m[i].path)
    {
      TypeExactly(doc, stale, e, t, i);
      StartsTogether(doc.blocks[i], m[i], doc.blocks[f], m[f], doc.blocks[e], ByteLen(t));
    }
  }

  lemma SameWidth(b: BlockSpan, b': BlockSpan, leaf: BlockSpan, n: nat)
    requires Exactly(b, b', leaf, n) && Before(leaf.path, b.path)
    ensures b'.path == b.path && b'.source.end - b'.source.start == b.source.end - b.source.start
  {
    Trichotomy(leaf.path, b.path);
  }

  /** What starts together after an edit to some text, further on, did so before it. */
  lemma StartsTogether(b: BlockSpan, b': BlockSpan, f: BlockSpan, f': BlockSpan, leaf: BlockSpan, n: nat)
    requires Exactly(b, b', leaf, n) && Exactly(f, f', leaf, n) && Before(leaf.path, f.path) && n > 0
    requires b'.source.start == f'.source.start
    ensures b'.path == b.path && b.source.start == f.source.start
  {
    hide RunMoved;
    Trichotomy(leaf.path, f.path);
    Trichotomy(leaf.path, b.path);
  }

  lemma ForwardCommutes(doc: Doc, stale: set<BlockPath>, e: nat, t: string, f: nat, u: string)
    requires Ready(doc, stale, e) && Ready(doc, stale, f) && e != f && Before(doc.blocks[e].path, doc.blocks[f].path)
    requires Clear(doc.blocks, e, ByteLen(t)) && Clear(doc.blocks, f, ByteLen(u))
    requires Fits(Type(doc, e, t)) && Fits(Type(doc, f, u))
    requires Fits(Type(Type(doc, e, t), f, u)) || Fits(Type(Type(doc, f, u), e, t))
    ensures |Type(doc, e, t).blocks| == |doc.blocks| == |Type(doc, f, u).blocks|
    ensures Type(Type(doc, e, t), f, u).text == Type(Type(doc, f, u), e, t).text
    ensures Type(Type(doc, e, t), f, u) == Type(Type(doc, f, u), e, t) <==> Clear(Type(doc, e, t).blocks, f, ByteLen(u))
    ensures Clear(Type(doc, f, u).blocks, e, ByteLen(t))
    ensures t != "" ==> Clear(Type(doc, e, t).blocks, f, ByteLen(u))
  {
    var m1, m2 := Type(doc, e, t), Type(doc, f, u);
    hide Step, Laid, ByteOff, Clear, Before;
    TypeReady(doc, stale, e, t, f);
    TypeReady(doc, stale, f, u, e);
    ForwardTexts(doc, stale, e, t, f, u);
    EarlierStaysClear(doc, stale, e, f, u, ByteLen(t));
    if t != "" { LaterStaysClear(doc, stale, e, t, f, ByteLen(u)); }
    TypeIs(m1, stale + {doc.blocks[e].path}, f, u);
    TypeIs(m2, stale + {doc.blocks[f].path}, e, t);
    if Clear(m1.blocks, f, ByteLen(u)) {
      ForwardBlocks(doc, stale, e, t, f, u, m1, m2, Type(m1, f, u), Type(m2, e, t));
    } else {
      ForwardDiffers(doc, stale, e, t, f, u, m1, m2);
    }
  }

  /** In one order the map is laid out, in the other it is not. */
  lemma ForwardDiffers(doc: Doc, stale: set<BlockPath>, e: nat, t: string, f: nat, u: string, m1: Doc, m2: Doc)
    requires e < |doc.blocks| == |m1.blocks| == |m2.blocks| && f < |doc.blocks|
    requires m1.blocks[f].path == doc.blocks[f].path && m2.blocks[e].path == doc.blocks[e].path
    requires Ready(m1, stale + {doc.blocks[e].path}, f) && Ready(m2, stale + {doc.blocks[f].path}, e)
    requires Fits(Type(m1, f, u)) && Fits(Type(m2, e, t))
    requires !Clear(m1.blocks, f, ByteLen(u)) && Clear(m2.blocks, e, ByteLen(t))
    ensures Type(m1, f, u) != Type(m2, e, t)
  {
    hide Step, Laid, ByteOff, Clear, Splice, Edited;
    var s1, s2 := stale + {doc.blocks[e].path}, stale + {doc.blocks[f].path};
    TypeIs(m1, s1, f, u);
    TypeIs(m2, s2, e, t);
    ClearOrMisplaced(m1.text, m1.blocks, s1, f, u);
    ClearOrMisplaced(m2.text, m2.blocks, s2, e, t);
    assert s1 + {doc.blocks[f].path} == s2 + {doc.blocks[e].path};
  }

  lemma ForwardTexts(doc: Doc, stale: set<BlockPath>, e: nat, t: string, f: nat, u: string)
    requires Ready(doc, stale, e) && Ready(doc, stale, f) && e != f && Before(doc.blocks[e].path, doc.blocks[f].path)
    requires Clear(doc.blocks, e, ByteLen(t)) && Clear(doc.blocks, f, ByteLen(u))
    requires Fits(Type(doc, e, t)) && Fits(Type(doc, f, u))
    ensures |Type(doc, e, t).blocks| == |doc.blocks| == |Type(doc, f, u).blocks|
    ensures Type(doc, e, t).blocks[f].path == doc.blocks[f].path && Type(doc, f, u).blocks[e].path == doc.blocks[e].path
    ensures Type(Type(doc, e, t), f, u).text == Type(Type(doc, f, u), e, t).text
  {
    hide ByteOff, FindScalar, Get, Splice, Edited, Laid, Step, Clear;
    var m1, m2 := Type(doc, e, t), Type(doc, f, u);
    LeavesApart(doc, stale, e, f);
    Trichotomy(doc.blocks[e].path, doc.blocks[f].path);
    TypeIs(doc, stale, e, t);
    TypeIs(doc, stale, f, u);
    TypeExactly(doc, stale, e, t, f);
    TypeExactly(doc, stale, f, u, e);
    SplicesCommute(doc.text, doc.blocks[e].source, t, doc.blocks[f].source, u, m1.blocks[f].source);
    TypeReady(doc, stale, e, t, f);
    TypeReady(doc, stale, f, u, e);
    StepAccepted(m1, Typing(m1.blocks[f].path, u), stale + {doc.blocks[e].path}, f);
    StepAccepted(m2, Typing(m2.blocks[e].path, t), stale + {doc.blocks[f].path}, e);
  }

  lemma ForwardBlocks(doc: Doc, stale: set<BlockPath>, e: nat, t: string, f: nat, u: string,
                      m1: Doc, m2: Doc, d1: Doc, d2: Doc)
    requires Ready(doc, stale, e) && Ready(doc, stale, f) && e != f && Before(doc.blocks[e].path, doc.blocks[f].path)
    requires Clear(doc.blocks, e, ByteLen(t)) && Clear(doc.blocks, f, ByteLen(u))
    requires m1 == Type(doc, e, t) && m2 == Type(doc, f, u) && Fits(m1) && Fits(m2)
    requires Ready(m1, stale + {doc.blocks[e].path}, f) && Ready(m2, stale + {doc.blocks[f].path}, e)
    requires Clear(m1.blocks, f, ByteLen(u)) && Clear(m2.blocks, e, ByteLen(t))
    requires d1 == Type(m1, f, u) && d2 == Type(m2, e, t) && Fits(d1) && Fits(d2)
    requires |m1.blocks| == |doc.blocks| == |m2.blocks| && |d1.blocks| == |doc.blocks| == |d2.blocks|
    ensures d1.blocks == d2.blocks
  {
    hide *;
    forall i | 0 <= i < |doc.blocks| ensures d1.blocks[i] == d2.blocks[i] {
      ForwardBlock(doc, stale, e, t, f, u, m1, m2, i);
    }
  }

  lemma ForwardBlock(doc: Doc, stale: set<BlockPath>, e: nat, t: string, f: nat, u: string, m1: Doc, m2: Doc, i: nat)
    requires Ready(doc, stale, e) && Ready(doc, stale, f) && e != f && i < |doc.blocks| && Before(doc.blocks[e].path, doc.blocks[f].path)
    requires Clear(doc.blocks, e, ByteLen(t)) && Clear(doc.blocks, f, ByteLen(u))
    requires m1 == Type(doc, e, t) && m2 == Type(doc, f, u) && Fits(m1) && Fits(m2)
    requires Ready(m1, stale + {doc.blocks[e].path}, f) && Ready(m2, stale + {doc.blocks[f].path}, e)
    requires Clear(m1.blocks, f, ByteLen(u)) && Clear(m2.blocks, e, ByteLen(t))
    requires Fits(Type(m1, f, u)) && Fits(Type(m2, e, t)) && i < |m1.blocks| && i < |m2.blocks|
    ensures i < |Type(m1, f, u).blocks| && i < |Type(m2, e, t).blocks|
    ensures Type(m1, f, u).blocks[i] == Type(m2, e, t).blocks[i]
  {
    Trichotomy(doc.blocks[e].path, doc.blocks[f].path);
    hide Type, Laid, ByteOff, Exactly, Clear;
    TypeExactly(doc, stale, e, t, i);
    TypeExactly(doc, stale, e, t, f);
    TypeExactly(doc, stale, f, u, i);
    TypeExactly(doc, stale, f, u, e);
    TypeExactly(m1, stale + {doc.blocks[e].path}, f, u, i);
    TypeExactly(m2, stale + {doc.blocks[f].path}, e, t, i);
    ExactlyCommutes(doc.blocks[i], m1.blocks[i], Type(m1, f, u).blocks[i], m2.blocks[i], Type(m2, e, t).blocks[i],
                    doc.blocks[e], m2.blocks[e], doc.blocks[f], m1.blocks[f], ByteLen(t), ByteLen(u));
  }

  // ----- why the replacements must not be empty

  /** A top-level leaf of one character, with the run it was parsed with. */
  function Leaf(slot: nat, start: nat, end: nat, run: nat): BlockSpan {
    BlockSpan([slot], Range(start, end), [InlineRun(Range(0, 1), Range(run, run + 1), true)], 1, [])
  }

  lemma LeafShifted(slot: nat, start: nat, end: nat, run: nat, d: int)
    requires 0 <= start + d <= end + d < 10 && 0 <= run + d < 8
    ensures var b := Leaf(slot, start, end, run);
            b.(source := ShiftRange(b.source, d), runs := ShiftRuns(b.runs, d)) == Leaf(slot, start + d, end + d, run + d)
  {
    var b := Leaf(slot, start, end, run);
    assert ShiftRuns(b.runs, d) == [ShiftRun(b.runs[0], d)];
  }

  /** A step on two leaves, given what it does to each. */
  lemma StepOnTwo(doc: Doc, e: nat, t: string, next: Doc)
    requires |doc.blocks| == 2 && e < 2 && forall i :: 0 <= i < 2 ==> doc.blocks[i].children == []
    requires doc.blocks[0].path == [0] && doc.blocks[1].path == [1] && forall k :: 0 <= k < |doc.text| ==> (doc.text[k] as int) < 0x80
    requires doc.blocks[e].source.start <= doc.blocks[e].source.end <= |doc.text|
    requires next.text == doc.text[..doc.blocks[e].source.start] + t + doc.text[doc.blocks[e].source.end..]
    requires var r := doc.blocks[e].source;
             next.blocks == [EditedBlock(doc.blocks[0], e == 0, [e], r, ByteLen(t) - (r.end - r.start)),
                             EditedBlock(doc.blocks[1], e == 1, [e], r, ByteLen(t) - (r.end - r.start))]
    requires ByteLen(t) != doc.blocks[e].source.end - doc.blocks[e].source.start
    ensures Step(doc, Typing([e], t)) == next
  {
    AsciiGet(doc.text, doc.blocks[e].source);
    assert IndexOf(doc.blocks, [e], 0) == Some(e);
    assert Edited(doc.blocks, e, ByteLen(t)) == next.blocks;
  }

  /** Two adjacent leaves, emptied and then typed into again, step by step. */
  function SwapDoc(k: nat): Doc {
    if k == 0 then Doc("ab", [Leaf(0, 0, 1, 0), Leaf(1, 1, 2, 1)])
    else if k == 1 then Doc("b", [Leaf(0, 0, 0, 0), Leaf(1, 0, 1, 0)])
    else if k == 2 then Doc("", [Leaf(0, 0, 0, 0), Leaf(1, 0, 0, 0)])
    else if k == 3 then Doc("b", [Leaf(0, 1, 1, 1), Leaf(1, 0, 1, 0)])
    else Doc("ba", [Leaf(0, 1, 2, 1), Leaf(1, 0, 1, 0)])
  }

  function SwapEdits(): seq<Typing> {
    [Typing([0], ""), Typing([1], ""), Typing([1], "b"), Typing([0], "a")]
  }

  lemma SwapLast()
    ensures Step(SwapDoc(3), SwapEdits()[3]) == SwapDoc(4)
  {
    AsciiOffsets("a", 1);
    hide Step, ByteOff;
    var p, q: BlockPath := [1], [0];
    assert p[0] != q[0];
    assert !(p <= q);
    StepOnTwo(SwapDoc(3), 0, "a", SwapDoc(4));
  }

  lemma SwapStep(k: nat)
    requires k < 4
    ensures Step(SwapDoc(k), SwapEdits()[k]) == SwapDoc(k + 1)
  {
    if k == 0 { SwapFirst(); }
    else if k == 1 { SwapSecond(); }
    else if k == 2 { SwapThird(); }
    else { SwapLast(); }
    hide *;
  }

  lemma SwapFirst()
    ensures Step(SwapDoc(0), SwapEdits()[0]) == SwapDoc(1)
  {
    assert ByteLen("") == 0;
    hide Step, ByteOff;
    LeafShifted(1, 1, 2, 1, -1);
    hide ShiftRuns;
    StepOnTwo(SwapDoc(0), 0, "", SwapDoc(1));
  }

  lemma SwapSecond()
    ensures Step(SwapDoc(1), SwapEdits()[1]) == SwapDoc(2)
  {
    assert ByteLen("") == 0;
    hide Step, ByteOff, ShiftRuns;
    StepOnTwo(SwapDoc(1), 1, "", SwapDoc(2));
  }

  lemma SwapThird()
    ensures Step(SwapDoc(2), SwapEdits()[2]) == SwapDoc(3)
  {
    assert ByteLen("b") == 1 by { AsciiOffsets("b", 1); }
    hide Step, ByteOff;
    LeafShifted(0, 0, 0, 0, 1);
    hide ShiftRuns;
    StepOnTwo(SwapDoc(2), 1, "b", SwapDoc(3));
  }

  lemma SwapTree()
    ensures TreeShape(SwapDoc(0).blocks) && AllLocallyPlaced(SwapDoc(0).blocks)
  {
    var blocks := SwapDoc(0).blocks;
    var p, q: BlockPath := [0], [1];
    assert p[0] != q[0];
    forall i | 0 <= i < 2 ensures ChildrenListed(blocks, i) {
      assert forall c: nat :: !IsChild(blocks, i, c);
    }
  }

  lemma LeafFits(text: string, slot: nat, start: nat)
    requires Get(text, Range(start, start + 1)).Some? && |Get(text, Range(start, start + 1)).value| == 1
    ensures RunsFit(text, Leaf(slot, start, start + 1, start)) && RunsNear(Leaf(slot, start, start + 1, start))
    ensures TruthfulSpan(text, Leaf(slot, start, start + 1, start).source)
  {
    hide Get;
  }

  lemma SwapCoherent()
    ensures Coherent(SwapDoc(0).text, SwapDoc(0).blocks, {})
  {
    SwapTree();
    AsciiGet("ab", Range(0, 1));
    AsciiGet("ab", Range(1, 2));
    assert "ab"[0..1] == "a" && "ab"[1..2] == "b";
    LeafFits("ab", 0, 0);
    LeafFits("ab", 1, 1);
    hide Get, TreeShape, AllLocallyPlaced, RunsFit, RunsNear, TruthfulSpan;
  }

  /** Two adjacent leaves `a` and `b`, both emptied and then typed into, second leaf first: the
      second leaf's text lands before the first one's, because an empty leaf at the edit point
      counts as coming after it. */
  lemma EmptiedLeavesSwap()
    ensures SwapDoc(0).text == "ab" && Coherent(SwapDoc(0).text, SwapDoc(0).blocks, {})
    ensures SwapEdits() == [Typing([0], ""), Typing([1], ""), Typing([1], "b"), Typing([0], "a")]
    ensures Run(SwapDoc(0), SwapEdits()).text == "ba"
  {
    SwapCoherent();
    hide Step, Coherent;
    SwapStep(0);
    SwapStep(1);
    SwapStep(2);
    SwapStep(3);
    FourSteps(SwapDoc(0), SwapEdits());
  }

  lemma FourSteps(doc: Doc, edits: seq<Typing>)
    requires |edits| == 4
    ensures Run(doc, edits) == Step(Step(Step(Step(doc, edits[0]), edits[1]), edits[2]), edits[3])
  {
    hide Step;
    var d1 := Step(doc, edits[0]);
    var d2 := Step(d1, edits[1]);
    var d3 := Step(d2, edits[2]);
    assert Run(doc, edits) == Run(d1, edits[1..]);
    assert edits[1..][0] == edits[1] && edits[1..][1..] == edits[2..];
    assert Run(d1, edits[1..]) == Run(d2, edits[2..]);
    assert edits[2..][0] == edits[2] && edits[2..][1..] == edits[3..];
    assert Run(d2, edits[2..]) == Run(d3, edits[3..]);
    assert edits[3..][0] == edits[3] && edits[3..][1..] == [];
    assert Run(d3, edits[3..]) == Run(Step(d3, edits[3]), []) == Step(d3, edits[3]);
  }
}
