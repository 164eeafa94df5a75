/** `SpanMap::apply_buffered_edit`: arithmetic that stands in for a reparse while one leaf is
    being retyped, and what it keeps of a coherent map. */
module BufferedEdit {
  import opened Text
  import opened Paths
  import opened Spans

  const USIZE_MAX: nat := 0xFFFF_FFFF_FFFF_FFFF

  /** `usize::saturating_add_signed`. */
  function SaturatingAdd(offset: nat, delta: int): nat {
    if offset + delta < 0 then 0
    else if offset + delta > USIZE_MAX then USIZE_MAX
    else offset + delta
  }

  function ShiftRange(r: Range, delta: int): Range {
    Range(SaturatingAdd(r.start, delta), SaturatingAdd(r.end, delta))
  }

  function ShiftRun(run: InlineRun, delta: int): InlineRun {
    run.(source := ShiftRange(run.source, delta))
  }

  function ShiftRuns(runs: seq<InlineRun>, delta: int): (r: seq<InlineRun>)
    ensures |r| == |runs|
  {
    seq(|runs|, k requires 0 <= k < |runs| => ShiftRun(runs[k], delta))
  }

  function ResizeEnd(b: BlockSpan, delta: int): BlockSpan {
    b.(source := Range(b.source.start, SaturatingAdd(b.source.end, delta)))
  }

  /** What the loop does to one block. */
  function EditedBlock(b: BlockSpan, target: bool, path: BlockPath, was: Range, delta: int): BlockSpan {
    if target then ResizeEnd(b, delta)
    else if b.source.start >= was.end then
      b.(source := ShiftRange(b.source, delta), runs := ShiftRuns(b.runs, delta))
    else if b.path <= path then ResizeEnd(b, delta)
    else b
  }

  /** The blocks after the block at `index` has been given `newLen` bytes. */
  function Edited(blocks: seq<BlockSpan>, index: nat, newLen: nat): (r: seq<BlockSpan>)
    requires index < |blocks|
    ensures |r| == |blocks|
  {
    var was := blocks[index].source;
    var delta := newLen - (was.end - was.start);
    if delta == 0 then blocks
    else
      seq(|blocks|, i requires 0 <= i < |blocks| =>
        EditedBlock(blocks[i], i == index, blocks[index].path, was, delta))
  }

  // ----- one edit of a map

  /** An empty leaf can be told from what lies before and around it: nothing but what comes
      after it starts where it does. A leaf that is not empty always can, and an edit that
      leaves it empty moves nothing. */
  ghost predicate Clear(blocks: seq<BlockSpan>, e: nat, n: nat)
    requires e < |blocks|
  {
    || blocks[e].source.start < blocks[e].source.end
    || n == 0
    || forall i :: 0 <= i < |blocks| && i != e && blocks[i].source.start == blocks[e].source.start ==>
         Before(blocks[e].path, blocks[i].path)
  }

  /** A leaf of a map that may have empty spans, and texts no longer than a Rust string can be. */
  ghost predicate MayEdit(text: string, blocks: seq<BlockSpan>, stale: set<BlockPath>, e: nat, t: string) {
    && Laid(text, blocks, stale)
    && e < |blocks| && blocks[e].children == []
    && ByteLen(text) <= ISIZE_MAX
    && ByteLen(Splice(text, blocks[e].source, t)) <= ISIZE_MAX
  }

  /** Everything an edit of leaf `e` to the text `t` presumes. */
  ghost predicate CanEdit(text: string, blocks: seq<BlockSpan>, stale: set<BlockPath>, e: nat, t: string) {
    MayEdit(text, blocks, stale, e, t) && Clear(blocks, e, ByteLen(t))
  }

  /** Where block `b` lies around a leaf: after it, before it, or around it. */
  ghost predicate Outside(b: BlockSpan, leaf: BlockSpan) {
    && leaf.source.start <= leaf.source.end && b.source.start <= b.source.end
    && (b.path <= leaf.path || Before(leaf.path, b.path) || Before(b.path, leaf.path))
    && (b.path <= leaf.path ==> Contains(b.source, leaf.source))
    && (Before(leaf.path, b.path) ==> leaf.source.end <= b.source.start)
    && (Before(b.path, leaf.path) ==> b.source.end <= leaf.source.start)
  }

  /** No block lies across an end of the edited leaf. */
  lemma OutsideTheLeaf(text: string, blocks: seq<BlockSpan>, stale: set<BlockPath>, e: nat, i: nat)
    requires Laid(text, blocks, stale) && e < |blocks| && i < |blocks| && blocks[e].children == []
    ensures Outside(blocks[i], blocks[e])
    ensures blocks[i].path == blocks[e].path ==> i == e
    ensures ProperPrefix(blocks[i].path, blocks[e].path) ==> blocks[i].children != []
  {
    hide ByteOff, FindScalar, Get;
    LocalImpliesPlaced(blocks);
    GetLength(text, blocks[e].source);
    GetLength(text, blocks[i].source);
    Trichotomy(blocks[i].path, blocks[e].path);
    LeafHasNoDescendant(blocks, e, i);
    assert Placed(blocks[i], blocks[e]) && Placed(blocks[e], blocks[i]);
    if ProperPrefix(blocks[i].path, blocks[e].path) {
      var c := ChildTowards(blocks, i, e);
    }
  }

  /** Room for the text that replaces the leaf's. */
  ghost predicate RoomToEdit(b: BlockSpan, leaf: BlockSpan, n: nat) {
    var r := leaf.source;
    && r.end <= ISIZE_MAX && b.source.end <= ISIZE_MAX
    && (r.end <= b.source.end ==> b.source.end + n - (r.end - r.start) <= ISIZE_MAX)
    && RunsNear(b)
  }

  lemma RoomInTheText(text: string, blocks: seq<BlockSpan>, stale: set<BlockPath>, e: nat, t: string, i: nat)
    requires MayEdit(text, blocks, stale, e, t) && i < |blocks|
    ensures RoomToEdit(blocks[i], blocks[e], ByteLen(t))
  {
    hide ByteOff, FindScalar;
    var r, n := blocks[e].source, ByteLen(t);
    assert Get(text, r).Some? && Get(text, blocks[i].source).Some?;
    GetLength(text, r);
    GetLength(text, blocks[i].source);
    SpliceReads(text, r, t, Range(r.start, r.start + n));
  }

  /** The edited block in exact arithmetic: nothing saturates; what follows the leaf moves by the
      difference in length, runs and all; what contains it, and the leaf, grow by it. */
  ghost predicate Exactly(b: BlockSpan, b': BlockSpan, leaf: BlockSpan, n: nat) {
    var delta := n - (leaf.source.end - leaf.source.start);
    var d := if Before(leaf.path, b.path) then delta else 0;
    && Outside(b, leaf)
    && b'.path == b.path && b'.children == b.children && b'.renderedLen == b.renderedLen
    && b'.source.start == b.source.start + d
    && b'.source.end == b.source.end + (if Before(b.path, leaf.path) then 0 else delta)
    && |b'.runs| == |b.runs|
    && forall k :: 0 <= k < |b.runs| ==> RunMoved(b.runs[k], b'.runs[k], d)
  }

  predicate RunMoved(run: InlineRun, run': InlineRun, d: int) {
    && run'.source.start == run.source.start + d && run'.source.end == run.source.end + d
    && run'.rendered == run.rendered && run'.interpolable == run.interpolable
  }

  lemma EditExactly(text: string, blocks: seq<BlockSpan>, stale: set<BlockPath>, e: nat, t: string, i: nat)
    requires CanEdit(text, blocks, stale, e, t) && i < |blocks|
    ensures Exactly(blocks[i], Edited(blocks, e, ByteLen(t))[i], blocks[e], ByteLen(t))
  {
    hide ByteOff, FindScalar, Get, Splice, Laid;
    RoomInTheText(text, blocks, stale, e, t, i);
    OutsideTheLeaf(text, blocks, stale, e, i);
    EditedBlockExactly(blocks, e, i, ByteLen(t));
  }

  lemma EditedBlockExactly(blocks: seq<BlockSpan>, e: nat, i: nat, n: nat)
    requires e < |blocks| && i < |blocks| && (blocks[i].path == blocks[e].path ==> i == e)
    requires RoomToEdit(blocks[i], blocks[e], n) && Outside(blocks[i], blocks[e]) && Clear(blocks, e, n)
    ensures Exactly(blocks[i], Edited(blocks, e, n)[i], blocks[e], n)
  {
    var b, leaf := blocks[i], blocks[e];
    var r := leaf.source;
    var delta := n - (r.end - r.start);
    Trichotomy(b.path, leaf.path);
    Trichotomy(leaf.path, b.path);
    if delta != 0 {
      assert Edited(blocks, e, n)[i] == EditedBlock(b, i == e, leaf.path, r, delta);
      if Before(leaf.path, b.path) {
        forall k | 0 <= k < |b.runs| ensures RunMoved(b.runs[k], ShiftRuns(b.runs, delta)[k], delta) {
        }
      } else if i != e {
        assert !(b.source.start >= r.end);
      }
    }
  }

  // ----- what each block reads afterwards

  /** Where the edited leaf lies inside an ancestor's text. */
  function Inner(outer: Range, r: Range): Range
    requires outer.start <= r.start <= r.end
  {
    Range(r.start - outer.start, r.end - outer.start)
  }

  /** The edited leaf reads its replacement, an ancestor reads its old text with that splice,
      and any other block reads what it read. */
  ghost predicate ReadsAfter(text: string, b: BlockSpan, text': string, b': BlockSpan, leaf: BlockSpan, t: string) {
    if b.path == leaf.path then Get(text', b'.source) == Some(t)
    else if ProperPrefix(b.path, leaf.path) then
      b.source.start <= leaf.source.start <= leaf.source.end &&
      var inner := Inner(b.source, leaf.source);
      Get(text, b.source).Some? && Get(Get(text, b.source).value, inner).Some? &&
      Get(text', b'.source) == Some(Splice(Get(text, b.source).value, inner, t))
    else Get(text', b'.source) == Get(text, b.source)
  }

  lemma EditReads(text: string, blocks: seq<BlockSpan>, stale: set<BlockPath>, e: nat, t: string, i: nat)
    requires CanEdit(text, blocks, stale, e, t) && i < |blocks|
    ensures ReadsAfter(text, blocks[i], Splice(text, blocks[e].source, t),
                       Edited(blocks, e, ByteLen(t))[i], blocks[e], t)
  {
    hide ByteOff, FindScalar, Get, Splice, Edited;
    var r, n := blocks[e].source, ByteLen(t);
    var b, b' := blocks[i], Edited(blocks, e, n)[i];
    EditExactly(text, blocks, stale, e, t, i);
    OutsideTheLeaf(text, blocks, stale, e, i);
    assert Get(text, r).Some? && Get(text, b.source).Some?;
    hide Laid, Clear;
    Trichotomy(b.path, blocks[e].path);
    Trichotomy(blocks[e].path, b.path);
    if i == e {
      SpliceReads(text, r, t, b'.source);
    } else if ProperPrefix(b.path, blocks[e].path) {
      SpliceInside(text, r, t, b.source, b'.source, Inner(b.source, r));
    } else {
      SpliceKeeps(text, r, t, b.source, b'.source);
    }
  }

  /** So do its runs, wherever they describe the text. */
  lemma EditRunReads(text: string, blocks: seq<BlockSpan>, stale: set<BlockPath>, e: nat, t: string, i: nat, k: nat)
    requires CanEdit(text, blocks, stale, e, t) && i < |blocks| && i != e
    requires k < |blocks[i].runs| && blocks[i].path !in stale
    ensures var b' := Edited(blocks, e, ByteLen(t))[i];
            |b'.runs| == |blocks[i].runs| && b'.runs[k].rendered == blocks[i].runs[k].rendered &&
            Get(Splice(text, blocks[e].source, t), b'.runs[k].source) == Get(text, blocks[i].runs[k].source)
  {
    hide ByteOff, FindScalar, Get, Splice, Edited;
    var r := blocks[e].source;
    var b, b' := blocks[i], Edited(blocks, e, ByteLen(t))[i];
    EditExactly(text, blocks, stale, e, t, i);
    OutsideTheLeaf(text, blocks, stale, e, i);
    assert b.children == [] && RunsFit(text, b);
    assert Get(text, r).Some?;
    hide Laid, Clear;
    assert RunMoved(b.runs[k], b'.runs[k], if Before(blocks[e].path, b.path) then ByteLen(t) - (r.end - r.start) else 0);
    assert Contains(b.source, b.runs[k].source) && TruthfulRun(text, b.runs[k]);
    assert b.runs[k].source.start <= b.runs[k].source.end;
    SpliceKeeps(text, r, t, b.runs[k].source, b'.runs[k].source);
  }

  // ----- coherence

  /** An exact edit keeps containment and document order. */
  lemma MovedPlaced(a: BlockSpan, a': BlockSpan, b: BlockSpan, b': BlockSpan, leaf: BlockSpan, n: nat)
    requires Exactly(a, a', leaf, n) && Exactly(b, b', leaf, n) && Placed(a, b)
    ensures Placed(a', b')
  {
    Trichotomy(a.path, leaf.path);
    Trichotomy(leaf.path, a.path);
    Trichotomy(b.path, leaf.path);
    Trichotomy(leaf.path, b.path);
    if a.path <= b.path { PrefixSides(a.path, b.path, leaf.path); }
    if Before(a.path, b.path) { OrderSides(a.path, b.path, leaf.path); }
  }

  /** A descendant lies on the side of the leaf its ancestor lies on. */
  lemma PrefixSides(p: BlockPath, q: BlockPath, leaf: BlockPath)
    requires p <= q
    ensures Before(leaf, p) ==> Before(leaf, q)
    ensures Before(p, leaf) ==> Before(q, leaf)
  {
    if Before(leaf, p) { BeforeExtends(leaf, p, leaf, q); }
    if Before(p, leaf) { BeforeExtends(p, leaf, q, leaf); }
  }

  /** What comes after the leaf, or after something around it or after it, comes after the leaf. */
  lemma OrderSides(p: BlockPath, q: BlockPath, leaf: BlockPath)
    requires Before(p, q)
    ensures Before(leaf, p) || p <= leaf ==> Before(leaf, q)
    ensures Before(q, leaf) || q <= leaf ==> Before(p, leaf)
  {
    if p <= leaf { BeforeExtends(p, q, leaf, q); }
    if q <= leaf { BeforeExtends(p, q, p, leaf); }
    if Before(leaf, p) { BeforeTransitive(leaf, p, q); }
    if Before(q, leaf) { BeforeTransitive(p, q, leaf); }
  }

  ghost predicate KeepsTree(blocks: seq<BlockSpan>, blocks': seq<BlockSpan>) {
    && |blocks'| == |blocks|
    && forall i :: 0 <= i < |blocks| ==>
         blocks'[i].path == blocks[i].path && blocks'[i].children == blocks[i].children &&
         blocks'[i].renderedLen == blocks[i].renderedLen
  }

  lemma SameTreeShape(blocks: seq<BlockSpan>, blocks': seq<BlockSpan>)
    requires KeepsTree(blocks, blocks') && TreeShape(blocks)
    ensures TreeShape(blocks')
  {
    forall i | 0 <= i < |blocks'| ensures ChildrenListed(blocks', i) {
      assert ChildrenListed(blocks, i);
      forall c: nat ensures IsChild(blocks', i, c) <==> IsChild(blocks, i, c) {}
    }
    forall i | 0 <= i < |blocks'| && |blocks'[i].path| >= 2 ensures Registered(blocks', Parent(blocks'[i].path)) {
      var k :| 0 <= k < |blocks| && blocks[k].path == Parent(blocks[i].path);
      assert blocks'[k].path == Parent(blocks'[i].path);
    }
  }

  lemma {:induction false} SameJoinedLen(blocks: seq<BlockSpan>, blocks': seq<BlockSpan>, kids: seq<nat>)
    requires KeepsTree(blocks, blocks')
    ensures JoinedLen(blocks', kids) == JoinedLen(blocks, kids)
  {
    if |kids| > 1 { SameJoinedLen(blocks, blocks', kids[1..]); }
  }

  /** Runs that moved with their block, and read what they read, still fit it. */
  lemma MovedRunsFit(text: string, b: BlockSpan, text': string, b': BlockSpan, d: int)
    requires RunsFit(text, b) && b'.renderedLen == b.renderedLen && |b'.runs| == |b.runs|
    requires b'.source.start == b.source.start + d && b'.source.end == b.source.end + d
    requires forall k :: 0 <= k < |b.runs| ==>
               RunMoved(b.runs[k], b'.runs[k], d) && Get(text', b'.runs[k].source) == Get(text, b.runs[k].source)
    ensures RunsFit(text', b')
  {
    hide Get;
    forall k | 0 <= k < |b'.runs| ensures Contains(b'.source, b'.runs[k].source) && TruthfulRun(text', b'.runs[k]) {
      assert Contains(b.source, b.runs[k].source) && TruthfulRun(text, b.runs[k]);
      assert RunMoved(b.runs[k], b'.runs[k], d);
    }
    assert Tiled(b.runs, b.renderedLen) && Ascending(b.runs);
  }

  lemma EditRunsFit(text: string, blocks: seq<BlockSpan>, stale: set<BlockPath>, e: nat, t: string, i: nat)
    requires CanEdit(text, blocks, stale, e, t) && i < |blocks| && i != e
    requires blocks[i].path !in stale && blocks[i].children == []
    ensures RunsFit(Splice(text, blocks[e].source, t), Edited(blocks, e, ByteLen(t))[i])
  {
    hide ByteOff, FindScalar, Get, Splice, Edited;
    var b, b' := blocks[i], Edited(blocks, e, ByteLen(t))[i];
    EditExactly(text, blocks, stale, e, t, i);
    OutsideTheLeaf(text, blocks, stale, e, i);
    assert RunsFit(text, b);
    hide Laid, Clear, RunsFit;
    Trichotomy(b.path, blocks[e].path);
    Trichotomy(blocks[e].path, b.path);
    var d := if Before(blocks[e].path, b.path) then ByteLen(t) - (blocks[e].source.end - blocks[e].source.start) else 0;
    hide Outside;
    forall k | 0 <= k < |b.runs|
      ensures RunMoved(b.runs[k], b'.runs[k], d) && Get(Splice(text, blocks[e].source, t), b'.runs[k].source) == Get(text, b.runs[k].source)
    {
      EditRunReads(text, blocks, stale, e, t, i, k);
    }
    MovedRunsFit(text, b, Splice(text, blocks[e].source, t), b', d);
  }

  lemma EditedSpanReads(text: string, blocks: seq<BlockSpan>, stale: set<BlockPath>, e: nat, t: string, i: nat)
    requires CanEdit(text, blocks, stale, e, t) && i < |blocks|
    ensures Get(Splice(text, blocks[e].source, t), Edited(blocks, e, ByteLen(t))[i].source).Some?
  {
    hide ByteOff, FindScalar, Get, Splice, Edited, Clear;
    EditReads(text, blocks, stale, e, t, i);
    assert Get(text, blocks[i].source).Some?;
  }

  lemma EditedRunsNear(text: string, blocks: seq<BlockSpan>, stale: set<BlockPath>, e: nat, t: string, i: nat)
    requires CanEdit(text, blocks, stale, e, t) && i < |blocks|
    ensures RunsNear(Edited(blocks, e, ByteLen(t))[i])
  {
    var b, b' := blocks[i], Edited(blocks, e, ByteLen(t))[i];
    var d := if Before(blocks[e].path, b.path) then ByteLen(t) - (blocks[e].source.end - blocks[e].source.start) else 0;
    assert RunsNear(b);
    EditExactly(text, blocks, stale, e, t, i);
    hide CanEdit, Edited, ByteOff, Outside, RunsNear;
    NearMoved(b, b', d);
  }

  lemma NearMoved(b: BlockSpan, b': BlockSpan, d: int)
    requires RunsNear(b) && b'.source.start == b.source.start + d && |b'.runs| == |b.runs|
    requires forall k :: 0 <= k < |b.runs| ==> RunMoved(b.runs[k], b'.runs[k], d)
    ensures RunsNear(b')
  {
  }

  /** A clear edit leaves the map laid out over the spliced text, apart from the edited leaf's
      own runs. */
  lemma EditKeepsLayout(text: string, blocks: seq<BlockSpan>, stale: set<BlockPath>, e: nat, t: string)
    requires CanEdit(text, blocks, stale, e, t)
    ensures Laid(Splice(text, blocks[e].source, t), Edited(blocks, e, ByteLen(t)), stale + {blocks[e].path})
    ensures KeepsTree(blocks, Edited(blocks, e, ByteLen(t)))
  {
    var text', blocks' := Splice(text, blocks[e].source, t), Edited(blocks, e, ByteLen(t));
    EditKeepsPlaces(text, blocks, stale, e, t);
    hide ByteOff, FindScalar, Get, Splice, Edited, RunsFit, RunsNear, Clear, TreeShape, AllLocallyPlaced;
    forall i | 0 <= i < |blocks'| ensures Get(text', blocks'[i].source).Some? && RunsNear(blocks'[i]) {
      EditedSpanReads(text, blocks, stale, e, t, i);
      EditedRunsNear(text, blocks, stale, e, t, i);
    }
    forall i | 0 <= i < |blocks'| && blocks'[i].children == [] && blocks'[i].path !in stale + {blocks[e].path}
      ensures RunsFit(text', blocks'[i])
    {
      EditRunsFit(text, blocks, stale, e, t, i);
    }
    forall i | 0 <= i < |blocks'| && blocks'[i].children != []
      ensures blocks'[i].runs == [] && blocks'[i].renderedLen == JoinedLen(blocks', blocks'[i].children)
    {
      EditExactly(text, blocks, stale, e, t, i);
      SameJoinedLen(blocks, blocks', blocks[i].children);
    }
  }

  lemma EditKeepsPlaces(text: string, blocks: seq<BlockSpan>, stale: set<BlockPath>, e: nat, t: string)
    requires CanEdit(text, blocks, stale, e, t)
    ensures TreeShape(Edited(blocks, e, ByteLen(t))) && AllLocallyPlaced(Edited(blocks, e, ByteLen(t)))
    ensures KeepsTree(blocks, Edited(blocks, e, ByteLen(t)))
  {
    var blocks' := Edited(blocks, e, ByteLen(t));
    hide ByteOff, Splice, Edited, Clear, Outside;
    forall i | 0 <= i < |blocks| ensures Exactly(blocks[i], blocks'[i], blocks[e], ByteLen(t)) {
      EditExactly(text, blocks, stale, e, t, i);
    }
    assert TreeShape(blocks) && AllPlaced(blocks) by { LocalImpliesPlaced(blocks); }
    hide Laid, Placed;
    SameTreeShape(blocks, blocks');
    forall i, j | 0 <= i < |blocks'| && 0 <= j < |blocks'| ensures Placed(blocks'[i], blocks'[j]) {
      MovedPlaced(blocks[i], blocks'[i], blocks[j], blocks'[j], blocks[e], ByteLen(t));
    }
    PlacedImpliesLocal(blocks');
  }

  /** And only a clear edit does: otherwise something before or around the empty leaf is taken to
      come after it, and moves out of its place. */
  lemma ClearOrMisplaced(text: string, blocks: seq<BlockSpan>, stale: set<BlockPath>, e: nat, t: string)
    requires MayEdit(text, blocks, stale, e, t)
    ensures Laid(Splice(text, blocks[e].source, t), Edited(blocks, e, ByteLen(t)), stale + {blocks[e].path})
            <==> Clear(blocks, e, ByteLen(t))
  {
    var n := ByteLen(t);
    if Clear(blocks, e, n) {
      EditKeepsLayout(text, blocks, stale, e, t);
    } else {
      hide Get, ByteOff, Splice, Laid;
      var i: nat :| i < |blocks| && i != e && blocks[i].source.start == blocks[e].source.start && !Before(blocks[e].path, blocks[i].path);
      RoomInTheText(text, blocks, stale, e, t, i);
      RoomInTheText(text, blocks, stale, e, t, e);
      OutsideTheLeaf(text, blocks, stale, e, i);
      OutsideTheLeaf(text, blocks, stale, e, e);
      Misplaced(blocks, e, n, i);
      if Laid(Splice(text, blocks[e].source, t), Edited(blocks, e, n), stale + {blocks[e].path}) {
        LaidPlaces(Splice(text, blocks[e].source, t), Edited(blocks, e, n), stale + {blocks[e].path}, i, e);
      }
    }
  }

  lemma LaidPlaces(text: string, blocks: seq<BlockSpan>, stale: set<BlockPath>, i: nat, j: nat)
    requires Laid(text, blocks, stale) && i < |blocks| && j < |blocks|
    ensures Placed(blocks[i], blocks[j])
  {
    LocalImpliesPlaced(blocks);
  }

  lemma Misplaced(blocks: seq<BlockSpan>, e: nat, n: nat, i: nat)
    requires e < |blocks| && i < |blocks| && i != e && blocks[i].path != blocks[e].path && n > 0
    requires blocks[e].source.start == blocks[e].source.end == blocks[i].source.start && !Before(blocks[e].path, blocks[i].path)
    requires RoomToEdit(blocks[i], blocks[e], n) && RoomToEdit(blocks[e], blocks[e], n) && Outside(blocks[i], blocks[e])
    ensures !Placed(Edited(blocks, e, n)[i], Edited(blocks, e, n)[e])
  {
    var i', e' := Edited(blocks, e, n)[i], Edited(blocks, e, n)[e];
    assert i' == EditedBlock(blocks[i], false, blocks[e].path, blocks[e].source, n);
    assert e' == EditedBlock(blocks[e], true, blocks[e].path, blocks[e].source, n);
    assert i'.source.start == e'.source.start + n && i'.path == blocks[i].path && e'.path == blocks[e].path;
  }

  /** A buffered edit of a coherent map to non-empty text leaves it coherent over the spliced
      text, apart from the edited leaf's own runs. */
  lemma EditKeepsCoherence(text: string, blocks: seq<BlockSpan>, stale: set<BlockPath>, e: nat, t: string)
    requires CanEdit(text, blocks, stale, e, t) && NoneEmpty(blocks) && t != ""
    ensures Coherent(Splice(text, blocks[e].source, t), Edited(blocks, e, ByteLen(t)), stale + {blocks[e].path})
  {
    assert ByteLen(t) > 0 by { OffsetsGrow(t, 0, |t|); }
    var blocks' := Edited(blocks, e, ByteLen(t));
    hide ByteOff, FindScalar, Get, Splice, Edited, Laid, Clear;
    EditKeepsLayout(text, blocks, stale, e, t);
    forall i | 0 <= i < |blocks'| ensures blocks'[i].source.start < blocks'[i].source.end {
      EditExactly(text, blocks, stale, e, t, i);
      Trichotomy(blocks[i].path, blocks[e].path);
    }
    CoherentIsLaid(Splice(text, blocks[e].source, t), blocks', stale + {blocks[e].path});
  }

  /** And only then: the same edit to the empty text never does, because the leaf's span
      becomes empty. */
  lemma EmptyEditBreaksCoherence(text: string, blocks: seq<BlockSpan>, stale: set<BlockPath>, e: nat, t: string)
    requires CanEdit(text, blocks, stale, e, t) && NoneEmpty(blocks)
    ensures Coherent(Splice(text, blocks[e].source, t), Edited(blocks, e, ByteLen(t)), stale + {blocks[e].path})
            <==> t != ""
  {
    if t == "" {
      var blocks' := Edited(blocks, e, ByteLen(t));
      EditExactly(text, blocks, stale, e, t, e);
      assert !TruthfulSpan(Splice(text, blocks[e].source, t), blocks'[e].source);
    } else {
      EditKeepsCoherence(text, blocks, stale, e, t);
    }
  }
}
