/** The span map's data, and what it means for a set of block spans to be coherent. */
module Spans {
  import opened Text
  import opened Paths

  /** One inline run: a piece of rendered text (scalar offsets) and the source bytes it came
      from. `interpolable` says the two are the same text. */
  datatype InlineRun = InlineRun(rendered: Range, source: Range, interpolable: bool)

  /** One block's source span, its runs, and the indices of its child blocks. */
  datatype BlockSpan = BlockSpan(path: BlockPath, source: Range, runs: seq<InlineRun>,
                                 renderedLen: nat, children: seq<nat>)

  // ----- the tree the paths spell out

  ghost predicate Registered(blocks: seq<BlockSpan>, p: BlockPath) {
    exists i :: 0 <= i < |blocks| && blocks[i].path == p
  }

  ghost predicate DistinctPaths(blocks: seq<BlockSpan>) {
    forall i, j :: 0 <= i < |blocks| && 0 <= j < |blocks| && blocks[i].path == blocks[j].path ==> i == j
  }

  ghost predicate ParentClosed(blocks: seq<BlockSpan>) {
    forall i :: 0 <= i < |blocks| ==>
      blocks[i].path != [] &&
      (|blocks[i].path| >= 2 ==> Registered(blocks, Parent(blocks[i].path)))
  }

  predicate IsChild(blocks: seq<BlockSpan>, parent: nat, child: nat)
    requires parent < |blocks|
  {
    child < |blocks| && |blocks[child].path| >= 2 && Parent(blocks[child].path) == blocks[parent].path
  }

  /** The component children are sorted by. */
  function Slot(p: BlockPath): nat {
    if p == [] then 0 else Last(p)
  }

  /** `children` lists exactly the blocks one component deeper, in ascending order. */
  ghost predicate ChildrenListed(blocks: seq<BlockSpan>, i: nat)
    requires i < |blocks|
  {
    var kids := blocks[i].children;
    && (forall c: nat :: c in kids <==> IsChild(blocks, i, c))
    && (forall a :: 0 <= a < |kids| ==> kids[a] < |blocks|)
    && (forall a, b :: 0 <= a < b < |kids| ==> Slot(blocks[kids[a]].path) < Slot(blocks[kids[b]].path))
  }

  ghost predicate TreeShape(blocks: seq<BlockSpan>) {
    && DistinctPaths(blocks)
    && ParentClosed(blocks)
    && (forall i :: 0 <= i < |blocks| ==> ChildrenListed(blocks, i))
  }

  // ----- where the spans lie

  predicate Contains(outer: Range, inner: Range) {
    outer.start <= inner.start && inner.end <= outer.end
  }

  /** What the test-only invariant check of the source compares: a child with its parent, and
      two siblings with each other. */
  ghost predicate LocallyPlaced(a: BlockSpan, b: BlockSpan) {
    && (|b.path| >= 2 && Parent(b.path) == a.path ==> Contains(a.source, b.source))
    && (a.path != [] && b.path != [] && Parent(a.path) == Parent(b.path) && Last(a.path) < Last(b.path)
        ==> a.source.end <= b.source.start)
  }

  /** The same for any two blocks: an ancestor contains, and an earlier block ends before. */
  ghost predicate Placed(a: BlockSpan, b: BlockSpan) {
    && (a.path <= b.path ==> Contains(a.source, b.source))
    && (Before(a.path, b.path) ==> a.source.end <= b.source.start)
  }

  ghost predicate AllLocallyPlaced(blocks: seq<BlockSpan>) {
    forall i, j :: 0 <= i < |blocks| && 0 <= j < |blocks| ==> LocallyPlaced(blocks[i], blocks[j])
  }

  ghost predicate AllPlaced(blocks: seq<BlockSpan>) {
    forall i, j :: 0 <= i < |blocks| && 0 <= j < |blocks| ==> Placed(blocks[i], blocks[j])
  }

  /** A span is a non-empty scalar range of the text. */
  ghost predicate TruthfulSpan(text: string, r: Range) {
    r.start < r.end && Get(text, r).Some?
  }

  // ----- runs

  /** Runs tile `0..renderedLen` without gaps. */
  ghost predicate Tiled(runs: seq<InlineRun>, len: nat) {
    && (runs == [] ==> len == 0)
    && (runs != [] ==> runs[0].rendered.start == 0 && runs[|runs| - 1].rendered.end == len)
    && (forall k :: 0 <= k < |runs| ==> runs[k].rendered.start < runs[k].rendered.end)
    && (forall k :: 0 < k < |runs| ==> runs[k - 1].rendered.end == runs[k].rendered.start)
  }

  /** Runs are in source order, without overlap. */
  ghost predicate Ascending(runs: seq<InlineRun>) {
    && (forall k :: 0 <= k < |runs| ==> runs[k].source.start <= runs[k].source.end)
    && (forall k :: 0 < k < |runs| ==> runs[k - 1].source.end <= runs[k].source.start)
  }

  /** A run's source is text, and an interpolable run's source has the run's rendered length. */
  ghost predicate TruthfulRun(text: string, run: InlineRun) {
    && Get(text, run.source).Some?
    && (run.interpolable && run.rendered.start <= run.rendered.end ==>
          |Get(text, run.source).value| == run.rendered.end - run.rendered.start)
  }

  ghost predicate RunsFit(text: string, b: BlockSpan) {
    && Tiled(b.runs, b.renderedLen)
    && Ascending(b.runs)
    && (forall k :: 0 <= k < |b.runs| ==> Contains(b.source, b.runs[k].source) && TruthfulRun(text, b.runs[k]))
  }

  /** The most bytes a Rust allocation, and so a `str`, can hold (`isize::MAX`). */
  const ISIZE_MAX: nat := 0x7FFF_FFFF_FFFF_FFFF

  /** What is left of the runs of a leaf whose text was retyped: they still start no earlier
      than the leaf and are no longer than a text can be. */
  ghost predicate RunsNear(b: BlockSpan) {
    forall k :: 0 <= k < |b.runs| ==>
      b.source.start <= b.runs[k].source.start <= b.runs[k].source.end <= b.source.start + ISIZE_MAX
  }

  // ----- rendered lengths

  /** Length of the children's rendered texts joined by one newline each. */
  function JoinedLen(blocks: seq<BlockSpan>, kids: seq<nat>): nat {
    if kids == [] then 0
    else
      (if kids[0] < |blocks| then blocks[kids[0]].renderedLen else 0)
      + (if |kids| == 1 then 0 else 1 + JoinedLen(blocks, kids[1..]))
  }

  ghost predicate ContainersJoined(blocks: seq<BlockSpan>) {
    forall i :: 0 <= i < |blocks| && blocks[i].children != [] ==>
      blocks[i].runs == [] && blocks[i].renderedLen == JoinedLen(blocks, blocks[i].children)
  }

  /** A map laid out over `text`, but for spans that may be empty; `stale` names the leaves whose
      runs a buffered edit has left describing text that is no longer there. */
  ghost predicate Laid(text: string, blocks: seq<BlockSpan>, stale: set<BlockPath>) {
    && TreeShape(blocks)
    && AllLocallyPlaced(blocks)
    && ContainersJoined(blocks)
    && (forall i :: 0 <= i < |blocks| ==> Get(text, blocks[i].source).Some?)
    && (forall i :: 0 <= i < |blocks| ==> RunsNear(blocks[i]))
    && (forall i :: 0 <= i < |blocks| && blocks[i].children == [] && blocks[i].path !in stale ==>
          RunsFit(text, blocks[i]))
  }

  /** A coherent map over `text`: laid out, and no span is empty. */
  ghost predicate Coherent(text: string, blocks: seq<BlockSpan>, stale: set<BlockPath>) {
    && TreeShape(blocks)
    && AllLocallyPlaced(blocks)
    && ContainersJoined(blocks)
    && (forall i :: 0 <= i < |blocks| ==> TruthfulSpan(text, blocks[i].source))
    && (forall i :: 0 <= i < |blocks| ==> RunsNear(blocks[i]))
    && (forall i :: 0 <= i < |blocks| && blocks[i].children == [] && blocks[i].path !in stale ==>
          RunsFit(text, blocks[i]))
  }

  ghost predicate NoneEmpty(blocks: seq<BlockSpan>) {
    forall i :: 0 <= i < |blocks| ==> blocks[i].source.start < blocks[i].source.end
  }

  lemma CoherentIsLaid(text: string, blocks: seq<BlockSpan>, stale: set<BlockPath>)
    ensures Coherent(text, blocks, stale) <==> Laid(text, blocks, stale) && NoneEmpty(blocks)
  {
    if Coherent(text, blocks, stale) {
      forall i | 0 <= i < |blocks| ensures blocks[i].source.start < blocks[i].source.end && Get(text, blocks[i].source).Some? {
        assert TruthfulSpan(text, blocks[i].source);
      }
    }
  }

  // ----- from the local check to the whole document

  lemma {:induction false} AncestorRegistered(blocks: seq<BlockSpan>, i: nat, m: nat) returns (k: nat)
    requires ParentClosed(blocks) && i < |blocks| && 1 <= m <= |blocks[i].path|
    ensures k < |blocks| && blocks[k].path == blocks[i].path[..m]
    decreases |blocks[i].path| - m
  {
    var p := blocks[i].path;
    if m == |p| {
      assert p[..m] == p;
      k := i;
    } else {
      var c := AncestorRegistered(blocks, i, m + 1);
      assert Parent(blocks[c].path) == p[..m + 1][..m] == p[..m];
      k :| 0 <= k < |blocks| && blocks[k].path == Parent(blocks[c].path);
    }
  }

  lemma {:induction false} AncestorContains(blocks: seq<BlockSpan>, i: nat, j: nat)
    requires DistinctPaths(blocks) && ParentClosed(blocks) && AllLocallyPlaced(blocks)
    requires i < |blocks| && j < |blocks| && blocks[i].path <= blocks[j].path
    ensures Contains(blocks[i].source, blocks[j].source)
    decreases |blocks[j].path|
  {
    var p, q := blocks[i].path, blocks[j].path;
    if |p| == |q| {
      assert p == q;
    } else {
      var k :| 0 <= k < |blocks| && blocks[k].path == Parent(q);
      assert p <= Parent(q);
      AncestorContains(blocks, i, k);
      assert LocallyPlaced(blocks[k], blocks[j]);
    }
  }

  /** Sibling order and parent containment, checked pairwise on neighbours in the tree, place
      every two blocks of the document. */
  lemma LocalImpliesPlaced(blocks: seq<BlockSpan>)
    requires DistinctPaths(blocks) && ParentClosed(blocks) && AllLocallyPlaced(blocks)
    ensures AllPlaced(blocks)
  {
    forall i, j | 0 <= i < |blocks| && 0 <= j < |blocks| ensures Placed(blocks[i], blocks[j]) {
      if blocks[i].path <= blocks[j].path { AncestorContains(blocks, i, j); }
      if Before(blocks[i].path, blocks[j].path) {
        var k := PartingAncestors(blocks[i].path, blocks[j].path);
        var a := AncestorRegistered(blocks, i, k + 1);
        var b := AncestorRegistered(blocks, j, k + 1);
        AncestorContains(blocks, a, i);
        AncestorContains(blocks, b, j);
        assert LocallyPlaced(blocks[a], blocks[b]);
      }
    }
  }

  /** And back: a globally placed map passes the local check. */
  lemma PlacedImpliesLocal(blocks: seq<BlockSpan>)
    requires AllPlaced(blocks)
    ensures AllLocallyPlaced(blocks)
  {
    forall i, j | 0 <= i < |blocks| && 0 <= j < |blocks| ensures LocallyPlaced(blocks[i], blocks[j]) {
      var a, b := blocks[i], blocks[j];
      assert Placed(a, b);
      if a.path != [] && b.path != [] && Parent(a.path) == Parent(b.path) && Last(a.path) < Last(b.path) {
        CommonAt(a.path, b.path, |a.path| - 1);
      }
    }
  }

  /** A block with a descendant lists a child on the way to it. */
  lemma ChildTowards(blocks: seq<BlockSpan>, i: nat, j: nat) returns (c: nat)
    requires TreeShape(blocks) && i < |blocks| && j < |blocks| && ProperPrefix(blocks[i].path, blocks[j].path)
    ensures c in blocks[i].children && c < |blocks| && blocks[c].path == blocks[j].path[..|blocks[i].path| + 1]
  {
    var p, q := blocks[i].path, blocks[j].path;
    c := AncestorRegistered(blocks, j, |p| + 1);
    assert Parent(blocks[c].path) == q[..|p| + 1][..|p|] == p;
    assert ChildrenListed(blocks, i) && IsChild(blocks, i, c);
  }

  /** A block without children is nobody's ancestor. */
  lemma LeafHasNoDescendant(blocks: seq<BlockSpan>, i: nat, j: nat)
    requires TreeShape(blocks) && i < |blocks| && j < |blocks| && blocks[i].children == []
    ensures !ProperPrefix(blocks[i].path, blocks[j].path)
  {
    if ProperPrefix(blocks[i].path, blocks[j].path) {
      var c := ChildTowards(blocks, i, j);
    }
  }
}
