/** Resolving rendered offsets to the source: `SpanMap::resolve_at`, `resolve_leaf_at` and
    `resolve_range` as functions of the map, and what holds of their results. */
module Resolve {
  import opened Text
  import opened Paths
  import opened Spans

  /** Where a rendered offset lands: one byte, the gap between two runs, or a whole run. */
  datatype Resolution = Exact(offset: nat) | Boundary(before: nat, after: nat) | Atomic(range: Range)
  {
    /** The source offset when this starts a selection. */
    function Start(): nat {
      match this
      case Exact(offset) => offset
      case Boundary(_, after) => after
      case Atomic(range) => range.start
    }

    /** The source offset when this ends a selection. */
    function End(): nat {
      match this
      case Exact(offset) => offset
      case Boundary(before, _) => before
      case Atomic(range) => range.end
    }
  }

  /** The resolution of `off` when run `k` is the first that does not end at or before it. */
  function AtRun(text: string, runs: seq<InlineRun>, k: nat, blockStart: nat, off: nat): Option<Resolution>
    requires k <= |runs|
  {
    if k == |runs| then
      var end := if runs == [] then blockStart else runs[|runs| - 1].source.end;
      Some(Boundary(end, end))
    else
      var run := runs[k];
      if off == run.rendered.start then
        Some(Boundary(if k == 0 then run.source.start else runs[k - 1].source.end, run.source.start))
      else if !run.interpolable then Some(Atomic(run.source))
      else
        var t := Get(text, run.source);
        if t.Some? && run.rendered.start <= off && off - run.rendered.start < |t.value| then
          Some(Exact(run.source.start + ByteOff(t.value, off - run.rendered.start)))
        else None
  }

  /** The walk over a leaf's runs, from run `k` on. */
  function ResolveRuns(text: string, runs: seq<InlineRun>, k: nat, blockStart: nat, off: nat): Option<Resolution>
    requires k <= |runs|
    decreases |runs| - k
  {
    if k == |runs| || off == runs[k].rendered.start || off < runs[k].rendered.end then
      AtRun(text, runs, k, blockStart, off)
    else ResolveRuns(text, runs, k + 1, blockStart, off)
  }

  /** The longest path, which bounds how deep the walk down the children can go. */
  function Depth(blocks: seq<BlockSpan>): (d: nat)
    ensures forall i :: 0 <= i < |blocks| ==> |blocks[i].path| <= d
  {
    if blocks == [] then 0
    else
      var d, last := Depth(blocks[..|blocks| - 1]), |blocks[|blocks| - 1].path|;
      assert forall i :: 0 <= i < |blocks| - 1 ==> blocks[i] == blocks[..|blocks| - 1][i];
      if d < last then last else d
  }

  /** Children are registered one component deeper than their parent. */
  ghost predicate ChildrenDeeper(blocks: seq<BlockSpan>) {
    forall i, a :: 0 <= i < |blocks| && 0 <= a < |blocks[i].children| ==>
      blocks[i].children[a] < |blocks| && |blocks[i].path| < |blocks[blocks[i].children[a]].path|
  }

  function ResolveAt(text: string, blocks: seq<BlockSpan>, i: nat, off: nat): Option<Resolution>
    requires ChildrenDeeper(blocks) && i < |blocks|
    decreases Depth(blocks) - |blocks[i].path|, 1, 0
  {
    if off > blocks[i].renderedLen then None
    else if blocks[i].children != [] then ResolveKids(text, blocks, i, 0, 0, off)
    else ResolveRuns(text, blocks[i].runs, 0, blocks[i].source.start, off)
  }

  /** The walk over a container's children, from child `k` on, `consumed` characters in. */
  function ResolveKids(text: string, blocks: seq<BlockSpan>, i: nat, k: nat, consumed: nat, off: nat): Option<Resolution>
    requires ChildrenDeeper(blocks) && i < |blocks| && k <= |blocks[i].children| && consumed <= off
    decreases Depth(blocks) - |blocks[i].path|, 0, |blocks[i].children| - k
  {
    if k == |blocks[i].children| then None
    else
      var child := blocks[i].children[k];
      if off <= consumed + blocks[child].renderedLen then ResolveAt(text, blocks, child, off - consumed)
      else ResolveKids(text, blocks, i, k + 1, consumed + blocks[child].renderedLen + 1, off)
  }

  /** The same walk, remembering the leaf it ends in. */
  function ResolveLeafAt(text: string, blocks: seq<BlockSpan>, i: nat, off: nat): Option<(nat, Resolution)>
    requires ChildrenDeeper(blocks) && i < |blocks|
    decreases Depth(blocks) - |blocks[i].path|, 1, 0
  {
    if off > blocks[i].renderedLen then None
    else if blocks[i].children != [] then ResolveLeafKids(text, blocks, i, 0, 0, off)
    else
      var r := ResolveRuns(text, blocks[i].runs, 0, blocks[i].source.start, off);
      if r.Some? then Some((i, r.value)) else None
  }

  function ResolveLeafKids(text: string, blocks: seq<BlockSpan>, i: nat, k: nat, consumed: nat, off: nat): Option<(nat, Resolution)>
    requires ChildrenDeeper(blocks) && i < |blocks| && k <= |blocks[i].children| && consumed <= off
    decreases Depth(blocks) - |blocks[i].path|, 0, |blocks[i].children| - k
  {
    if k == |blocks[i].children| then None
    else
      var child := blocks[i].children[k];
      if off <= consumed + blocks[child].renderedLen then ResolveLeafAt(text, blocks, child, off - consumed)
      else ResolveLeafKids(text, blocks, i, k + 1, consumed + blocks[child].renderedLen + 1, off)
  }

  // ----- inside one leaf

  lemma {:induction false} RunsApart(runs: seq<InlineRun>, a: nat, b: nat)
    requires Ascending(runs) && a < b < |runs|
    ensures runs[a].source.end <= runs[b].source.start
    decreases b
  {
    if a < b - 1 { RunsApart(runs, a, b - 1); }
  }

  lemma {:induction false} TilesApart(runs: seq<InlineRun>, len: nat, a: nat, b: nat)
    requires Tiled(runs, len) && a < b < |runs|
    ensures runs[a].rendered.end <= runs[b].rendered.start
    decreases b
  {
    if a < b - 1 { TilesApart(runs, len, a, b - 1); }
  }

  /** Offset `off` belongs to run `k`, or is the end of the leaf when `k` is past the last. */
  ghost predicate Holds(runs: seq<InlineRun>, len: nat, k: nat, off: nat) {
    && k <= |runs|
    && (k < |runs| ==> runs[k].rendered.start <= off < runs[k].rendered.end)
    && (k == |runs| ==> off == len)
  }

  lemma {:induction false} HoldingRun(runs: seq<InlineRun>, len: nat, j: nat, off: nat) returns (k: nat)
    requires Tiled(runs, len) && off <= len && j <= |runs|
    requires j < |runs| ==> runs[j].rendered.start <= off
    requires j == |runs| ==> off == len
    ensures j <= k && Holds(runs, len, k, off)
    decreases |runs| - j
  {
    if j < |runs| && runs[j].rendered.end <= off {
      k := HoldingRun(runs, len, j + 1, off);
    } else {
      k := j;
    }
  }

  lemma {:induction false} WalkReaches(text: string, runs: seq<InlineRun>, len: nat, j: nat, k: nat, blockStart: nat, off: nat)
    requires Tiled(runs, len) && j <= k && Holds(runs, len, k, off)
    ensures ResolveRuns(text, runs, j, blockStart, off) == AtRun(text, runs, k, blockStart, off)
    decreases k - j
  {
    if j < k {
      if k < |runs| { TilesApart(runs, len, j, k); } else if j < |runs| - 1 { TilesApart(runs, len, j, |runs| - 1); }
      WalkReaches(text, runs, len, j + 1, k, blockStart, off);
    }
  }

  /** What a leaf's offset resolves to, and where it lies. */
  lemma LeafResolves(text: string, b: BlockSpan, off: nat) returns (k: nat)
    requires RunsFit(text, b) && off <= b.renderedLen
    ensures Holds(b.runs, b.renderedLen, k, off)
    ensures ResolveRuns(text, b.runs, 0, b.source.start, off) == AtRun(text, b.runs, k, b.source.start, off)
  {
    k := HoldingRun(b.runs, b.renderedLen, 0, off);
    WalkReaches(text, b.runs, b.renderedLen, 0, k, b.source.start, off);
  }

  /** A resolution at run `k` lies between the end of the run before and the end of the run. */
  lemma AtRunBounds(text: string, b: BlockSpan, k: nat, off: nat)
    requires RunsFit(text, b) && b.source.start <= b.source.end && Holds(b.runs, b.renderedLen, k, off)
    ensures var r := AtRun(text, b.runs, k, b.source.start, off);
            var low := if k == 0 then b.source.start else b.runs[k - 1].source.end;
            var high := if k == |b.runs| then low else b.runs[k].source.end;
            r.Some? && low <= r.value.Start() <= high && low <= r.value.End() <= high
            && b.source.start <= low && high <= b.source.end
            && (k < |b.runs| ==> b.runs[k].source.start <= r.value.Start())
            && (r.value.Exact? ==> k < |b.runs| && b.runs[k].interpolable && b.runs[k].source.start < r.value.offset < b.runs[k].source.end)
            && (k < |b.runs| && off > b.runs[k].rendered.start ==> b.runs[k].source.start <= r.value.End())
  {
    if k < |b.runs| {
      var run := b.runs[k];
      assert TruthfulRun(text, run) && Contains(b.source, run.source);
      if k > 0 { assert Contains(b.source, b.runs[k - 1].source); }
      if run.interpolable && off > run.rendered.start {
        var t := Get(text, run.source).value;
        GetLength(text, run.source);
        OffsetsOrder(t, 0, off - run.rendered.start);
        OffsetsOrder(t, off - run.rendered.start, |t|);
      }
    } else if b.runs != [] {
      assert Contains(b.source, b.runs[|b.runs| - 1].source);
    }
  }

  /** Within a leaf, `Start` and `End` never go back, and a selection forward by at least one
      character is never inverted. */
  lemma LeafMonotone(text: string, b: BlockSpan, off: nat, off': nat)
    requires RunsFit(text, b) && b.source.start <= b.source.end && off < off' <= b.renderedLen
    ensures var r := ResolveRuns(text, b.runs, 0, b.source.start, off);
            var r' := ResolveRuns(text, b.runs, 0, b.source.start, off');
            r.Some? && r'.Some? && r.value.Start() <= r'.value.Start() && r.value.End() <= r'.value.End()
            && r.value.Start() <= r'.value.End()
  {
    hide Get, RunsFit, ByteOff;
    var k := LeafResolves(text, b, off);
    var k' := LeafResolves(text, b, off');
    AtRunBounds(text, b, k, off);
    AtRunBounds(text, b, k', off');
    assert Tiled(b.runs, b.renderedLen) && Ascending(b.runs) by { assert RunsFit(text, b); TilesOf(text, b); }
    if k == k' {
      SameRunMonotone(text, b, k, off, off');
    } else if k < k' {
      if k < k' - 1 { RunsApart(b.runs, k, k' - 1); }
    } else {
      LaterHeldLater(b.runs, b.renderedLen, k', k, off', off);
    }
  }

  /** An offset held by a later run is a later offset. */
  lemma LaterHeldLater(runs: seq<InlineRun>, len: nat, k: nat, k': nat, off: nat, off': nat)
    requires Tiled(runs, len) && Holds(runs, len, k, off) && Holds(runs, len, k', off') && k < k'
    ensures off < off'
  {
    if k' < |runs| { TilesApart(runs, len, k, k'); }
    else if k < |runs| - 1 { TilesApart(runs, len, k, |runs| - 1); }
  }

  lemma TilesOf(text: string, b: BlockSpan)
    requires RunsFit(text, b)
    ensures Tiled(b.runs, b.renderedLen) && Ascending(b.runs)
  {
  }

  lemma SameRunMonotone(text: string, b: BlockSpan, k: nat, off: nat, off': nat)
    requires RunsFit(text, b) && b.source.start <= b.source.end && off < off'
    requires Holds(b.runs, b.renderedLen, k, off) && Holds(b.runs, b.renderedLen, k, off')
    ensures var r, r' := AtRun(text, b.runs, k, b.source.start, off), AtRun(text, b.runs, k, b.source.start, off');
            r.Some? && r'.Some? && r.value.Start() <= r'.value.Start() && r.value.End() <= r'.value.End()
            && r.value.Start() <= r'.value.End()
  {
    AtRunBounds(text, b, k, off);
    AtRunBounds(text, b, k, off');
    var run := b.runs[k];
    if run.interpolable && off > run.rendered.start {
      OffsetsOrder(Get(text, run.source).value, off - run.rendered.start, off' - run.rendered.start);
    }
  }

  // ----- down the children of a container

  predicate InRange(blocks: seq<BlockSpan>, kids: seq<nat>) {
    forall a :: 0 <= a < |kids| ==> kids[a] < |blocks|
  }

  /** Where child `k`'s rendered text starts in its container's. */
  function KidStart(blocks: seq<BlockSpan>, kids: seq<nat>, k: nat): nat
    requires k <= |kids| && InRange(blocks, kids)
  {
    if k == 0 then 0 else KidStart(blocks, kids, k - 1) + blocks[kids[k - 1]].renderedLen + 1
  }

  lemma {:induction false} KidStarts(blocks: seq<BlockSpan>, kids: seq<nat>, a: nat, b: nat)
    requires a < b <= |kids| && InRange(blocks, kids)
    ensures KidStart(blocks, kids, a) + blocks[kids[a]].renderedLen < KidStart(blocks, kids, b)
    decreases b
  {
    if a < b - 1 { KidStarts(blocks, kids, a, b - 1); }
  }

  lemma {:induction false} JoinedIsLastStart(blocks: seq<BlockSpan>, kids: seq<nat>, k: nat)
    requires k < |kids| && InRange(blocks, kids)
    ensures KidStart(blocks, kids, k) + JoinedLen(blocks, kids[k..]) + 1 == KidStart(blocks, kids, |kids|)
    decreases |kids| - k
  {
    if k + 1 < |kids| {
      JoinedIsLastStart(blocks, kids, k + 1);
      assert kids[k..][1..] == kids[k + 1..];
    } else {
      assert kids[k..] == [kids[k]];
    }
  }

  ghost predicate InKid(blocks: seq<BlockSpan>, kids: seq<nat>, k: nat, off: nat)
    requires InRange(blocks, kids)
  {
    k < |kids| &&
    KidStart(blocks, kids, k) <= off <= KidStart(blocks, kids, k) + blocks[kids[k]].renderedLen
  }

  lemma {:induction false} HoldingKid(blocks: seq<BlockSpan>, kids: seq<nat>, j: nat, off: nat) returns (k: nat)
    requires j < |kids| && InRange(blocks, kids)
    requires KidStart(blocks, kids, j) <= off && off + 1 < KidStart(blocks, kids, |kids|) + 1
    ensures j <= k && InKid(blocks, kids, k, off)
    decreases |kids| - j
  {
    if off <= KidStart(blocks, kids, j) + blocks[kids[j]].renderedLen {
      k := j;
    } else {
      k := HoldingKid(blocks, kids, j + 1, off);
    }
  }

  lemma {:induction false} KidWalkReaches(text: string, blocks: seq<BlockSpan>, i: nat, j: nat, k: nat, off: nat)
    requires ChildrenDeeper(blocks) && i < |blocks|
    requires InRange(blocks, blocks[i].children)
    requires j <= k && InKid(blocks, blocks[i].children, k, off) && KidStart(blocks, blocks[i].children, j) <= off
    ensures var kids := blocks[i].children;
            ResolveKids(text, blocks, i, j, KidStart(blocks, kids, j), off)
            == ResolveAt(text, blocks, kids[k], off - KidStart(blocks, kids, k))
            && ResolveLeafKids(text, blocks, i, j, KidStart(blocks, kids, j), off)
            == ResolveLeafAt(text, blocks, kids[k], off - KidStart(blocks, kids, k))
    decreases k - j
  {
    if j < k {
      KidStarts(blocks, blocks[i].children, j, k);
      if j + 1 < k { KidStarts(blocks, blocks[i].children, j + 1, k); }
      KidWalkReaches(text, blocks, i, j + 1, k, off);
    }
  }

  /** Listed children have longer paths, so resolving into them ends. */
  lemma DeeperBecauseListed(blocks: seq<BlockSpan>)
    requires forall i :: 0 <= i < |blocks| ==> ChildrenListed(blocks, i)
    ensures ChildrenDeeper(blocks)
    ensures forall i :: 0 <= i < |blocks| ==> InRange(blocks, blocks[i].children)
  {
    forall i, a | 0 <= i < |blocks| && 0 <= a < |blocks[i].children|
      ensures blocks[i].children[a] < |blocks| && |blocks[i].path| < |blocks[blocks[i].children[a]].path|
    {
      assert ChildrenListed(blocks, i) && blocks[i].children[a] in blocks[i].children;
      assert IsChild(blocks, i, blocks[i].children[a]);
    }
  }

  /** A container hands an offset within its rendered text to exactly one child. */
  lemma ContainerResolves(text: string, blocks: seq<BlockSpan>, stale: set<BlockPath>, i: nat, off: nat) returns (k: nat)
    requires Coherent(text, blocks, stale) && ChildrenDeeper(blocks) && i < |blocks|
    requires blocks[i].children != [] && off <= blocks[i].renderedLen
    ensures var kids := blocks[i].children;
            InRange(blocks, kids) && InKid(blocks, kids, k, off)
            && IsChild(blocks, i, kids[k])
            && ResolveAt(text, blocks, i, off) == ResolveAt(text, blocks, kids[k], off - KidStart(blocks, kids, k))
            && ResolveLeafAt(text, blocks, i, off) == ResolveLeafAt(text, blocks, kids[k], off - KidStart(blocks, kids, k))
  {
    var kids := blocks[i].children;
    assert ChildrenListed(blocks, i);
    JoinedIsLastStart(blocks, kids, 0);
    assert kids[0..] == kids;
    k := HoldingKid(blocks, kids, 0, off);
    KidWalkReaches(text, blocks, i, 0, k, off);
    assert kids[k] in kids;
  }
}
