/** `SpanMapBuilder`: collects block spans in completion order and derives the tree from their
    paths once the document has been seen. */
module SpanMapBuilders {
  import opened Text
  import opened Paths
  import opened Spans
  import opened Resolve
  import opened Sorting
  import opened SpanMaps

  // ----- the standard library's sorts

  ghost predicate SortedBy(key: seq<nat>, s: seq<nat>) {
    && (forall a :: 0 <= a < |s| ==> s[a] < |key|)
    && (forall a, b :: 0 <= a < b < |s| ==> key[s[a]] <= key[s[b]])
  }

  ghost predicate SameElements(s: seq<nat>, t: seq<nat>) {
    |s| == |t| && forall c :: c in s <==> c in t
  }

  function KeyAt(key: seq<nat>, x: nat): nat {
    if x < |key| then key[x] else 0
  }

  function ByKey(key: seq<nat>): (nat, nat) -> bool {
    (a: nat, b: nat) => KeyAt(key, a) < KeyAt(key, b)
  }

  /** `sort_by_key`: stable, and on distinct keys what `sort_unstable_by_key` gives too. */
  function SortBy(key: seq<nat>, s: seq<nat>): seq<nat> {
    Sort(ByKey(key), s)
  }

  lemma SortBySorts(key: seq<nat>, s: seq<nat>)
    requires forall a :: 0 <= a < |s| ==> s[a] < |key|
    ensures SortedBy(key, SortBy(key, s)) && SameElements(SortBy(key, s), s) && (Distinct(s) ==> Distinct(SortBy(key, s)))
  {
    var r := SortBy(key, s);
    SortSorts(ByKey(key), s);
    SameMembers(r, s);
    if Distinct(s) { DistinctByCount(s, r); }
    forall a | 0 <= a < |r| ensures r[a] < |key| { assert r[a] in s; }
    forall a, b | 0 <= a < b < |r| ensures key[r[a]] <= key[r[b]] { assert !ByKey(key)(r[b], r[a]); }
  }

  // ----- what `finish` derives

  function LastEnd(runs: seq<InlineRun>): nat {
    if runs == [] then 0 else runs[|runs| - 1].rendered.end
  }

  ghost predicate SameBlocks(pushed: seq<BlockSpan>, blocks: seq<BlockSpan>) {
    && |blocks| == |pushed|
    && forall i :: 0 <= i < |pushed| ==>
         blocks[i].path == pushed[i].path && blocks[i].source == pushed[i].source && blocks[i].runs == pushed[i].runs
  }

  /** The tree relationships derived from the pushed blocks: each block lists exactly the blocks
      one component deeper in ascending order, a leaf keeps its length, and a container has the
      length of its children's rendered texts joined by one newline. */
  ghost predicate Finished(pushed: seq<BlockSpan>, blocks: seq<BlockSpan>) {
    && SameBlocks(pushed, blocks)
    && (forall i :: 0 <= i < |blocks| ==> ChildrenListed(blocks, i))
    && (forall i :: 0 <= i < |blocks| ==>
          blocks[i].renderedLen == if blocks[i].children == [] then pushed[i].renderedLen
                                   else JoinedLen(blocks, blocks[i].children))
  }

  function SumLens(blocks: seq<BlockSpan>, kids: seq<nat>): nat
    requires InRange(blocks, kids)
  {
    if kids == [] then 0 else blocks[kids[0]].renderedLen + SumLens(blocks, kids[1..])
  }

  lemma {:induction false} JoinedIsSum(blocks: seq<BlockSpan>, kids: seq<nat>)
    requires InRange(blocks, kids) && kids != []
    ensures JoinedLen(blocks, kids) == SumLens(blocks, kids) + |kids| - 1
  {
    if |kids| > 1 { JoinedIsSum(blocks, kids[1..]); }
  }

  lemma {:induction false} JoinedFrame(blocks: seq<BlockSpan>, blocks': seq<BlockSpan>, kids: seq<nat>)
    requires |blocks'| == |blocks|
    requires forall c :: c in kids && c < |blocks| ==> blocks'[c].renderedLen == blocks[c].renderedLen
    ensures JoinedLen(blocks', kids) == JoinedLen(blocks, kids)
  {
    if |kids| > 1 { JoinedFrame(blocks, blocks', kids[1..]); }
  }

  /** The children collected so far: every child among the first `n` blocks, once. */
  ghost predicate Collected(blocks: seq<BlockSpan>, i: nat, n: nat)
    requires i < |blocks|
  {
    && (forall c: nat :: c in blocks[i].children <==> c < n && IsChild(blocks, i, c))
    && Distinct(blocks[i].children)
  }

  /** What is listed does not depend on lengths and runs. */
  lemma StillListed(a: seq<BlockSpan>, b: seq<BlockSpan>, i: nat)
    requires i < |a| == |b| && ChildrenListed(a, i)
    requires forall c :: 0 <= c < |a| ==> b[c].path == a[c].path && b[c].children == a[c].children
    ensures ChildrenListed(b, i)
  {
    assert forall c: nat :: IsChild(b, i, c) <==> IsChild(a, i, c);
  }

  /** Collected children, once sorted, are listed in strictly ascending order. */
  lemma SortedChildren(blocks: seq<BlockSpan>, i: nat, key: seq<nat>)
    requires DistinctPaths(blocks) && i < |blocks| && |key| == |blocks|
    requires forall c :: 0 <= c < |blocks| ==> key[c] == Slot(blocks[c].path)
    requires Collected(blocks, i, |blocks|) && SortedBy(key, blocks[i].children)
    ensures ChildrenListed(blocks, i)
  {
    hide IsChild, Slot, DistinctPaths;
    var kids := blocks[i].children;
    forall a | 0 <= a < |kids| ensures IsChild(blocks, i, kids[a]) && kids[a] < |blocks| {
      assert kids[a] in kids;
    }
    forall a, b | 0 <= a < b < |kids|
      ensures Slot(blocks[kids[a]].path) < Slot(blocks[kids[b]].path)
    {
      SlotsDiffer(blocks, i, kids[a], kids[b]);
      assert key[kids[a]] <= key[kids[b]];
    }
    assert forall c: nat :: IsChild(blocks, i, c) ==> c < |blocks| by { ChildrenKnown(blocks, i); }
  }

  lemma ChildrenKnown(blocks: seq<BlockSpan>, i: nat)
    requires i < |blocks|
    ensures forall c: nat :: IsChild(blocks, i, c) ==> c < |blocks|
  {
  }

  lemma SlotsDiffer(blocks: seq<BlockSpan>, i: nat, c: nat, d: nat)
    requires DistinctPaths(blocks) && i < |blocks| && c != d && IsChild(blocks, i, c) && IsChild(blocks, i, d)
    ensures Slot(blocks[c].path) != Slot(blocks[d].path)
  {
    var p, q := blocks[c].path, blocks[d].path;
    assert p == Parent(p) + [Last(p)] && q == Parent(q) + [Last(q)];
  }

  lemma CollectedNone(blocks: seq<BlockSpan>)
    requires forall i :: 0 <= i < |blocks| ==> blocks[i].children == []
    ensures forall i :: 0 <= i < |blocks| ==> Collected(blocks, i, 0)
  {
  }

  /** One more block listed by its parent, if that is registered. */
  lemma CollectedNext(was: seq<BlockSpan>, blocks: seq<BlockSpan>, byPath: map<BlockPath, nat>, index: nat, next: nat)
    requires next == index + 1 && index < |was| && forall i :: 0 <= i < |was| ==> Collected(was, i, index)
    requires forall p :: p in byPath ==> byPath[p] < |was| && was[byPath[p]].path == p
    requires forall i :: 0 <= i < |was| ==> was[i].path in byPath && byPath[was[i].path] == i
    requires var path := was[index].path;
             if |path| >= 2 && Parent(path) in byPath then
               var parent := byPath[Parent(path)];
               blocks == was[parent := was[parent].(children := was[parent].children + [index])]
             else blocks == was
    ensures SameBlocks(was, blocks) && forall i :: 0 <= i < |blocks| ==> Collected(blocks, i, next)
    ensures forall i :: 0 <= i < |blocks| ==> blocks[i].renderedLen == was[i].renderedLen
  {
    var path := was[index].path;
    forall i | 0 <= i < |blocks| ensures Collected(blocks, i, next) {
      assert Collected(was, i, index);
      assert forall c: nat :: IsChild(blocks, i, c) <==> IsChild(was, i, c);
      assert IsChild(was, i, index) ==> |path| >= 2 && byPath[Parent(path)] == i;
    }
  }

  class SpanMapBuilder {
    var blocks: seq<BlockSpan>
    var frontmatter: Option<Range>

    constructor ()
      ensures blocks == [] && frontmatter == None
    {
      blocks := [];
      frontmatter := None;
    }

    method PushBlock(path: BlockPath, source: Range, runs: seq<InlineRun>)
      modifies this`blocks
      ensures blocks == old(blocks) + [BlockSpan(path, source, runs, LastEnd(runs), [])]
    {
      var renderedLen := if runs == [] then 0 else runs[|runs| - 1].rendered.end;
      blocks := blocks + [BlockSpan(path, source, runs, renderedLen, [])];
    }

    method SetFrontmatter(source: Range)
      modifies this`frontmatter
      ensures frontmatter == Some(source)
    {
      frontmatter := Some(source);
    }

    /** `finish`, over any order of completion. */
    method Finish() returns (m: SpanMap)
      requires DistinctPaths(blocks)
      requires forall i :: 0 <= i < |blocks| ==> blocks[i].children == []
      modifies this`blocks
      ensures fresh(m) && m.Valid() && m.frontmatter == old(frontmatter)
      ensures Finished(old(blocks), m.blocks)
    {
      ghost var pushed := blocks;
      var byPath := IndexPaths();
      CollectChildren(byPath);
      SortChildren();
      ghost var listed := blocks;
      ghost var done := ComputeLengths();
      forall i | 0 <= i < |blocks| ensures ChildrenListed(blocks, i) { StillListed(listed, blocks, i); }
      hide ChildrenListed, Collected;
      DeeperBecauseListed(blocks);
      m := new SpanMap(blocks, byPath, frontmatter);
    }

    method IndexPaths() returns (byPath: map<BlockPath, nat>)
      requires DistinctPaths(blocks)
      ensures forall p :: p in byPath ==> byPath[p] < |blocks| && blocks[byPath[p]].path == p
      ensures forall i :: 0 <= i < |blocks| ==> blocks[i].path in byPath && byPath[blocks[i].path] == i
    {
      byPath := map[];
      for index := 0 to |blocks|
        invariant forall p :: p in byPath ==> byPath[p] < index && blocks[byPath[p]].path == p
        invariant forall i :: 0 <= i < index ==> blocks[i].path in byPath && byPath[blocks[i].path] == i
      {
        byPath := byPath[blocks[index].path := index];
      }
    }

    method CollectChildren(byPath: map<BlockPath, nat>)
      requires DistinctPaths(blocks) && forall i :: 0 <= i < |blocks| ==> blocks[i].children == []
      requires forall p :: p in byPath ==> byPath[p] < |blocks| && blocks[byPath[p]].path == p
      requires forall i :: 0 <= i < |blocks| ==> blocks[i].path in byPath && byPath[blocks[i].path] == i
      modifies this`blocks
      ensures SameBlocks(old(blocks), blocks)
      ensures forall i :: 0 <= i < |blocks| ==>
                Collected(blocks, i, |blocks|) && blocks[i].renderedLen == old(blocks)[i].renderedLen
    {
      hide Collected;
      CollectedNone(blocks);
      ghost var pushed := blocks;
      for index := 0 to |blocks|
        invariant SameBlocks(pushed, blocks)
        invariant forall i :: 0 <= i < |blocks| ==>
                    Collected(blocks, i, index) && blocks[i].renderedLen == pushed[i].renderedLen
      {
        ghost var was := blocks;
        var path := blocks[index].path;
        if |path| >= 2 && path[..|path| - 1] in byPath {
          var parent := byPath[path[..|path| - 1]];
          blocks := blocks[parent := blocks[parent].(children := blocks[parent].children + [index])];
        }
        ghost var next := index + 1;
        CollectedNext(was, blocks, byPath, index, next);
        assert forall i :: 0 <= i < |blocks| ==> Collected(blocks, i, next);
      }
    }

    method SortChildren()
      requires DistinctPaths(blocks) && forall i :: 0 <= i < |blocks| ==> Collected(blocks, i, |blocks|)
      modifies this`blocks
      ensures SameBlocks(old(blocks), blocks)
      ensures forall i :: 0 <= i < |blocks| ==>
                ChildrenListed(blocks, i) && blocks[i].renderedLen == old(blocks)[i].renderedLen
    {
      var lastComponent := seq(|blocks|, i requires 0 <= i < |blocks| reads this => Slot(blocks[i].path));
      ghost var was := blocks;
      for index := 0 to |blocks|
        invariant SameBlocks(was, blocks)
        invariant forall i :: 0 <= i < |blocks| ==>
                    Collected(blocks, i, |blocks|) && blocks[i].renderedLen == was[i].renderedLen
        invariant forall i :: 0 <= i < index ==> SortedBy(lastComponent, blocks[i].children)
      {
        ghost var before := blocks;
        assert Collected(blocks, index, |blocks|);
        assert forall a :: 0 <= a < |blocks[index].children| ==> blocks[index].children[a] in blocks[index].children;
        SortBySorts(lastComponent, blocks[index].children);
        blocks := blocks[index := blocks[index].(children := SortBy(lastComponent, blocks[index].children))];
        forall i | 0 <= i < |blocks| ensures Collected(blocks, i, |blocks|) {
          assert Collected(before, i, |blocks|);
          assert forall c: nat :: IsChild(blocks, i, c) <==> IsChild(before, i, c);
        }
      }
      forall i | 0 <= i < |blocks| ensures ChildrenListed(blocks, i) {
        SortedChildren(blocks, i, lastComponent);
      }
    }

    method ComputeLengths() returns (ghost done: set<nat>)
      requires forall i :: 0 <= i < |blocks| ==> ChildrenListed(blocks, i)
      modifies this`blocks
      ensures Measured(old(blocks), blocks, done) && forall i :: 0 <= i < |blocks| ==> i in done
    {
      hide *;
      ghost var was := blocks;
      done := {};
      DeeperBecauseListed(blocks);
      var byDepth := DepthOrder(blocks);
      MeasuredNone(blocks);
      for k := 0 to |byDepth|
        invariant |blocks| == |was| && Measured(was, blocks, done)
        invariant forall a :: 0 <= a < k ==> byDepth[a] in done
        invariant forall i :: i in done ==> i < |was| && (k < |byDepth| ==> |was[i].path| >= |was[byDepth[k]].path|)
      {
        ghost var before := blocks;
        var index := byDepth[k];
        MeasuredInRange(was, blocks, done, index);
        MeasureOne(index);
        MeasuredNext(was, before, blocks, done, index);
        done := done + {index};
      }
      DepthOrderCovers(was, done);
    }

    /** The loop's body: children's lengths, plus one newline between each two. */
    method MeasureOne(index: nat)
      requires index < |blocks| && InRange(blocks, blocks[index].children)
      modifies this`blocks
      ensures blocks == if old(blocks)[index].children == [] then old(blocks)
                        else old(blocks)[index := old(blocks)[index].(
                               renderedLen := JoinedLen(old(blocks), old(blocks)[index].children))]
    {
      if blocks[index].children != [] {
        var children := blocks[index].children;
        var total := SumLens(blocks, children);
        JoinedIsSum(blocks, children);
        blocks := blocks[index := blocks[index].(renderedLen := total + |children| - 1)];
      }
    }
  }

  /** The indices sorted deepest path first. */
  function DepthOrder(blocks: seq<BlockSpan>): (r: seq<nat>)
    ensures forall a :: 0 <= a < |r| ==> r[a] < |blocks|
    ensures forall i :: i in r <==> 0 <= i < |blocks|
    ensures forall a, b :: 0 <= a < b < |r| ==> |blocks[r[a]].path| >= |blocks[r[b]].path|
  {
    var shallow := seq(|blocks|, i requires 0 <= i < |blocks| => Depth(blocks) - |blocks[i].path|);
    SortBySorts(shallow, Indices(|blocks|));
    SortBy(shallow, Indices(|blocks|))
  }

  lemma DepthOrderCovers(blocks: seq<BlockSpan>, done: set<nat>)
    requires forall a :: 0 <= a < |DepthOrder(blocks)| ==> DepthOrder(blocks)[a] in done
    ensures forall i :: 0 <= i < |blocks| ==> i in done
  {
    forall i | 0 <= i < |blocks| ensures i in done {
      assert i in Indices(|blocks|);
      assert i in DepthOrder(blocks);
    }
  }

  /** `(0..n).collect()`. */
  function Indices(n: nat): (r: seq<nat>)
    ensures |r| == n && forall i :: 0 <= i < n ==> r[i] == i
    ensures forall i :: i in r <==> 0 <= i < n
  {
    if n == 0 then [] else Indices(n - 1) + [n - 1]
  }

  /** The lengths of the containers in `done` have been computed, and nothing else has changed. */
  ghost predicate Measured(was: seq<BlockSpan>, blocks: seq<BlockSpan>, done: set<nat>) {
    && SameBlocks(was, blocks)
    && (forall i :: 0 <= i < |blocks| ==> blocks[i].children == was[i].children)
    && (forall i :: 0 <= i < |blocks| && (blocks[i].children == [] || i !in done) ==>
          blocks[i].renderedLen == was[i].renderedLen)
    && (forall i :: 0 <= i < |blocks| && blocks[i].children != [] && i in done ==>
          blocks[i].renderedLen == JoinedLen(blocks, blocks[i].children))
  }

  lemma MeasuredNone(blocks: seq<BlockSpan>)
    ensures Measured(blocks, blocks, {})
  {
  }

  lemma MeasuredInRange(was: seq<BlockSpan>, blocks: seq<BlockSpan>, done: set<nat>, index: nat)
    requires ChildrenDeeper(was) && Measured(was, blocks, done) && index < |was|
    ensures index < |blocks| && InRange(blocks, blocks[index].children)
  {
  }

  /** Measuring a block no deeper than those done before changes none of their children. */
  lemma MeasuredNext(was: seq<BlockSpan>, before: seq<BlockSpan>, blocks: seq<BlockSpan>, done: set<nat>, index: nat)
    requires ChildrenDeeper(was) && index < |was| && Measured(was, before, done)
    requires forall i :: i in done ==> i < |was| && |was[i].path| >= |was[index].path|
    requires blocks == if before[index].children == [] then before
                       else before[index := before[index].(renderedLen := JoinedLen(before, before[index].children))]
    ensures |blocks| == |was| && Measured(was, blocks, done + {index})
  {
    hide JoinedLen;
    forall i | i in done + {index}
      ensures JoinedLen(blocks, was[i].children) == JoinedLen(before, was[i].children)
    {
      assert index !in was[i].children;
      JoinedFrame(before, blocks, was[i].children);
    }
  }
}
