/** What the parser hands over: the finished span map of a clean stream is coherent, and rendered
    lengths agree with the rendered text of the AST. */
module CleanMaps {
  import opened Text
  import opened Paths
  import opened Ast
  import opened Spans
  import opened Events
  import opened Nesting
  import opened CleanStreams
  import opened BuilderModel
  import opened RunCounts
  import opened BlockTree
  import opened BlockPaths
  import opened SpanMapBuilders
  import opened SpanOrder
  import opened SpanOrderStream

  /** A registration as the span map builder stores it. */
  function Stored(reg: Reg): BlockSpan {
    BlockSpan(reg.path, reg.source, reg.runs, LastEnd(reg.runs), [])
  }

  function Pushed(regs: seq<Reg>): seq<BlockSpan> {
    seq(|regs|, i requires 0 <= i < |regs| => Stored(regs[i]))
  }

  // ----- the tree

  /** One more step down a path. */
  lemma {:induction false} WalkStep(nodes: seq<AstNode>, p: BlockPath, k: nat)
    requires Walk(nodes, p).Some?
    ensures Walk(nodes, p + [k]) ==
            if k < |Kids(Walk(nodes, p).value)| then Some(Kids(Walk(nodes, p).value)[k]) else None
    decreases |p|
  {
    var q := p + [k];
    assert q[0] == p[0] && q[1..] == p[1..] + [k];
    if |p| > 1 { WalkStep(Kids(nodes[p[0]]), p[1..], k); }
  }

  /** What the event stream leaves in the tree: distinct paths, each leading to its node, with
      every parent registered, and runs that describe the leaves. */
  ghost predicate RegistersTree(source: string, root: seq<AstNode>, regs: seq<Reg>) {
    && (forall i :: 0 <= i < |regs| ==> Walk(root, regs[i].path) == Some(regs[i].node))
    && (forall i, j :: 0 <= i < j < |regs| ==> regs[i].path != regs[j].path)
    && (forall i :: 0 <= i < |regs| && |regs[i].path| >= 2 ==> HasReg(regs, Parent(regs[i].path)))
    && (forall i :: 0 <= i < |regs| ==> RegCounted(source, regs[i]))
  }

  lemma StreamRegistersTree(source: string, events: seq<Event>)
    requires WellNested(source, START, events)
    ensures var st := HandleAll(source, INITIAL, events); RegistersTree(source, st.root, st.regs)
  {
    EveryPathLeadsToItsNode(source, events);
    InitialCounts(source);
    StreamCounts(source, INITIAL, events);
  }

  lemma FinishedTree(source: string, root: seq<AstNode>, regs: seq<Reg>, blocks: seq<BlockSpan>)
    requires RegistersTree(source, root, regs) && Finished(Pushed(regs), blocks)
    ensures TreeShape(blocks)
  {
    hide RegCounted, ChildrenListed;
    forall i | 0 <= i < |blocks|
      ensures blocks[i].path != [] && (|blocks[i].path| >= 2 ==> Registered(blocks, Parent(blocks[i].path)))
    {
      assert blocks[i].path == regs[i].path && Walk(root, regs[i].path).Some?;
      if |regs[i].path| >= 2 {
        var k :| 0 <= k < |regs| && regs[k].path == Parent(regs[i].path);
        assert blocks[k].path == regs[k].path;
      }
    }
  }

  /** A child's last component says which of its parent's nodes it is. */
  lemma ChildIsKid(root: seq<AstNode>, regs: seq<Reg>, blocks: seq<BlockSpan>, i: nat, c: nat)
    requires |blocks| == |regs| && forall k :: 0 <= k < |regs| ==> blocks[k].path == regs[k].path
    requires forall k :: 0 <= k < |regs| ==> Walk(root, regs[k].path) == Some(regs[k].node)
    requires i < |blocks| && IsChild(blocks, i, c)
    ensures var slot := Slot(blocks[c].path);
            regs[c].path == regs[i].path + [slot] && slot < |Kids(regs[i].node)| && regs[c].node == Kids(regs[i].node)[slot]
  {
    WalkStep(root, regs[i].path, Slot(blocks[c].path));
    assert regs[c].path == regs[i].path + [Slot(blocks[c].path)];
  }

  /** A block with children was registered for a container. */
  lemma {:induction false} ChildrenNeedContainer(source: string, root: seq<AstNode>, regs: seq<Reg>, blocks: seq<BlockSpan>, i: nat)
    requires RegistersTree(source, root, regs) && Finished(Pushed(regs), blocks) && i < |blocks| && blocks[i].children != []
    ensures IsContainer(regs[i].node) && regs[i].runs == []
  {
    hide Walk, JoinedLen, Describes;
    var c := blocks[i].children[0];
    assert ChildrenListed(blocks, i) && c in blocks[i].children;
    ChildIsKid(root, regs, blocks, i, c);
    assert RegCounted(source, regs[i]);
  }

  // ----- coherence

  /** A leaf's runs, as stored, are what coherence asks of them. */
  lemma StoredRunsFit(source: string, reg: Reg)
    requires RegCounted(source, reg) && TruthfulReg(source, reg)
    ensures RunsFit(source, Stored(reg))
  {
    hide Get, RenderedText;
    var b := Stored(reg);
    forall k | 0 <= k < |b.runs| ensures Contains(b.source, b.runs[k].source) && TruthfulRun(source, b.runs[k]) {
      if !IsContainer(reg.node) { assert RunReads(source, RenderedText(reg.node), NodeMarks(reg.node), b.runs[k]); }
    }
  }

  lemma RunsFitAnywhere(source: string, a: BlockSpan, b: BlockSpan)
    requires RunsFit(source, a) && b.source == a.source && b.runs == a.runs && b.renderedLen == a.renderedLen
    ensures RunsFit(source, b)
  {
  }

  lemma SpansInText(source: string, reg: Reg, b: BlockSpan)
    requires TruthfulReg(source, reg) && b.source == reg.source && b.runs == reg.runs && ByteLen(source) <= ISIZE_MAX
    ensures RunsNear(b)
  {
    GetLength(source, reg.source);
    hide Get;
  }

  /** For every clean stream, whatever the builder's `finish` derives from the registrations is a
      coherent map with no stale runs. */
  lemma CleanStreamsAreCoherent(source: string, events: seq<Event>, blocks: seq<BlockSpan>)
    requires Clean(source, START_CARE, events) && ByteLen(source) <= ISIZE_MAX
    requires Finished(Pushed(HandleAll(source, INITIAL, events).regs), blocks)
    ensures Coherent(source, blocks, {})
  {
    var st := HandleAll(source, INITIAL, events);
    CleanIsWellNested(source, START_CARE, events);
    StreamRegistersTree(source, events);
    CleanStreamInOrder(source, events);
    CoherentBecause(source, st.root, st.regs, blocks);
  }

  lemma CoherentBecause(source: string, root: seq<AstNode>, regs: seq<Reg>, blocks: seq<BlockSpan>)
    requires RegistersTree(source, root, regs) && Finished(Pushed(regs), blocks) && ByteLen(source) <= ISIZE_MAX
    requires forall i :: 0 <= i < |regs| ==> TruthfulReg(source, regs[i])
    requires forall i, j :: 0 <= i < |regs| && 0 <= j < |regs| ==> InOrder(regs[i], regs[j])
    ensures Coherent(source, blocks, {})
  {
    hide TreeShape, RunsFit, RunsNear, TruthfulSpan, RegCounted, AllLocallyPlaced, ChildrenListed, RunsWithin;
    FinishedTree(source, root, regs, blocks);
    AllInOrder(regs, blocks);
    forall i | 0 <= i < |blocks|
      ensures TruthfulSpan(source, blocks[i].source) && RunsNear(blocks[i])
      ensures blocks[i].children != [] ==> blocks[i].runs == []
      ensures blocks[i].children == [] ==> RunsFit(source, blocks[i])
    {
      assert TruthfulReg(source, regs[i]);
      SpansInText(source, regs[i], blocks[i]);
      if blocks[i].children != [] {
        ChildrenNeedContainer(source, root, regs, blocks, i);
      } else {
        StoredRunsFit(source, regs[i]);
        RunsFitAnywhere(source, Stored(regs[i]), blocks[i]);
      }
    }
  }

  lemma AllInOrder(regs: seq<Reg>, blocks: seq<BlockSpan>)
    requires Finished(Pushed(regs), blocks)
    requires forall i, j :: 0 <= i < |regs| && 0 <= j < |regs| ==> InOrder(regs[i], regs[j])
    ensures AllLocallyPlaced(blocks)
  {
    forall i, j | 0 <= i < |blocks| && 0 <= j < |blocks| ensures Placed(blocks[i], blocks[j]) {
      assert InOrder(regs[i], regs[j]);
    }
    PlacedImpliesLocal(blocks);
  }

  // ----- rendered lengths

  /** Every node of the subtree is registered. */
  ghost predicate WhollyRegistered(blocks: seq<BlockSpan>, node: AstNode, p: BlockPath)
    decreases node
  {
    && Registered(blocks, p)
    && forall k :: 0 <= k < |Kids(node)| ==> WhollyRegistered(blocks, Kids(node)[k], p + [k])
  }

  /** Strictly ascending numbers that are exactly `0..n` stand at their own index. */
  lemma {:induction false} AscendingFromZero(s: seq<nat>, n: nat)
    requires forall a, b :: 0 <= a < b < |s| ==> s[a] < s[b]
    requires forall x: nat :: x in s <==> x < n
    ensures |s| == n && forall a :: 0 <= a < |s| ==> s[a] == a
    decreases n
  {
    if |s| > 0 { assert s[0] in s; }
    if n > 0 {
      assert n - 1 in s;
      var last := |s| - 1;
      var at :| 0 <= at < |s| && s[at] == n - 1;
      assert s[last] in s && at == last;
      var init := s[..last];
      forall x: nat ensures x in init <==> x < n - 1 {
        if x < n - 1 { assert x in s; }
        if x in init { assert x in s; }
      }
      AscendingFromZero(init, n - 1);
    }
  }

  /** The child components of a wholly registered container are `0..` in order. */
  lemma SlotsCount(root: seq<AstNode>, regs: seq<Reg>, blocks: seq<BlockSpan>, i: nat)
    requires |blocks| == |regs| && forall k :: 0 <= k < |regs| ==> blocks[k].path == regs[k].path
    requires forall k :: 0 <= k < |regs| ==> Walk(root, regs[k].path) == Some(regs[k].node)
    requires i < |blocks| && ChildrenListed(blocks, i) && WhollyRegistered(blocks, regs[i].node, regs[i].path)
    ensures |blocks[i].children| == |Kids(regs[i].node)|
    ensures forall a :: 0 <= a < |blocks[i].children| ==>
              IsChild(blocks, i, blocks[i].children[a]) && Slot(blocks[blocks[i].children[a]].path) == a
  {
    var kids, node, p := blocks[i].children, regs[i].node, regs[i].path;
    var slots := seq(|kids|, a requires 0 <= a < |kids| => Slot(blocks[kids[a]].path));
    forall a | 0 <= a < |kids| ensures IsChild(blocks, i, kids[a]) && slots[a] < |Kids(node)| {
      assert kids[a] in kids;
      ChildIsKid(root, regs, blocks, i, kids[a]);
    }
    forall x: nat ensures x in slots <==> x < |Kids(node)| {
      if x < |Kids(node)| {
        assert WhollyRegistered(blocks, Kids(node)[x], p + [x]);
        var c :| 0 <= c < |blocks| && blocks[c].path == p + [x];
        assert Parent(blocks[c].path) == p && IsChild(blocks, i, c) && c in kids;
        var a :| 0 <= a < |kids| && kids[a] == c;
        assert slots[a] == x;
      }
    }
    AscendingFromZero(slots, |Kids(node)|);
  }

  /** The children of a wholly registered container are its nodes, in order. */
  lemma {:induction false} ChildrenAreKids(source: string, root: seq<AstNode>, regs: seq<Reg>, blocks: seq<BlockSpan>, i: nat)
    requires RegistersTree(source, root, regs) && Finished(Pushed(regs), blocks) && i < |blocks|
    requires WhollyRegistered(blocks, regs[i].node, regs[i].path)
    ensures var kids := blocks[i].children;
            |kids| == |Kids(regs[i].node)| && (forall a :: 0 <= a < |kids| ==> kids[a] < |blocks|)
            && forall a :: 0 <= a < |kids| ==>
                 regs[kids[a]].path == regs[i].path + [a] && regs[kids[a]].node == Kids(regs[i].node)[a]
  {
    hide RegCounted, WhollyRegistered, ChildrenListed, JoinedLen, Walk;
    assert ChildrenListed(blocks, i);
    SlotsCount(root, regs, blocks, i);
    forall a | 0 <= a < |blocks[i].children| {
      ChildIsKid(root, regs, blocks, i, blocks[i].children[a]);
    }
  }

  /** Children that measure their nodes join to the joined text's length. */
  lemma {:induction false} JoinedMeasures(blocks: seq<BlockSpan>, kids: seq<nat>, nodes: seq<AstNode>)
    requires |kids| == |nodes| && forall a :: 0 <= a < |kids| ==> kids[a] < |blocks|
    requires forall a :: 0 <= a < |kids| ==> blocks[kids[a]].renderedLen == |RenderedText(nodes[a])|
    ensures JoinedLen(blocks, kids) == |JoinRendered(nodes)|
    decreases |kids|
  {
    if |kids| > 0 {
      var texts := Texts(nodes);
      assert texts == [RenderedText(nodes[0])] + Texts(nodes[1..]);
      assert texts[1..] == Texts(nodes[1..]);
      JoinedMeasures(blocks, kids[1..], nodes[1..]);
    }
  }

  /** A registered block measures the rendered text of its node wherever the node's whole subtree
      is registered. */
  lemma {:induction false} LengthsMeasureText(source: string, root: seq<AstNode>, regs: seq<Reg>, blocks: seq<BlockSpan>, i: nat)
    requires RegistersTree(source, root, regs) && Finished(Pushed(regs), blocks) && i < |blocks|
    requires WhollyRegistered(blocks, regs[i].node, regs[i].path)
    ensures blocks[i].renderedLen == |RenderedText(regs[i].node)|
    decreases regs[i].node
  {
    hide RegCounted;
    var node := regs[i].node;
    ChildrenAreKids(source, root, regs, blocks, i);
    var kids := blocks[i].children;
    if kids == [] {
      StoredMeasures(source, regs[i]);
    } else {
      ChildrenNeedContainer(source, root, regs, blocks, i);
      forall a | 0 <= a < |kids| ensures blocks[kids[a]].renderedLen == |RenderedText(Kids(node)[a])| {
        assert WhollyRegistered(blocks, Kids(node)[a], regs[i].path + [a]);
        LengthsMeasureText(source, root, regs, blocks, kids[a]);
      }
      JoinedMeasures(blocks, kids, Kids(node));
    }
  }

  lemma StoredMeasures(source: string, reg: Reg)
    requires RegCounted(source, reg) && Kids(reg.node) == []
    ensures Stored(reg).renderedLen == |RenderedText(reg.node)|
  {
  }

  /** For every well-nested stream: each block whose subtree the map knows whole has the rendered
      length of the node its path leads to. */
  lemma StreamLengths(source: string, events: seq<Event>, blocks: seq<BlockSpan>, i: nat)
    requires WellNested(source, START, events)
    requires var regs := HandleAll(source, INITIAL, events).regs;
             Finished(Pushed(regs), blocks) && i < |blocks|
    ensures var st := HandleAll(source, INITIAL, events);
            Walk(st.root, blocks[i].path).Some?
            && (WhollyRegistered(blocks, Walk(st.root, blocks[i].path).value, blocks[i].path) ==>
                  blocks[i].renderedLen == |RenderedText(Walk(st.root, blocks[i].path).value)|)
  {
    StreamRegistersTree(source, events);
    var st := HandleAll(source, INITIAL, events);
    assert Walk(st.root, st.regs[i].path) == Some(st.regs[i].node) && blocks[i].path == st.regs[i].path;
    if WhollyRegistered(blocks, st.regs[i].node, blocks[i].path) {
      LengthsMeasureText(source, st.root, st.regs, blocks, i);
    }
  }
}
