/** From rendered text to source and back: a block's rendered text holds its leaves' at the places
    resolution looks for them, and the source of a selection reads what was selected. */
module SelectedText {
  import opened Text
  import opened Paths
  import opened Ast
  import opened Spans
  import opened Events
  import opened Nesting
  import opened CleanStreams
  import opened BuilderModel
  import opened RunCounts
  import opened CleanMaps
  import opened Resolve
  import opened ResolveTheorems
  import opened ResolveMeanings
  import opened SpanMapBuilders

  // ----- joined texts

  /** Where the `k`th of some joined texts starts. */
  function TextStart(texts: seq<string>, k: nat): nat
    requires k <= |texts|
  {
    if k == 0 then 0 else |texts[0]| + 1 + TextStart(texts[1..], k - 1)
  }

  /** Each text is in the joined text whole, and one newline stands between two. */
  lemma {:induction false} JoinedPieces(texts: seq<string>, k: nat)
    requires k < |texts|
    ensures var s := JoinTexts(texts); var start := TextStart(texts, k);
            start + |texts[k]| <= |s| && s[start..start + |texts[k]|] == texts[k] && (k > 0 ==> s[start - 1] == '\n')
    ensures k == |texts| - 1 ==> TextStart(texts, k) + |texts[k]| == |JoinTexts(texts)|
    decreases |texts|
  {
    hide JoinTexts;
    JoinSteps(texts);
    if |texts| > 1 && k > 0 {
      var first, rest, start := texts[0] + "\n", JoinTexts(texts[1..]), TextStart(texts[1..], k - 1);
      JoinedPieces(texts[1..], k - 1);
      SliceAfterPrefix(first, rest, start, start + |texts[k]|);
      if k > 1 { assert (first + rest)[|first| + start - 1] == rest[start - 1]; }
    }
  }

  lemma JoinSteps(texts: seq<string>)
    requires texts != []
    ensures |texts| == 1 ==> JoinTexts(texts) == texts[0]
    ensures |texts| > 1 ==> JoinTexts(texts) == texts[0] + "\n" + JoinTexts(texts[1..])
  {
  }

  /** The same place as the span map counts it. */
  lemma {:induction false} StartsAgree(blocks: seq<BlockSpan>, kids: seq<nat>, texts: seq<string>, k: nat)
    requires |kids| == |texts| && k <= |kids| && InRange(blocks, kids)
    requires forall a :: 0 <= a < |kids| ==> blocks[kids[a]].renderedLen == |texts[a]|
    ensures KidStart(blocks, kids, k) == TextStart(texts, k)
    decreases k
  {
    if k > 0 {
      StartsAgree(blocks, kids, texts, k - 1);
      StartGrows(texts, k - 1);
    }
  }

  lemma {:induction false} StartGrows(texts: seq<string>, k: nat)
    requires k < |texts|
    ensures TextStart(texts, k + 1) == TextStart(texts, k) + |texts[k]| + 1
    decreases k
  {
    if k > 0 { StartGrows(texts[1..], k - 1); }
  }

  lemma {:induction false} TextsAt(nodes: seq<AstNode>, k: nat)
    requires k < |nodes|
    ensures Texts(nodes)[k] == RenderedText(nodes[k])
    decreases |nodes|
  {
    if k > 0 {
      TextsAt(nodes[1..], k - 1);
      assert Texts(nodes)[1..] == Texts(nodes[1..]);
    }
  }

  // ----- a leaf's text inside a block's

  /** `inner` stands in `outer` at `at`. */
  predicate HasAt(outer: string, at: int, inner: string) {
    0 <= at <= at + |inner| <= |outer| && outer[at..at + |inner|] == inner
  }

  lemma HasWithin(outer: string, a: int, middle: string, b: int, inner: string)
    requires HasAt(outer, a, middle) && HasAt(middle, b, inner)
    ensures HasAt(outer, a + b, inner)
  {
    SliceOfSlice(outer, a, a + |middle|, b, b + |inner|);
  }

  /** What the map and the tree say of one container and its `k`th child. */
  lemma KidText(source: string, root: seq<AstNode>, regs: seq<Reg>, blocks: seq<BlockSpan>, i: nat, k: nat)
    requires RegistersTree(source, root, regs) && Finished(Pushed(regs), blocks) && i < |blocks| == |regs|
    requires WhollyRegistered(blocks, regs[i].node, regs[i].path) && k < |blocks[i].children|
    ensures InRange(blocks, blocks[i].children)
    ensures var c := blocks[i].children[k];
            WhollyRegistered(blocks, regs[c].node, regs[c].path)
            && HasAt(RenderedText(regs[i].node), KidStart(blocks, blocks[i].children, k), RenderedText(regs[c].node))
            && (k > 0 ==> RenderedText(regs[i].node)[KidStart(blocks, blocks[i].children, k) - 1] == '\n')
  {
    hide KidStart, JoinTexts, RegistersTree, Finished, WhollyRegistered, RenderedText, Texts;
    var node, kids := regs[i].node, blocks[i].children;
    ChildrenAreKids(source, root, regs, blocks, i);
    ChildrenNeedContainer(source, root, regs, blocks, i);
    var texts := Texts(Kids(node));
    forall a | 0 <= a < |kids| ensures blocks[kids[a]].renderedLen == |texts[a]| {
      WholeBelow(blocks, node, regs[i].path, a);
      LengthsMeasureText(source, root, regs, blocks, kids[a]);
      TextsAt(Kids(node), a);
    }
    StartsAgree(blocks, kids, texts, k);
    JoinedPieces(texts, k);
    TextsAt(Kids(node), k);
    ContainerText(node);
    WholeBelow(blocks, node, regs[i].path, k);
  }

  lemma WholeBelow(blocks: seq<BlockSpan>, node: AstNode, p: BlockPath, k: nat)
    requires WhollyRegistered(blocks, node, p) && k < |Kids(node)|
    ensures WhollyRegistered(blocks, Kids(node)[k], p + [k])
  {
  }

  lemma Sized(source: string, root: seq<AstNode>, regs: seq<Reg>, blocks: seq<BlockSpan>)
    requires RegistersTree(source, root, regs) && Finished(Pushed(regs), blocks)
    ensures |blocks| == |regs|
  {
  }

  lemma ContainerText(node: AstNode)
    requires IsContainer(node)
    ensures RenderedText(node) == JoinTexts(Texts(Kids(node)))
  {
  }

  /** An offset's leaf has its rendered text at that place of the block's. */
  lemma {:induction false} LeafTextInBlock(source: string, root: seq<AstNode>, regs: seq<Reg>, blocks: seq<BlockSpan>,
                                           i: nat, off: nat, leaf: nat, at: nat)
    requires RegistersTree(source, root, regs) && Finished(Pushed(regs), blocks) && ChildrenDeeper(blocks) && i < |blocks| == |regs|
    requires WhollyRegistered(blocks, regs[i].node, regs[i].path) && FallsIn(blocks, i, off, leaf, at)
    ensures leaf < |blocks| && HasAt(RenderedText(regs[i].node), off - at, RenderedText(regs[leaf].node))
    decreases Depth(blocks) - |blocks[i].path|
  {
    hide FallsIn, KidStart, RegistersTree, Finished, WhollyRegistered, HasAt, RenderedText;
    if blocks[i].children == [] {
      LeafItself(blocks, i, off, leaf, at);
      assert HasAt(RenderedText(regs[i].node), 0, RenderedText(regs[i].node)) by { HasSelf(RenderedText(regs[i].node)); }
    } else {
      var kids := blocks[i].children;
      var k := KidBelow(blocks, i, off, leaf, at);
      KidText(source, root, regs, blocks, i, k);
      var inner := off - KidStart(blocks, kids, k);
      LeafTextInBlock(source, root, regs, blocks, kids[k], inner, leaf, at);
      HasWithin(RenderedText(regs[i].node), KidStart(blocks, kids, k), RenderedText(regs[kids[k]].node), inner - at, RenderedText(regs[leaf].node));
    }
  }

  lemma HasSelf(s: string)
    ensures HasAt(s, 0, s)
  {
  }

  // ----- what was selected

  /** On every clean stream, a selection inside one interpolable run of a leaf, made through any
      block above it that is registered whole: the source it resolves to reads exactly the
      rendered characters selected. */
  lemma SelectionReadsItself(source: string, events: seq<Event>, blocks: seq<BlockSpan>, i: nat, off: nat, off': nat,
                             leaf: nat, at: nat, at': nat, k: nat)
    requires Clean(source, START_CARE, events) && ByteLen(source) <= ISIZE_MAX
    requires Finished(Pushed(HandleAll(source, INITIAL, events).regs), blocks)
    requires ChildrenDeeper(blocks) && InText(blocks, Selection(i, off, i, off'))
    requires var st := HandleAll(source, INITIAL, events);
             Walk(st.root, blocks[i].path).Some? && WhollyRegistered(blocks, Walk(st.root, blocks[i].path).value, blocks[i].path)
    requires leaf < |blocks| && FallsIn(blocks, i, off, leaf, at) && FallsIn(blocks, i, off', leaf, at')
    requires k < |blocks[leaf].runs| && blocks[leaf].runs[k].interpolable
    requires blocks[leaf].runs[k].rendered.start <= at < at' <= blocks[leaf].runs[k].rendered.end
    ensures var text := RenderedText(Walk(HandleAll(source, INITIAL, events).root, blocks[i].path).value);
            var r := ResolveRange(source, blocks, Selection(i, off, i, off'));
            r.Some? && off < off' <= |text| && Get(source, r.value) == Some(text[off..off'])
  {
    hide Coherent, FallsIn, Finished, WhollyRegistered, Clean, HandleAll, ResolveRange, RegistersTree, RenderedText, Get, Walk, ByteLen;
    var st := HandleAll(source, INITIAL, events);
    CleanStreamsAreCoherent(source, events, blocks);
    CleanIsWellNested(source, START_CARE, events);
    StreamRegistersTree(source, events);
    Sized(source, st.root, st.regs, blocks);
    RegisteredHere(source, st.root, st.regs, blocks, i);
    LeafTextInBlock(source, st.root, st.regs, blocks, i, off, leaf, at);
    LeafTextInBlock(source, st.root, st.regs, blocks, i, off', leaf, at');
    SameShift(blocks, i, off, off', leaf, at, at') by { ShapeOfCoherent(source, blocks); }
    SelectedSource(source, blocks, Selection(i, off, i, off'), leaf, at, at', k);
    RunRendered(source, st.root, st.regs, blocks, leaf, k);
    SamePlace(RenderedText(st.regs[i].node), RenderedText(st.regs[leaf].node), blocks[leaf].runs[k].rendered, off, at, off', at');
  }

  lemma ShapeOfCoherent(source: string, blocks: seq<BlockSpan>)
    requires Coherent(source, blocks, {})
    ensures TreeShape(blocks)
  {
  }

  lemma RegisteredHere(source: string, root: seq<AstNode>, regs: seq<Reg>, blocks: seq<BlockSpan>, i: nat)
    requires RegistersTree(source, root, regs) && Finished(Pushed(regs), blocks) && i < |blocks| == |regs|
    ensures blocks[i].path == regs[i].path && Walk(root, blocks[i].path) == Some(regs[i].node)
  {
    hide Walk, RegCounted;
  }

  /** An interpolable run's source is its piece of the leaf's rendered text. */
  lemma RunRendered(source: string, root: seq<AstNode>, regs: seq<Reg>, blocks: seq<BlockSpan>, leaf: nat, k: nat)
    requires RegistersTree(source, root, regs) && Finished(Pushed(regs), blocks) && leaf < |blocks| == |regs|
    requires k < |blocks[leaf].runs| && blocks[leaf].runs[k].interpolable
    ensures var run := blocks[leaf].runs[k]; var text := RenderedText(regs[leaf].node);
            run.rendered.start <= run.rendered.end <= |text|
            && Get(source, run.source) == Some(text[run.rendered.start..run.rendered.end])
  {
    hide Walk, Get, RenderedText;
    assert blocks[leaf].runs == regs[leaf].runs;
    assert RegCounted(source, regs[leaf]);
    assert RunReads(source, RenderedText(regs[leaf].node), NodeMarks(regs[leaf].node), regs[leaf].runs[k]);
  }

  lemma SamePlace(text: string, inner: string, run: Range, off: nat, at: nat, off': nat, at': nat)
    requires HasAt(text, off - at, inner) && HasAt(text, off' - at', inner) && run.start <= at < at' <= run.end <= |inner|
    requires off' - at' == off - at
    ensures off < off' <= |text| && inner[run.start..run.end][at - run.start..at' - run.start] == text[off..off']
  {
    var base := off - at;
    assert inner == text[base..base + |inner|];
    SliceOfSlice(inner, run.start, run.end, at - run.start, at' - run.start);
    SliceOfSlice(text, base, base + |inner|, at, at');
  }

  // ----- one leaf, one place

  /** The leaf is at or under the block. */
  lemma {:induction false} LeafUnder(blocks: seq<BlockSpan>, i: nat, off: nat, leaf: nat, at: nat)
    requires TreeShape(blocks) && ChildrenDeeper(blocks) && i < |blocks| && FallsIn(blocks, i, off, leaf, at)
    ensures leaf < |blocks| && blocks[i].path <= blocks[leaf].path
    decreases Depth(blocks) - |blocks[i].path|
  {
    hide FallsIn, KidStart;
    if blocks[i].children == [] {
      LeafItself(blocks, i, off, leaf, at);
    } else {
      var k := KidBelow(blocks, i, off, leaf, at);
      var kid := blocks[i].children[k];
      assert ChildrenListed(blocks, i) && kid in blocks[i].children;
      assert IsChild(blocks, i, kid);
      LeafUnder(blocks, kid, off - KidStart(blocks, blocks[i].children, k), leaf, at);
      ParentPrefix(blocks[kid].path);
    }
  }

  lemma ParentPrefix(p: BlockPath)
    requires |p| >= 2
    ensures Parent(p) <= p && |Parent(p)| == |p| - 1
  {
  }

  /** Two offsets in one leaf are as far apart in the block as in the leaf. */
  lemma {:induction false} SameShift(blocks: seq<BlockSpan>, i: nat, off: nat, off': nat, leaf: nat, at: nat, at': nat)
    requires TreeShape(blocks) && ChildrenDeeper(blocks) && i < |blocks|
    requires FallsIn(blocks, i, off, leaf, at) && FallsIn(blocks, i, off', leaf, at')
    ensures off' - at' == off - at
    decreases Depth(blocks) - |blocks[i].path|
  {
    hide FallsIn, KidStart, TreeShape, Depth;
    if blocks[i].children == [] {
      LeafItself(blocks, i, off, leaf, at);
      LeafItself(blocks, i, off', leaf, at');
    } else {
      var kids := blocks[i].children;
      var k := KidBelow(blocks, i, off, leaf, at);
      var k' := KidBelow(blocks, i, off', leaf, at');
      LeafUnder(blocks, kids[k], off - KidStart(blocks, kids, k), leaf, at);
      LeafUnder(blocks, kids[k'], off' - KidStart(blocks, kids, k'), leaf, at');
      OneChildAbove(blocks, i, k, k', blocks[leaf].path);
      hide InKid;
      SameShift(blocks, kids[k], off - KidStart(blocks, kids, k), off' - KidStart(blocks, kids, k), leaf, at, at');
    }
  }

  lemma OneChildAbove(blocks: seq<BlockSpan>, i: nat, k: nat, k': nat, p: BlockPath)
    requires TreeShape(blocks) && i < |blocks| && k < |blocks[i].children| && k' < |blocks[i].children|
    requires InRange(blocks, blocks[i].children)
    requires blocks[blocks[i].children[k]].path <= p && blocks[blocks[i].children[k']].path <= p
    ensures k == k'
  {
    var kids := blocks[i].children;
    assert ChildrenListed(blocks, i) && kids[k] in kids && kids[k'] in kids;
    assert IsChild(blocks, i, kids[k]) && IsChild(blocks, i, kids[k']);
    ParentPrefix(blocks[kids[k]].path);
    ParentPrefix(blocks[kids[k']].path);
    assert blocks[kids[k]].path == p[..|blocks[kids[k]].path|] && blocks[kids[k']].path == p[..|blocks[kids[k]].path|];
  }
}
