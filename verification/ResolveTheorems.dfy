/** What resolution promises over a coherent map: it succeeds exactly on the offsets of the
    rendered text, lands inside the block, respects the order of the text, and never rejects a
    selection that runs forward. */
module ResolveTheorems {
  import opened Text
  import opened Paths
  import opened Spans
  import opened Resolve

  ghost predicate StrictlyInside(x: nat, r: Range) {
    r.start < x < r.end
  }

  /** `x` lies in the span, on a scalar boundary. */
  ghost predicate LiesIn(text: string, b: BlockSpan, x: nat) {
    b.source.start <= x <= b.source.end && IsBoundary(text, x)
  }

  /** `x` is no interior byte of a run whose source is not its rendered text. */
  ghost predicate AvoidsAtoms(b: BlockSpan, x: nat) {
    forall k :: 0 <= k < |b.runs| && !b.runs[k].interpolable ==> !StrictlyInside(x, b.runs[k].source)
  }

  lemma InsideIsBoundary(text: string, r: Range, w: nat)
    requires Get(text, r).Some? && w <= |Get(text, r).value|
    ensures IsBoundary(text, r.start + ByteOff(Get(text, r).value, w))
  {
    var lo, hi := FindScalar(text, r.start, |text|).value, FindScalar(text, r.end, |text|).value;
    SliceOffsets(text, lo, hi, lo + w);
  }

  lemma LeafLands(text: string, b: BlockSpan, off: nat)
    requires RunsFit(text, b) && TruthfulSpan(text, b.source) && off <= b.renderedLen
    ensures var r := ResolveRuns(text, b.runs, 0, b.source.start, off);
            r.Some? && LiesIn(text, b, r.value.Start()) && LiesIn(text, b, r.value.End())
            && AvoidsAtoms(b, r.value.Start()) && AvoidsAtoms(b, r.value.End())
  {
    var k := LeafResolves(text, b, off);
    AtRunBounds(text, b, k, off);
    LeafBoundaries(text, b, k, off);
    LeafAvoids(text, b, k, off);
  }

  lemma LeafBoundaries(text: string, b: BlockSpan, k: nat, off: nat)
    requires RunsFit(text, b) && TruthfulSpan(text, b.source) && Holds(b.runs, b.renderedLen, k, off)
    ensures var r := AtRun(text, b.runs, k, b.source.start, off);
            r.Some? ==> IsBoundary(text, r.value.Start()) && IsBoundary(text, r.value.End())
  {
    GetLength(text, b.source);
    if k < |b.runs| {
      var run := b.runs[k];
      assert TruthfulRun(text, run);
      GetLength(text, run.source);
      if off > run.rendered.start && run.interpolable { InsideIsBoundary(text, run.source, off - run.rendered.start); }
    }
    if k > 0 {
      assert TruthfulRun(text, b.runs[k - 1]);
      GetLength(text, b.runs[k - 1].source);
    }
  }

  lemma LeafAvoids(text: string, b: BlockSpan, k: nat, off: nat)
    requires RunsFit(text, b) && TruthfulSpan(text, b.source) && Holds(b.runs, b.renderedLen, k, off)
    ensures var r := AtRun(text, b.runs, k, b.source.start, off);
            r.Some? && AvoidsAtoms(b, r.value.Start()) && AvoidsAtoms(b, r.value.End())
  {
    AtRunBounds(text, b, k, off);
    var r := AtRun(text, b.runs, k, b.source.start, off).value;
    forall j | 0 <= j < |b.runs| && !b.runs[j].interpolable
      ensures !StrictlyInside(r.Start(), b.runs[j].source) && !StrictlyInside(r.End(), b.runs[j].source)
    {
      RunsAround(b.runs, j, k);
    }
  }

  /** Where run `j` lies relative to run `k` and to the end of the run before it. */
  lemma RunsAround(runs: seq<InlineRun>, j: nat, k: nat)
    requires Ascending(runs) && j < |runs| && k <= |runs|
    ensures j < k ==> runs[j].source.end <= runs[k - 1].source.end && (k < |runs| ==> runs[k - 1].source.end <= runs[k].source.start)
    ensures k < j ==> runs[k].source.end <= runs[j].source.start
    ensures 0 < k <= j ==> runs[k - 1].source.end <= runs[j].source.start
  {
    if j < k - 1 { RunsApart(runs, j, k - 1); }
    if k < j { RunsApart(runs, k, j); }
    if 0 < k <= j { RunsApart(runs, k - 1, j); }
  }

  // ----- any block

  /** What coherence gives for a leaf, and how resolution starts there. */
  lemma CoherentLeaf(text: string, blocks: seq<BlockSpan>, i: nat, off: nat)
    requires Coherent(text, blocks, {}) && ChildrenDeeper(blocks) && i < |blocks|
    requires blocks[i].children == [] && off <= blocks[i].renderedLen
    ensures RunsFit(text, blocks[i]) && TruthfulSpan(text, blocks[i].source)
    ensures blocks[i].source.start <= blocks[i].source.end
    ensures var r := ResolveRuns(text, blocks[i].runs, 0, blocks[i].source.start, off);
            ResolveAt(text, blocks, i, off) == r
            && ResolveLeafAt(text, blocks, i, off) == if r.Some? then Some((i, r.value)) else None
  {
  }

  /** Both resolvers agree, end in a leaf under the block, and land in that leaf's span. */
  ghost predicate ResolvesIn(text: string, blocks: seq<BlockSpan>, i: nat, off: nat, leaf: nat)
    requires ChildrenDeeper(blocks) && i < |blocks|
  {
    var r := ResolveAt(text, blocks, i, off);
    && leaf < |blocks| && blocks[leaf].children == [] && blocks[i].path <= blocks[leaf].path
    && r.Some? && ResolveLeafAt(text, blocks, i, off) == Some((leaf, r.value))
    && LiesIn(text, blocks[leaf], r.value.Start()) && LiesIn(text, blocks[leaf], r.value.End())
    && AvoidsAtoms(blocks[leaf], r.value.Start()) && AvoidsAtoms(blocks[leaf], r.value.End())
  }

  lemma {:induction false} Resolves(text: string, blocks: seq<BlockSpan>, i: nat, off: nat) returns (leaf: nat)
    requires Coherent(text, blocks, {}) && ChildrenDeeper(blocks) && i < |blocks| && off <= blocks[i].renderedLen
    ensures ResolvesIn(text, blocks, i, off, leaf)
    decreases Depth(blocks) - |blocks[i].path|
  {
    hide Coherent, ResolveAt, ResolveLeafAt, ResolveRuns, RunsFit, TruthfulSpan, LiesIn, AvoidsAtoms;
    if blocks[i].children == [] {
      CoherentLeaf(text, blocks, i, off);
      LeafLands(text, blocks[i], off);
      leaf := i;
    } else {
      var k := ContainerResolves(text, blocks, {}, i, off);
      var child := blocks[i].children[k];
      leaf := Resolves(text, blocks, child, off - KidStart(blocks, blocks[i].children, k));
      assert blocks[i].path <= blocks[child].path;
    }
  }

  /** `resolve_offset` on a registered block succeeds exactly on the offsets of its rendered
      text. */
  lemma ResolvesExactly(text: string, blocks: seq<BlockSpan>, i: nat, off: nat)
    requires Coherent(text, blocks, {}) && ChildrenDeeper(blocks) && i < |blocks|
    ensures ResolveAt(text, blocks, i, off).Some? <==> off <= blocks[i].renderedLen
  {
    if off <= blocks[i].renderedLen {
      var leaf := Resolves(text, blocks, i, off);
    }
  }

  /** A resolution lies in the block's own span and inside no atomic run of the whole map. */
  lemma ResolvesInSpan(text: string, blocks: seq<BlockSpan>, i: nat, off: nat, j: nat)
    requires Coherent(text, blocks, {}) && ChildrenDeeper(blocks) && i < |blocks| && j < |blocks|
    requires off <= blocks[i].renderedLen
    ensures var r := ResolveAt(text, blocks, i, off);
            r.Some? && LiesIn(text, blocks[i], r.value.Start()) && LiesIn(text, blocks[i], r.value.End())
            && AvoidsAtoms(blocks[j], r.value.Start()) && AvoidsAtoms(blocks[j], r.value.End())
  {
    hide Get, ByteOff;
    var leaf := Resolves(text, blocks, i, off);
    LocalImpliesPlaced(blocks);
    assert Placed(blocks[i], blocks[leaf]) && Placed(blocks[leaf], blocks[j]) && Placed(blocks[j], blocks[leaf]);
    if blocks[j].children == [] && j != leaf {
      LeafHasNoDescendant(blocks, leaf, j);
      LeafHasNoDescendant(blocks, j, leaf);
      Trichotomy(blocks[leaf].path, blocks[j].path);
      assert RunsFit(text, blocks[j]);
      forall k | 0 <= k < |blocks[j].runs| ensures Contains(blocks[j].source, blocks[j].runs[k].source) {
      }
    }
  }

  // ----- order

  /** Within one block, leaf or container, a later offset never resolves earlier, and a forward
      selection is never inverted. */
  lemma {:induction false} ResolveMonotone(text: string, blocks: seq<BlockSpan>, i: nat, off: nat, off': nat)
    requires Coherent(text, blocks, {}) && ChildrenDeeper(blocks) && i < |blocks|
    requires off < off' <= blocks[i].renderedLen
    ensures var r, r' := ResolveAt(text, blocks, i, off), ResolveAt(text, blocks, i, off');
            r.Some? && r'.Some? && r.value.Start() <= r'.value.Start() && r.value.End() <= r'.value.End()
            && r.value.Start() <= r'.value.End()
    decreases Depth(blocks) - |blocks[i].path|
  {
    hide Coherent, ResolveAt, ResolveLeafAt, ResolveRuns, RunsFit, TruthfulSpan;
    if blocks[i].children == [] {
      CoherentLeaf(text, blocks, i, off);
      CoherentLeaf(text, blocks, i, off');
      LeafMonotone(text, blocks[i], off, off');
    } else {
      var kids := blocks[i].children;
      var k := ContainerResolves(text, blocks, {}, i, off);
      var k' := ContainerResolves(text, blocks, {}, i, off');
      if k < k' {
        SiblingsResolveInOrder(text, blocks, i, k, off - KidStart(blocks, kids, k), k', off' - KidStart(blocks, kids, k'));
      } else if k == k' {
        ResolveMonotone(text, blocks, kids[k], off - KidStart(blocks, kids, k), off' - KidStart(blocks, kids, k));
      } else {
        KidStarts(blocks, kids, k', k);
      }
    }
  }

  lemma SiblingsResolveInOrder(text: string, blocks: seq<BlockSpan>, i: nat, k: nat, off: nat, k': nat, off': nat)
    requires Coherent(text, blocks, {}) && ChildrenDeeper(blocks) && i < |blocks| && k < k' < |blocks[i].children|
    requires InRange(blocks, blocks[i].children)
    requires off <= blocks[blocks[i].children[k]].renderedLen && off' <= blocks[blocks[i].children[k']].renderedLen
    ensures var r := ResolveAt(text, blocks, blocks[i].children[k], off);
            var r' := ResolveAt(text, blocks, blocks[i].children[k'], off');
            r.Some? && r'.Some? && r.value.Start() <= r'.value.Start() && r.value.End() <= r'.value.End()
            && r.value.Start() <= r'.value.End()
  {
    var kids := blocks[i].children;
    assert ChildrenListed(blocks, i) && kids[k] in kids && kids[k'] in kids;
    assert IsChild(blocks, i, kids[k]) && IsChild(blocks, i, kids[k']);
    assert LocallyPlaced(blocks[kids[k]], blocks[kids[k']]);
    ResolvesInSpan(text, blocks, kids[k], off, i);
    ResolvesInSpan(text, blocks, kids[k'], off', i);
  }

  /** The same across blocks: both ends of what comes earlier in the document lie earlier. */
  lemma EarlierResolvesEarlier(text: string, blocks: seq<BlockSpan>, i: nat, off: nat, j: nat, off': nat)
    requires Coherent(text, blocks, {}) && ChildrenDeeper(blocks) && i < |blocks| && j < |blocks|
    requires off <= blocks[i].renderedLen && off' <= blocks[j].renderedLen
    requires Before(blocks[i].path, blocks[j].path)
    ensures var r, r' := ResolveAt(text, blocks, i, off), ResolveAt(text, blocks, j, off');
            r.Some? && r'.Some? && r.value.Start() <= r'.value.Start() && r.value.End() <= r'.value.End()
            && r.value.Start() <= r'.value.End()
  {
    LocalImpliesPlaced(blocks);
    assert Placed(blocks[i], blocks[j]);
    ResolvesInSpan(text, blocks, i, off, j);
    ResolvesInSpan(text, blocks, j, off', i);
  }

  // ----- selections

  /** A selection as rendered offsets in two blocks, given by index. */
  datatype Selection = Selection(first: nat, from: nat, last: nat, to: nat)

  /** `resolve_range`: the range between the two resolutions, unless it is inverted. */
  function ResolveRange(text: string, blocks: seq<BlockSpan>, sel: Selection): Option<Range>
    requires ChildrenDeeper(blocks) && sel.first < |blocks| && sel.last < |blocks|
  {
    var start, end := ResolveAt(text, blocks, sel.first, sel.from), ResolveAt(text, blocks, sel.last, sel.to);
    if start.Some? && end.Some? && start.value.Start() <= end.value.End()
    then Some(Range(start.value.Start(), end.value.End()))
    else None
  }

  ghost predicate InText(blocks: seq<BlockSpan>, sel: Selection) {
    && sel.first < |blocks| && sel.last < |blocks|
    && sel.from <= blocks[sel.first].renderedLen && sel.to <= blocks[sel.last].renderedLen
  }

  /** A selection that runs forward is never rejected; what it selects is text, and lies between
      the start of its first block and the end of its last. */
  lemma ForwardSelection(text: string, blocks: seq<BlockSpan>, sel: Selection)
    requires Coherent(text, blocks, {}) && ChildrenDeeper(blocks) && InText(blocks, sel)
    requires (sel.first == sel.last && sel.from < sel.to) || Before(blocks[sel.first].path, blocks[sel.last].path)
    ensures var r := ResolveRange(text, blocks, sel);
            r.Some? && blocks[sel.first].source.start <= r.value.start <= r.value.end <= blocks[sel.last].source.end
            && Get(text, r.value).Some?
  {
    ResolvesInSpan(text, blocks, sel.first, sel.from, sel.first);
    ResolvesInSpan(text, blocks, sel.last, sel.to, sel.last);
    if sel.first == sel.last {
      ResolveMonotone(text, blocks, sel.first, sel.from, sel.to);
    } else {
      EarlierResolvesEarlier(text, blocks, sel.first, sel.from, sel.last, sel.to);
    }
    GetExists(text, ResolveRange(text, blocks, sel).value);
  }

  // ----- collapsed selections

  /** Offset `off` of block `i` is offset `at` of the leaf `leaf`: down the children, each of which
      takes its own text and, but for the last, the newline after it. */
  ghost predicate FallsIn(blocks: seq<BlockSpan>, i: nat, off: nat, leaf: nat, at: nat)
    requires ChildrenDeeper(blocks) && i < |blocks|
    decreases Depth(blocks) - |blocks[i].path|
  {
    var kids := blocks[i].children;
    if kids == [] then leaf == i && at == off
    else exists k: nat :: InKid(blocks, kids, k, off) && FallsIn(blocks, kids[k], off - KidStart(blocks, kids, k), leaf, at)
  }

  /** Between the runs that meet at rendered offset `at` there is source that neither covers. */
  ghost predicate GapAt(b: BlockSpan, at: nat) {
    exists k :: 0 < k < |b.runs| && b.runs[k].rendered.start == at && b.runs[k - 1].source.end < b.runs[k].source.start
  }

  ghost predicate InGap(blocks: seq<BlockSpan>, i: nat, off: nat)
    requires ChildrenDeeper(blocks) && i < |blocks|
  {
    exists leaf: nat, at: nat :: leaf < |blocks| && FallsIn(blocks, i, off, leaf, at) && GapAt(blocks[leaf], at)
  }

  lemma OneKid(blocks: seq<BlockSpan>, kids: seq<nat>, a: nat, b: nat, off: nat)
    requires InRange(blocks, kids) && InKid(blocks, kids, a, off) && InKid(blocks, kids, b, off)
    ensures a == b
  {
    if a < b { KidStarts(blocks, kids, a, b); }
    if b < a { KidStarts(blocks, kids, b, a); }
  }

  lemma KidBelow(blocks: seq<BlockSpan>, i: nat, off: nat, leaf: nat, at: nat) returns (k: nat)
    requires ChildrenDeeper(blocks) && i < |blocks| && FallsIn(blocks, i, off, leaf, at) && blocks[i].children != []
    ensures InKid(blocks, blocks[i].children, k, off)
    ensures FallsIn(blocks, blocks[i].children[k], off - KidStart(blocks, blocks[i].children, k), leaf, at)
  {
    hide KidStart;
    k :| InKid(blocks, blocks[i].children, k, off)
         && FallsIn(blocks, blocks[i].children[k], off - KidStart(blocks, blocks[i].children, k), leaf, at);
  }

  lemma LeafItself(blocks: seq<BlockSpan>, i: nat, off: nat, leaf: nat, at: nat)
    requires ChildrenDeeper(blocks) && i < |blocks| && FallsIn(blocks, i, off, leaf, at) && blocks[i].children == []
    ensures leaf == i && at == off
  {
  }

  /** An offset falls in one leaf, and at one place of it. */
  lemma {:induction false} FallsInOne(blocks: seq<BlockSpan>, i: nat, off: nat, leaf: nat, at: nat, leaf': nat, at': nat)
    requires ChildrenDeeper(blocks) && i < |blocks| && FallsIn(blocks, i, off, leaf, at) && FallsIn(blocks, i, off, leaf', at')
    ensures leaf == leaf' && at == at'
    decreases Depth(blocks) - |blocks[i].path|
  {
    hide FallsIn, KidStart;
    var kids := blocks[i].children;
    if kids == [] {
      LeafItself(blocks, i, off, leaf, at);
      LeafItself(blocks, i, off, leaf', at');
    } else {
      var k := KidBelow(blocks, i, off, leaf, at);
      var k' := KidBelow(blocks, i, off, leaf', at');
      OneKid(blocks, kids, k, k', off);
      FallsInOne(blocks, kids[k], off - KidStart(blocks, kids, k), leaf, at, leaf', at');
    }
  }

  lemma KidGap(blocks: seq<BlockSpan>, i: nat, off: nat, k: nat)
    requires ChildrenDeeper(blocks) && i < |blocks| && blocks[i].children != [] && InKid(blocks, blocks[i].children, k, off)
    ensures var kids := blocks[i].children; InGap(blocks, i, off) <==> InGap(blocks, kids[k], off - KidStart(blocks, kids, k))
  {
    hide GapAt, KidStart;
    var kids := blocks[i].children;
    if InGap(blocks, i, off) {
      var leaf: nat, at: nat :| leaf < |blocks| && FallsIn(blocks, i, off, leaf, at) && GapAt(blocks[leaf], at);
      var k' := KidBelow(blocks, i, off, leaf, at);
      OneKid(blocks, kids, k, k', off);
    }
    if InGap(blocks, kids[k], off - KidStart(blocks, kids, k)) {
      var leaf: nat, at: nat :| leaf < |blocks| && FallsIn(blocks, kids[k], off - KidStart(blocks, kids, k), leaf, at) && GapAt(blocks[leaf], at);
      assert FallsIn(blocks, i, off, leaf, at);
    }
  }

  /** In a leaf, a resolution is inverted exactly in a gap. */
  lemma LeafInverted(text: string, b: BlockSpan, off: nat)
    requires RunsFit(text, b) && b.source.start <= b.source.end && off <= b.renderedLen
    ensures var r := ResolveRuns(text, b.runs, 0, b.source.start, off);
            r.Some? && (r.value.End() < r.value.Start() <==> GapAt(b, off))
  {
    var k := LeafResolves(text, b, off);
    AtRunBounds(text, b, k, off);
    OneStart(b.runs, b.renderedLen, k, off);
    hide Get, Tiled, Ascending, TruthfulRun, Holds, ResolveRuns;
    assert k < |b.runs| ==> b.runs[k].rendered.start <= off by { StartsBefore(b.runs, b.renderedLen, k, off); }
  }

  lemma StartsBefore(runs: seq<InlineRun>, len: nat, k: nat, off: nat)
    requires Holds(runs, len, k, off)
    ensures k < |runs| ==> runs[k].rendered.start <= off
  {
  }

  /** Of tiled runs only the one that holds an offset can start there. */
  lemma OneStart(runs: seq<InlineRun>, len: nat, k: nat, off: nat)
    requires Tiled(runs, len) && Holds(runs, len, k, off)
    ensures forall j :: 0 < j < |runs| && runs[j].rendered.start == off ==> j == k
  {
    forall j | 0 < j < |runs| && runs[j].rendered.start == off ensures j == k {
      if j < k && k < |runs| { TilesApart(runs, len, j, k); }
      if k < j { TilesApart(runs, len, k, j); }
      if k == |runs| && j < k - 1 { TilesApart(runs, len, j, k - 1); }
    }
  }

  lemma {:induction false} Inverted(text: string, blocks: seq<BlockSpan>, i: nat, off: nat)
    requires Coherent(text, blocks, {}) && ChildrenDeeper(blocks) && i < |blocks| && off <= blocks[i].renderedLen
    ensures var r := ResolveAt(text, blocks, i, off);
            r.Some? && (r.value.End() < r.value.Start() <==> InGap(blocks, i, off))
    decreases Depth(blocks) - |blocks[i].path|
  {
    hide Coherent, ResolveAt, ResolveLeafAt, ResolveRuns, GapAt;
    if blocks[i].children == [] {
      CoherentLeaf(text, blocks, i, off);
      LeafInverted(text, blocks[i], off);
      assert FallsIn(blocks, i, off, i, off);
    } else {
      var k := ContainerResolves(text, blocks, {}, i, off);
      var kids := blocks[i].children;
      Inverted(text, blocks, kids[k], off - KidStart(blocks, kids, k));
      KidGap(blocks, i, off, k);
    }
  }

  /** A collapsed selection is rejected if and only if it stands where two runs of a leaf meet with
      source between them that belongs to neither. */
  lemma CollapsedSelection(text: string, blocks: seq<BlockSpan>, i: nat, off: nat)
    requires Coherent(text, blocks, {}) && ChildrenDeeper(blocks) && i < |blocks| && off <= blocks[i].renderedLen
    ensures ResolveRange(text, blocks, Selection(i, off, i, off)).None? <==> InGap(blocks, i, off)
  {
    hide ResolveAt, InGap;
    Inverted(text, blocks, i, off);
  }

  /** The paragraph `a**b**`: the two letters' runs, with the opening asterisks between them. */
  function BoldAfter(): seq<BlockSpan> {
    [BlockSpan([0], Range(0, 6),
               [InlineRun(Range(0, 1), Range(0, 1), true), InlineRun(Range(1, 2), Range(3, 4), true)], 2, [])]
  }

  lemma BoldAfterTree()
    ensures TreeShape(BoldAfter()) && AllLocallyPlaced(BoldAfter()) && ContainersJoined(BoldAfter()) && ChildrenDeeper(BoldAfter())
  {
    forall c: nat ensures !IsChild(BoldAfter(), 0, c) {
    }
  }

  lemma BoldAfterRuns(text: string)
    requires Get(text, Range(0, 6)).Some? && Get(text, Range(0, 1)).Some? && Get(text, Range(3, 4)).Some?
    requires |Get(text, Range(0, 1)).value| == 1 && |Get(text, Range(3, 4)).value| == 1
    ensures RunsFit(text, BoldAfter()[0]) && RunsNear(BoldAfter()[0]) && TruthfulSpan(text, BoldAfter()[0].source)
  {
    hide Get;
  }

  lemma BoldAfterCoherent()
    ensures Coherent("a**b**", BoldAfter(), {}) && ChildrenDeeper(BoldAfter())
  {
    AsciiGet("a**b**", Range(0, 6));
    AsciiGet("a**b**", Range(0, 1));
    AsciiGet("a**b**", Range(3, 4));
    BoldAfterTree();
    BoldAfterRuns("a**b**");
    hide Get, TreeShape, AllLocallyPlaced, ContainersJoined, ChildrenDeeper, RunsFit, RunsNear, TruthfulSpan;
  }

  /** A caret between them cannot be resolved. */
  lemma CaretBeforeBoldRejected()
    ensures Coherent("a**b**", BoldAfter(), {}) && ChildrenDeeper(BoldAfter()) && BoldAfter()[0].renderedLen == 2
    ensures ResolveRange("a**b**", BoldAfter(), Selection(0, 1, 0, 1)) == None
  {
    BoldAfterCoherent();
    CollapsedSelection("a**b**", BoldAfter(), 0, 1);
    assert FallsIn(BoldAfter(), 0, 1, 0, 1);
    assert GapAt(BoldAfter()[0], 1) by { assert BoldAfter()[0].runs[1].rendered.start == 1; }
    hide Coherent, ResolveAt;
  }
}
