/** What a resolved offset means: which byte of the source stands for which rendered character, and
    that a selection's source is what was selected. */
module ResolveMeanings {
  import opened Text
  import opened Paths
  import opened Spans
  import opened Resolve
  import opened ResolveTheorems

  /** From one byte to another the source has `n` characters. */
  ghost predicate CharsBetween(text: string, from: nat, to: nat, n: nat) {
    Get(text, Range(from, to)).Some? && |Get(text, Range(from, to)).value| == n
  }

  /** Where offset `at` of a leaf must land, run `k` being the one it belongs to. Past the last run:
      where that ends. Where a run starts: forwards its start, backwards the end of the run before.
      Inside a run that is one whole: forwards its start, backwards its end. Inside any other: as
      many characters into its source as into its rendered text. */
  ghost predicate Lands(text: string, b: BlockSpan, k: nat, at: nat, r: Resolution)
    requires k <= |b.runs|
  {
    if k == |b.runs| then
      r.Start() == r.End() == if b.runs == [] then b.source.start else b.runs[k - 1].source.end
    else
      var run := b.runs[k];
      if at == run.rendered.start then
        r.Start() == run.source.start && r.End() == if k == 0 then run.source.start else b.runs[k - 1].source.end
      else if !run.interpolable then r.Start() == run.source.start && r.End() == run.source.end
      else
        r.Start() == r.End() && at > run.rendered.start && CharsBetween(text, run.source.start, r.Start(), at - run.rendered.start)
  }

  /** A piece of a piece of the text, in bytes. */
  lemma PieceOfPiece(text: string, r: Range, i: nat, j: nat)
    requires Get(text, r).Some? && i <= j <= |Get(text, r).value|
    ensures var t := Get(text, r).value;
            Get(text, Range(r.start + ByteOff(t, i), r.start + ByteOff(t, j))) == Some(t[i..j])
  {
    hide ByteOff;
    var lo, hi := FindScalar(text, r.start, |text|).value, FindScalar(text, r.end, |text|).value;
    var t := text[lo..hi];
    SliceOffsets(text, lo, hi, lo + i);
    SliceOffsets(text, lo, hi, lo + j);
    GetAt(text, lo + i, lo + j);
    SliceOfSlice(text, lo, hi, i, j);
  }

  lemma WholePiece(text: string, r: Range)
    requires Get(text, r).Some?
    ensures var t := Get(text, r).value; ByteOff(t, 0) == 0 && r.start + ByteOff(t, |t|) == r.end
  {
    GetLength(text, r);
  }

  lemma LeafLandsRight(text: string, b: BlockSpan, k: nat, at: nat)
    requires RunsFit(text, b) && Holds(b.runs, b.renderedLen, k, at)
    ensures var r := AtRun(text, b.runs, k, b.source.start, at); r.Some? && Lands(text, b, k, at, r.value)
  {
    hide Get, ByteOff;
    if k < |b.runs| {
      var run := b.runs[k];
      assert TruthfulRun(text, run);
      if run.interpolable && at > run.rendered.start {
        PieceOfPiece(text, run.source, 0, at - run.rendered.start);
        WholePiece(text, run.source);
      }
    }
  }

  lemma OneHolder(runs: seq<InlineRun>, len: nat, j: nat, k: nat, at: nat)
    requires Tiled(runs, len) && Holds(runs, len, j, at) && Holds(runs, len, k, at)
    ensures j == k
  {
    if j < k { LaterHeldLater(runs, len, j, k, at, at); }
    if k < j { LaterHeldLater(runs, len, k, j, at, at); }
  }

  /** Resolving goes down to the leaf an offset falls in. */
  lemma {:induction false} FallsResolves(text: string, blocks: seq<BlockSpan>, i: nat, off: nat, leaf: nat, at: nat)
    requires Coherent(text, blocks, {}) && ChildrenDeeper(blocks) && i < |blocks| && off <= blocks[i].renderedLen
    requires FallsIn(blocks, i, off, leaf, at)
    ensures leaf < |blocks| && blocks[leaf].children == [] && at <= blocks[leaf].renderedLen
    ensures ResolveAt(text, blocks, i, off) == ResolveAt(text, blocks, leaf, at)
    decreases Depth(blocks) - |blocks[i].path|
  {
    hide FallsIn, KidStart, Coherent, ResolveAt, ResolveLeafAt;
    if blocks[i].children == [] {
      LeafItself(blocks, i, off, leaf, at);
    } else {
      var kids := blocks[i].children;
      var k := ContainerResolves(text, blocks, {}, i, off);
      var k' := KidBelow(blocks, i, off, leaf, at);
      OneKid(blocks, kids, k, k', off);
      FallsResolves(text, blocks, kids[k], off - KidStart(blocks, kids, k), leaf, at);
    }
  }

  /** And every offset of a block's rendered text falls in a leaf. */
  lemma {:induction false} OffsetFalls(text: string, blocks: seq<BlockSpan>, i: nat, off: nat) returns (leaf: nat, at: nat, k: nat)
    requires Coherent(text, blocks, {}) && ChildrenDeeper(blocks) && i < |blocks| && off <= blocks[i].renderedLen
    ensures leaf < |blocks| && FallsIn(blocks, i, off, leaf, at) && Holds(blocks[leaf].runs, blocks[leaf].renderedLen, k, at)
    decreases Depth(blocks) - |blocks[i].path|
  {
    hide KidStart, Coherent, Holds;
    if blocks[i].children == [] {
      CoherentLeaf(text, blocks, i, off);
      leaf, at := i, off;
      k := LeafResolves(text, blocks[i], off);
    } else {
      var kids := blocks[i].children;
      var j := ContainerResolves(text, blocks, {}, i, off);
      leaf, at, k := OffsetFalls(text, blocks, kids[j], off - KidStart(blocks, kids, j));
    }
  }

  /** Over a coherent map every offset of every block, leaf or container, lands where it must. */
  lemma ResolvesWhereItMust(text: string, blocks: seq<BlockSpan>, i: nat, off: nat, leaf: nat, at: nat, k: nat)
    requires Coherent(text, blocks, {}) && ChildrenDeeper(blocks) && i < |blocks| && off <= blocks[i].renderedLen
    requires leaf < |blocks| && FallsIn(blocks, i, off, leaf, at) && Holds(blocks[leaf].runs, blocks[leaf].renderedLen, k, at)
    ensures var r := ResolveAt(text, blocks, i, off); r.Some? && Lands(text, blocks[leaf], k, at, r.value)
  {
    hide FallsIn, ResolveAt, ResolveLeafAt, Coherent, Holds, Lands, AtRun;
    FallsResolves(text, blocks, i, off, leaf, at);
    CoherentLeaf(text, blocks, leaf, at);
    var j := LeafResolves(text, blocks[leaf], at);
    OneHolder(blocks[leaf].runs, blocks[leaf].renderedLen, j, k, at) by { TilesOf(text, blocks[leaf]); }
    LeafLandsRight(text, blocks[leaf], k, at);
  }

  // ----- selections

  /** The byte a character of an interpolable run starts at, and the byte it ends at. */
  lemma RunEnds(text: string, b: BlockSpan, k: nat, at: nat)
    requires RunsFit(text, b) && k < |b.runs| && b.runs[k].interpolable
    requires b.runs[k].rendered.start <= at <= b.runs[k].rendered.end <= b.renderedLen
    ensures TruthfulRun(text, b.runs[k])
    ensures var run := b.runs[k]; var t := Get(text, run.source).value; var n := at - run.rendered.start;
            var r := ResolveRuns(text, b.runs, 0, b.source.start, at);
            n <= |t| && r.Some?
            && (at < run.rendered.end ==> r.value.Start() == run.source.start + ByteOff(t, n))
            && (at > run.rendered.start ==> r.value.End() == run.source.start + ByteOff(t, n))
  {
    hide Get, ByteOff;
    var run := b.runs[k];
    assert TruthfulRun(text, run);
    WholePiece(text, run.source);
    var j := LeafResolves(text, b, at);
    if at < run.rendered.end {
      OneHolder(b.runs, b.renderedLen, j, k, at);
    } else {
      NextHolds(b.runs, b.renderedLen, k);
      OneHolder(b.runs, b.renderedLen, j, k + 1, at);
    }
  }

  lemma NextHolds(runs: seq<InlineRun>, len: nat, k: nat)
    requires Tiled(runs, len) && k < |runs|
    ensures Holds(runs, len, k + 1, runs[k].rendered.end)
  {
  }

  lemma {:induction false} RunInside(runs: seq<InlineRun>, len: nat, k: nat)
    requires Tiled(runs, len) && k < |runs|
    ensures runs[k].rendered.end <= len
  {
    if k < |runs| - 1 { TilesApart(runs, len, k, |runs| - 1); }
  }

  /** A selection inside one interpolable run, made in whatever blocks around its leaf: the source
      selected is the run's source between the same characters. */
  lemma SelectedSource(text: string, blocks: seq<BlockSpan>, sel: Selection, leaf: nat, at: nat, at': nat, k: nat)
    requires Coherent(text, blocks, {}) && ChildrenDeeper(blocks) && InText(blocks, sel)
    requires leaf < |blocks| && FallsIn(blocks, sel.first, sel.from, leaf, at) && FallsIn(blocks, sel.last, sel.to, leaf, at')
    requires k < |blocks[leaf].runs| && blocks[leaf].runs[k].interpolable
    requires blocks[leaf].runs[k].rendered.start <= at < at' <= blocks[leaf].runs[k].rendered.end
    ensures var run := blocks[leaf].runs[k]; var whole := Get(text, run.source); var r := ResolveRange(text, blocks, sel);
            r.Some? && whole.Some? && at' - run.rendered.start <= |whole.value|
            && Get(text, r.value) == Some(whole.value[at - run.rendered.start..at' - run.rendered.start])
  {
    hide FallsIn, ResolveAt, ResolveLeafAt, ResolveRuns, Coherent, Get, ByteOff, Tiled, Ascending;
    FallsResolves(text, blocks, sel.first, sel.from, leaf, at);
    FallsResolves(text, blocks, sel.last, sel.to, leaf, at');
    CoherentLeaf(text, blocks, leaf, at);
    CoherentLeaf(text, blocks, leaf, at');
    var b := blocks[leaf];
    var run := b.runs[k];
    RunInside(b.runs, b.renderedLen, k);
    RunEnds(text, b, k, at);
    RunEnds(text, b, k, at');
    var t := Get(text, run.source).value;
    OffsetsOrder(t, at - run.rendered.start, at' - run.rendered.start);
    PieceOfPiece(text, run.source, at - run.rendered.start, at' - run.rendered.start);
  }
}
