/** `SpanMap`: the working map, edited in place and resolved against. */
module SpanMaps {
  import opened Text
  import opened Paths
  import opened Spans
  import opened BufferedEdit
  import opened Resolve
  import opened ResolveTheorems
  import Utf16

  class SpanMap {
    var blocks: seq<BlockSpan>
    var byPath: map<BlockPath, nat>
    var frontmatter: Option<Range>

    ghost predicate Valid()
      reads this
    {
      && ChildrenDeeper(blocks)
      && (forall p :: p in byPath ==> byPath[p] < |blocks| && blocks[byPath[p]].path == p)
      && (forall i :: 0 <= i < |blocks| ==> blocks[i].path in byPath && byPath[blocks[i].path] == i)
    }

    constructor (blocks: seq<BlockSpan>, byPath: map<BlockPath, nat>, frontmatter: Option<Range>)
      requires ChildrenDeeper(blocks)
      requires forall p :: p in byPath ==> byPath[p] < |blocks| && blocks[byPath[p]].path == p
      requires forall i :: 0 <= i < |blocks| ==> blocks[i].path in byPath && byPath[blocks[i].path] == i
      ensures Valid() && this.blocks == blocks && this.byPath == byPath && this.frontmatter == frontmatter
    {
      this.blocks := blocks;
      this.byPath := byPath;
      this.frontmatter := frontmatter;
    }

    /** `block`: the span registered for a path, if any is. */
    method Block(path: BlockPath) returns (r: Option<BlockSpan>)
      requires Valid()
      ensures r.Some? <==> Registered(blocks, path)
      ensures r.Some? ==> r.value in blocks && r.value.path == path
    {
      if path in byPath {
        return Some(blocks[byPath[path]]);
      }
      return None;
    }

    /** `block_source`: the raw text a block was parsed from. */
    method BlockSource(source: string, path: BlockPath) returns (r: Option<string>)
      requires Valid()
      ensures path in byPath ==> r == Get(source, blocks[byPath[path]].source)
      ensures path !in byPath ==> r == None
    {
      if path !in byPath { return None; }
      return Get(source, blocks[byPath[path]].source);
    }

    /** `apply_buffered_edit`: resizes the leaf and its ancestors and shifts what follows, or
        refuses a path that addresses no leaf and changes nothing. */
    method ApplyBufferedEdit(path: BlockPath, newLen: nat) returns (r: Option<Range>)
      requires Valid() && newLen <= ISIZE_MAX
      requires path in byPath ==> blocks[byPath[path]].source.start <= blocks[byPath[path]].source.end
      modifies this`blocks
      ensures Valid()
      ensures path in byPath && old(blocks)[byPath[path]].children == [] ==>
                r == Some(old(blocks)[byPath[path]].source) && blocks == Edited(old(blocks), byPath[path], newLen)
      ensures path !in byPath || old(blocks)[byPath[path]].children != [] ==>
                r == None && blocks == old(blocks)
    {
      if path !in byPath { return None; }
      var index := byPath[path];
      if blocks[index].children != [] { return None; }
      var was := blocks[index].source;
      var delta := newLen - (was.end - was.start);
      if delta == 0 { return Some(was); }

      ghost var before := blocks;
      hide ChildrenDeeper;
      for position := 0 to |blocks|
        invariant |blocks| == |before| && before == old(blocks)
        invariant forall i :: 0 <= i < position ==> blocks[i] == EditedBlock(before[i], i == index, path, was, delta)
        invariant forall i :: position <= i < |blocks| ==> blocks[i] == before[i]
      {
        var block := blocks[position];
        if position == index {
          block := block.(source := Range(block.source.start, SaturatingAdd(block.source.end, delta)));
        } else if block.source.start >= was.end {
          block := block.(source := ShiftRange(block.source, delta));
          var runs := ShiftEach(block.runs, delta);
          block := block.(runs := runs);
        } else if block.path <= path {
          block := block.(source := Range(block.source.start, SaturatingAdd(block.source.end, delta)));
        }
        blocks := blocks[position := block];
      }
      assert blocks == Edited(before, index, newLen);
      hide SaturatingAdd, ShiftRuns, Edited;
      assert forall i :: 0 <= i < |blocks| ==> blocks[i].path == before[i].path && blocks[i].children == before[i].children;
      hide EditedBlock;
      SameDepths(before, blocks);
      return Some(was);
    }

    /** `resolve_offset`. */
    method ResolveOffset(source: string, path: BlockPath, offset: nat) returns (r: Option<Resolution>)
      requires Valid()
      ensures path in byPath ==> r == Resolve.ResolveAt(source, blocks, byPath[path], offset)
      ensures path !in byPath ==> r == None
    {
      if path !in byPath { return None; }
      r := ResolveAt(source, byPath[path], offset);
    }

    method ResolveAt(source: string, index: nat, offset: nat) returns (r: Option<Resolution>)
      requires Valid() && index < |blocks|
      ensures r == Resolve.ResolveAt(source, blocks, index, offset)
      decreases Depth(blocks) - |blocks[index].path|
    {
      var block := blocks[index];
      if offset > block.renderedLen { return None; }

      if block.children != [] {
        var consumed: nat := 0;
        for k := 0 to |block.children|
          invariant consumed <= offset
          invariant ResolveKids(source, blocks, index, 0, 0, offset) == ResolveKids(source, blocks, index, k, consumed, offset)
        {
          var child := block.children[k];
          var childLen := blocks[child].renderedLen;
          if offset <= consumed + childLen {
            r := ResolveAt(source, child, offset - consumed);
            return;
          }
          consumed := consumed + childLen + 1;
        }
        return None;
      }

      var previousEnd: Option<nat> := None;
      for k := 0 to |block.runs|
        invariant previousEnd == if k == 0 then None else Some(block.runs[k - 1].source.end)
        invariant ResolveRuns(source, block.runs, 0, block.source.start, offset)
                  == ResolveRuns(source, block.runs, k, block.source.start, offset)
      {
        var run := block.runs[k];
        if offset == run.rendered.start {
          return Some(Boundary(if previousEnd.Some? then previousEnd.value else run.source.start, run.source.start));
        }
        if offset < run.rendered.end {
          if !run.interpolable { return Some(Atomic(run.source)); }
          var text := Get(source, run.source);
          if text.None? || offset < run.rendered.start || offset - run.rendered.start >= |text.value| { return None; }
          return Some(Exact(run.source.start + ByteOff(text.value, offset - run.rendered.start)));
        }
        previousEnd := Some(run.source.end);
      }
      var end := if block.runs == [] then block.source.start else block.runs[|block.runs| - 1].source.end;
      return Some(Boundary(end, end));
    }

    method ResolveLeafAt(source: string, index: nat, offset: nat) returns (r: Option<(nat, Resolution)>)
      requires Valid() && index < |blocks|
      ensures r == Resolve.ResolveLeafAt(source, blocks, index, offset)
      decreases Depth(blocks) - |blocks[index].path|
    {
      var block := blocks[index];
      if offset > block.renderedLen { return None; }
      if block.children == [] {
        var resolution := ResolveAt(source, index, offset);
        return if resolution.Some? then Some((index, resolution.value)) else None;
      }
      var consumed: nat := 0;
      for k := 0 to |block.children|
        invariant consumed <= offset
        invariant ResolveLeafKids(source, blocks, index, 0, 0, offset)
                  == ResolveLeafKids(source, blocks, index, k, consumed, offset)
      {
        var child := block.children[k];
        var childLen := blocks[child].renderedLen;
        if offset <= consumed + childLen {
          r := ResolveLeafAt(source, child, offset - consumed);
          return;
        }
        consumed := consumed + childLen + 1;
      }
      return None;
    }

    /** `resolve_range`. */
    method ResolveRange(source: string, startPath: BlockPath, startOffset: nat, endPath: BlockPath, endOffset: nat)
      returns (r: Option<Range>)
      requires Valid()
      ensures startPath in byPath && endPath in byPath ==>
                r == ResolveTheorems.ResolveRange(source, blocks, Selection(byPath[startPath], startOffset, byPath[endPath], endOffset))
      ensures startPath !in byPath || endPath !in byPath ==> r == None
    {
      var start := ResolveOffset(source, startPath, startOffset);
      if start.None? { return None; }
      var end := ResolveOffset(source, endPath, endOffset);
      if end.None? { return None; }
      if start.value.Start() > end.value.End() { return None; }
      return Some(Range(start.value.Start(), end.value.End()));
    }

    /** `resolve_utf16_caret`: over a coherent map it answers exactly for a top-level block whose
        rendered text has the length the map knows and a caret between scalars; the leaf it
        picks resolves as `resolve_offset` does, and the caret it returns converts back to the
        very byte the leaf resolved to. */
    method ResolveUtf16Caret(source: string, topLevel: BlockPath, rendered: string, caret: nat)
      returns (r: Option<(BlockPath, nat)>)
      requires Valid() && Coherent(source, blocks, {})
      ensures r.Some? <==>
                |topLevel| == 1 && topLevel in byPath && |rendered| == blocks[byPath[topLevel]].renderedLen
                && Utf16.ScalarBoundary(rendered, caret)
      ensures r.Some? ==>
                r.value.0 in byPath && topLevel <= r.value.0 && blocks[byPath[r.value.0]].children == []
      ensures r.Some? ==> CaretAnswers(source, blocks, byPath[topLevel], rendered, caret, byPath[r.value.0], r.value.1)
    {
      hide Coherent, CaretAnswers, ChildrenDeeper, Resolve.ResolveLeafAt, Get, Utf16.Units, Utf16.ScalarBoundary, ByteOff;
      if |topLevel| != 1 { return None; }
      if topLevel !in byPath { return None; }
      var index := byPath[topLevel];
      if |rendered| != blocks[index].renderedLen { return None; }
      var offset := Utf16.ScalarOffset(rendered, caret);
      if offset.None? { return None; }
      var found := ResolveLeafAt(source, index, offset.value);
      ghost var k := CaretFound(source, blocks, index, rendered, caret, offset.value);
      var leafIndex, resolution := found.value.0, found.value.1;
      var leafSource := Get(source, blocks[leafIndex].source);
      var prefix := Get(leafSource.value, Range(0, resolution.Start() - blocks[leafIndex].source.start));
      return Some((blocks[leafIndex].path, Utf16.Units(prefix.value, |prefix.value|)));
    }
  }

  /** The leaf's caret names the scalar at which the block's offset resolves, and the block's
      own resolution starts at the same byte. */
  ghost predicate CaretMeans(source: string, blocks: seq<BlockSpan>, i: nat, off: nat, leaf: nat, caret: nat) {
    && ChildrenDeeper(blocks) && i < |blocks| && leaf < |blocks|
    && Resolve.ResolveAt(source, blocks, i, off).Some?
    && Get(source, blocks[leaf].source).Some?
    && var text := Get(source, blocks[leaf].source).value;
       exists k :: 0 <= k <= |text| && Utf16.Units(text, k) == caret &&
         blocks[leaf].source.start + ByteOff(text, k) == Resolve.ResolveAt(source, blocks, i, off).value.Start()
  }

  lemma SameDepths(a: seq<BlockSpan>, b: seq<BlockSpan>)
    requires ChildrenDeeper(a) && |a| == |b| && forall i :: 0 <= i < |a| ==> b[i].path == a[i].path && b[i].children == a[i].children
    ensures ChildrenDeeper(b)
  {
  }

  /** So for the scalar that the caret stands before. */
  ghost predicate CaretAnswers(source: string, blocks: seq<BlockSpan>, i: nat, rendered: string, units: nat, leaf: nat, caret: nat) {
    exists scalar ::
      0 <= scalar <= |rendered| && Utf16.Units(rendered, scalar) == units && CaretMeans(source, blocks, i, scalar, leaf, caret)
  }

  /** The leaf an offset falls in, and the part of its text before the byte it resolves to. */
  lemma CaretFound(source: string, blocks: seq<BlockSpan>, i: nat, rendered: string, units: nat, off: nat) returns (k: nat)
    requires Coherent(source, blocks, {}) && ChildrenDeeper(blocks) && i < |blocks| && off <= blocks[i].renderedLen
    requires off <= |rendered| && Utf16.Units(rendered, off) == units
    ensures var found := Resolve.ResolveLeafAt(source, blocks, i, off);
            found.Some? && found.value.0 < |blocks| && blocks[i].path <= blocks[found.value.0].path
            && blocks[found.value.0].children == [] && Get(source, blocks[found.value.0].source).Some?
            && var text := Get(source, blocks[found.value.0].source).value; var span := blocks[found.value.0].source;
               k <= |text| && span.start <= found.value.1.Start() && Get(text, Range(0, found.value.1.Start() - span.start)) == Some(text[..k])
               && CaretAnswers(source, blocks, i, rendered, units, found.value.0, Utf16.Units(text[..k], |text[..k]|))
  {
    hide Coherent, FindScalar, ByteOff, ResolveRuns, Get, Utf16.Units;
    var leaf := Resolves(source, blocks, i, off);
    var found := Resolve.ResolveLeafAt(source, blocks, i, off);
    SpanReads(source, blocks, leaf);
    k := CaretPrefix(source, blocks[leaf].source, found.value.1.Start());
    var text := Get(source, blocks[leaf].source).value;
    assert CaretMeans(source, blocks, i, off, leaf, Utf16.Units(text[..k], |text[..k]|));
  }

  lemma SpanReads(source: string, blocks: seq<BlockSpan>, i: nat)
    requires Coherent(source, blocks, {}) && i < |blocks|
    ensures Get(source, blocks[i].source).Some?
  {
    hide Get;
  }

  /** The part of a block's text before a byte inside it. */
  lemma CaretPrefix(source: string, span: Range, x: nat) returns (k: nat)
    requires Get(source, span).Some? && span.start <= x <= span.end && IsBoundary(source, x)
    ensures var text := Get(source, span).value;
            k <= |text| && span.start + ByteOff(text, k) == x
            && Get(text, Range(0, x - span.start)) == Some(text[..k])
            && Utf16.Units(text[..k], k) == Utf16.Units(text, k)
  {
    var lo, hi := FindScalar(source, span.start, |source|).value, FindScalar(source, span.end, |source|).value;
    var at :| 0 <= at <= |source| && ByteOff(source, at) == x;
    OffsetsOrder(source, at, lo);
    OffsetsOrder(source, hi, at);
    var text := source[lo..hi];
    SliceOffsets(source, lo, hi, at);
    k := at - lo;
    GetPrefix(text, k, x - span.start);
    Utf16.PrefixUnits(text, k, k);
  }

  lemma GetPrefix(text: string, k: nat, x: nat)
    requires k <= |text| && x == ByteOff(text, k)
    ensures Get(text, Range(0, x)) == Some(text[..k])
  {
    FindScalarAt(text, 0);
    FindScalarAt(text, k);
  }

  /** The inner loop over a later block's runs. */
  method ShiftEach(runs: seq<InlineRun>, delta: int) returns (r: seq<InlineRun>)
    ensures r == ShiftRuns(runs, delta)
  {
    r := runs;
    for k := 0 to |runs|
      invariant |r| == |runs|
      invariant forall i :: 0 <= i < k ==> r[i] == ShiftRun(runs[i], delta)
      invariant forall i :: k <= i < |runs| ==> r[i] == runs[i]
    {
      r := r[k := r[k].(source := Range(SaturatingAdd(r[k].source.start, delta), SaturatingAdd(r[k].source.end, delta)))];
    }
  }
}
