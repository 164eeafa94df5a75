/** One event of a clean stream keeps the layout. */
module SpanOrderSteps {
  import opened Text
  import opened Paths
  import opened Ast
  import opened Inlines
  import opened Spans
  import opened Events
  import opened Nesting
  import opened CleanStreams
  import opened BuilderModel
  import opened RunCounts
  import opened BlockTree
  import opened BlockPaths
  import opened Resolve
  import opened SpanOrder
  import opened SpanOrderPush

  // ----- rendered text

  /** A run pushed after everything else. */
  lemma PushRunLayout(source: string, st: State, hi: nat, chars: nat, range: Range, interpolable: bool)
    requires Layout(source, st, [], hi) && st.links == [] && st.deferred == []
    requires TruthfulSpan(source, range) && range.end <= hi && Lo(st.frames) <= range.start
    requires Bounded(st.regs, range.start) && forall k :: 0 <= k < |st.runs.runs| ==> st.runs.runs[k].source.end <= range.start
    ensures Layout(source, st.(runs := st.runs.Push(chars, range, interpolable)), [], hi)
  {
    hide RegsGeo, Get;
  }

  /** Text inside a link changes only what the link renders. */
  lemma LinkTextLayout(source: string, st: State, marks: seq<Mark>, hi: nat, link: LinkFrame)
    requires Layout(source, st, marks, hi) && st.links != []
    requires link.source == Top(st.links).source && link.kind == Top(st.links).kind
    ensures Layout(source, st.(links := st.links[|st.links| - 1 := link]),
                   marks[|marks| - 1 := Top(marks).(text := true)], hi)
  {
    hide RegsGeo, Get;
    var top := |marks| - 1;
    var links', marks' := st.links[top := link], marks[top := Top(marks).(text := true)];
    forall i | 0 <= i < |links'|
      ensures LinkGeo(source, links'[i], marks'[i], st.regs, st.deferred, Lo(st.frames), hi)
    {
      assert LinkGeo(source, st.links[i], marks[i], st.regs, st.deferred, Lo(st.frames), hi);
    }
  }

  lemma EmitLayout(source: string, st: State, c: Care, hi: nat, chars: nat, range: Range, interpolable: bool, element: Inline)
    requires Layout(source, st, c.marks, hi)
    requires st.links == [] ==>
               st.deferred == [] && TruthfulSpan(source, range) && range.end <= hi && Lo(st.frames) <= range.start
               && Bounded(st.regs, range.start)
               && forall k :: 0 <= k < |st.runs.runs| ==> st.runs.runs[k].source.end <= range.start
    ensures Layout(source, PushInline(EmitRun(st, chars, range, interpolable), element), Render(c).marks, hi)
  {
    hide Layout, InLeaf;
    assert |st.links| == |c.marks| by { LinksAndMarks(source, st, c.marks, hi); }
    var st' := PushInline(EmitRun(st, chars, range, interpolable), element);
    if st.links == [] {
      PushRunLayout(source, st, hi, chars, range, interpolable);
      InlinesDoNotMatter(source, st.(runs := st.runs.Push(chars, range, interpolable)), st', [], hi);
    } else {
      LinkTextLayout(source, st, c.marks, hi, Top(st'.links));
      assert st'.links == st.links[|st.links| - 1 := Top(st'.links)];
    }
  }

  lemma LinksAndMarks(source: string, st: State, marks: seq<Mark>, hi: nat)
    requires Layout(source, st, marks, hi)
    ensures |st.links| == |marks|
  {
  }

  /** The layout does not look at the inline elements, the format or the flags. */
  lemma InlinesDoNotMatter(source: string, st: State, st': State, marks: seq<Mark>, hi: nat)
    requires Layout(source, st, marks, hi)
    requires st'.frames == st.frames && st'.regs == st.regs && st'.runs == st.runs && st'.links == st.links
    requires st'.code == st.code && st'.deferred == st.deferred
    ensures Layout(source, st', marks, hi)
  {
    hide RegsGeo, FramesGeo, RunsGeo, LeafGeo, CodeGeo, LinksGeo, DeferredGeo;
  }

  /** Where new text starts relative to what is registered and pending. */
  lemma AtTheCursor(source: string, st: State, marks: seq<Mark>, hi: nat, x: nat)
    requires Layout(source, st, marks, hi) && hi <= x
    ensures Bounded(st.regs, x) && Lo(st.frames) <= x
    ensures forall k :: 0 <= k < |st.runs.runs| ==> st.runs.runs[k].source.end <= x
    ensures forall k :: 0 <= k < |st.frames| ==> st.frames[k].source.start <= x
  {
    hide RegsGeo, Get, LinkGeo, DeferredReg;
  }

  lemma RenderedLayout(source: string, st: State, c: Care, text: string, code: bool, range: Range)
    requires Geo(source, st, c) && MayRender(c) && FitsAt(source, c.nest, range)
    ensures Layout(source, Rendered(source, st, text, code, range), Render(c).marks, range.end)
  {
    hide Layout, Counted, Sound, NestGeo, Get, InLeaf, UnderHeading, LinksMatch;
    assert TruthfulSpan(source, range);
    LinksAndMarks(source, st, c.marks, c.nest.cursor);
    AtTheCursor(source, st, c.marks, c.nest.cursor, range.start);
    LayoutGrows(source, st, c.marks, c.nest.cursor, range.end);
    EmitLayout(source, st, c, range.end, |text|, range, Get(source, range) == Some(text), StyledAs(st, text, code));
  }

  lemma CodeTextLayout(source: string, st: State, marks: seq<Mark>, hi: nat, text: string, range: Range)
    requires Layout(source, st, marks, hi) && st.code.Some? && hi <= range.start && TruthfulSpan(source, range)
    requires !st.inMetadata && text != ""
    ensures Layout(source, OnText(source, st, text, range), marks, range.end)
  {
    var accum := st.code.value;
    var accum' := accum.(code := accum.code + text, runs := accum.runs.Push(|text|, range, Get(source, range) == Some(text)));
    CodePushGeo(source, accum, accum', st.regs, Lo(st.frames), hi, |text|, range, Get(source, range) == Some(text));
    LayoutGrows(source, st, marks, hi, range.end);
    hide RegsGeo, FramesGeo, RunsGeo, LeafGeo, CodeGeo, LinksGeo, DeferredGeo;
    assert OnText(source, st, text, range) == st.(code := Some(accum'));
  }

  lemma CodePushGeo(source: string, accum: CodeAccum, accum': CodeAccum, regs: seq<Reg>, lo: nat, hi: nat,
                    chars: nat, range: Range, interpolable: bool)
    requires CodeGeo(source, Some(accum), regs, lo, hi) && hi <= range.start && TruthfulSpan(source, range)
    requires accum'.source == accum.source && accum'.runs == accum.runs.Push(chars, range, interpolable)
    ensures CodeGeo(source, Some(accum'), regs, lo, range.end)
  {
    hide Get;
  }

  lemma TextLayout(source: string, st: State, c: Care, text: string, range: Range)
    requires Geo(source, st, c) && Allows(source, c.nest, TextEvent(text, range)) && Avoids(c, TextEvent(text, range))
    ensures Layout(source, OnText(source, st, text, range), Watch(c, TextEvent(text, range)).marks, range.end)
  {
    hide Layout, Counted, Sound, NestGeo, Get, InLeaf, UnderHeading, LinksMatch;
    if InMetadata(c.nest.stack) {
      LayoutGrows(source, st, c.marks, c.nest.cursor, range.end);
    } else if InCode(c.nest.stack) {
      assert TruthfulSpan(source, range);
      CodeTextLayout(source, st, c.marks, c.nest.cursor, text, range);
    } else {
      RenderedLayout(source, st, c, text, false, range);
    }
  }

  // ----- links

  lemma OpenLinkLayout(source: string, st: State, c: Care, kind: LinkKind, range: Range)
    requires Geo(source, st, c) && FitsAt(source, c.nest, range)
    requires kind.ImageOf? ==> forall i :: 0 <= i < |c.marks| ==> !c.marks[i].image
    ensures Layout(source, OpenLink(st, kind, range), c.marks + [Mark(kind.ImageOf?, false, false)], range.start)
  {
    hide RegsGeo, Get, Counted, Sound, Consistent, NestGeo, Layout;
    LayoutGrows(source, st, c.marks, c.nest.cursor, range.start);
    assert TruthfulSpan(source, range);
    AddLinkLayout(source, st, c.marks, range.start, LinkFrame(kind, [], range, 0), Mark(kind.ImageOf?, false, false));
  }

  /** One more link, after everything registered, pending and deferred. */
  lemma AddLinkLayout(source: string, st: State, marks: seq<Mark>, hi: nat, link: LinkFrame, mark: Mark)
    requires Layout(source, st, marks, hi) && TruthfulSpan(source, link.source) && link.source.start == hi
    requires link.kind.ImageOf? == mark.image && link.renderedChars == 0
    ensures Layout(source, st.(links := st.links + [link]), marks + [mark], hi)
  {
    hide RegsGeo, Get;
    var links', marks' := st.links + [link], marks + [mark];
    forall i | 0 <= i < |links'|
      ensures LinkGeo(source, links'[i], marks'[i], st.regs, st.deferred, Lo(st.frames), hi)
      ensures links'[0].source.start <= links'[i].source.start
    {
      if i < |st.links| {
        assert LinkGeo(source, st.links[i], marks[i], st.regs, st.deferred, Lo(st.frames), hi);
      } else {
        forall d | 0 <= d < |st.deferred| ensures st.deferred[d].source.end <= hi {
          assert DeferredReg(source, st.deferred[d], Lo(st.frames), hi);
        }
      }
    }
  }

  /** The innermost link goes, with its mark. */
  lemma PopLinkLayout(source: string, st: State, marks: seq<Mark>, hi: nat)
    requires Layout(source, st, marks, hi) && st.links != []
    ensures |marks| == |st.links| && Layout(source, PopLink(st), Init(marks), hi)
  {
    hide RegsGeo, Get;
    forall i | 0 <= i < |st.links| - 1
      ensures LinkGeo(source, Init(st.links)[i], Init(marks)[i], st.regs, st.deferred, Lo(st.frames), hi)
    {
      assert LinkGeo(source, st.links[i], marks[i], st.regs, st.deferred, Lo(st.frames), hi);
    }
  }

  lemma LinkFacts(source: string, st: State, marks: seq<Mark>, hi: nat)
    requires Layout(source, st, marks, hi) && st.links != []
    ensures |marks| == |st.links| && Top(st.links).kind.ImageOf? == Top(marks).image
    ensures Top(st.links).renderedChars > 0 ==> Top(marks).text
    ensures TruthfulSpan(source, Top(st.links).source) && Lo(st.frames) <= Top(st.links).source.start <= hi
    ensures Top(marks).image ==> Bounded(st.regs, Top(st.links).source.start)
    ensures Top(marks).image ==> forall d :: 0 <= d < |st.deferred| ==> st.deferred[d].source.end <= Top(st.links).source.start
    ensures forall k :: 0 <= k < |st.runs.runs| ==> st.runs.runs[k].source.end <= Top(st.links).source.start
    ensures |marks| == 1 && !marks[0].holds ==> Bounded(st.regs, Top(st.links).source.start)
  {
    hide RegsGeo, Get;
    assert LinkGeo(source, Top(st.links), Top(marks), st.regs, st.deferred, Lo(st.frames), hi);
    assert st.links[0].source.start <= Top(st.links).source.start;
  }

  lemma CloseLinkLayout(source: string, st: State, c: Care, r: Range)
    requires Geo(source, st, c) && Allows(source, c.nest, EndEvent(LinkEnd, r)) && Avoids(c, EndEvent(LinkEnd, r))
    ensures Layout(source, CloseLink(st), Watch(c, EndEvent(LinkEnd, r)).marks, r.end)
  {
    hide Counted, Sound, Get, Layout, InLeaf, UnderHeading;
    var hi := c.nest.cursor;
    assert st.links != [] && Top(st.links).source == r;
    LinkFacts(source, st, c.marks, hi);
    PopLinkLayout(source, st, c.marks, hi);
    assert hi <= r.end;
    LayoutGrows(source, PopLink(st), Init(c.marks), hi, r.end);
    var frame, popped := Top(st.links), PopMark(c);
    if frame.renderedChars == 0 {
      if Top(c.marks).text { TextMarkLayout(source, PopLink(st), Init(c.marks), r.end); }
    } else {
      assert |c.marks| == 1 ==> Bounded(st.regs, r.start) && st.deferred == [];
      EmitLayout(source, PopLink(st), popped, r.end, frame.renderedChars, frame.source, false,
                 LinkElement(frame.kind, ProcessInlines(frame.content)));
    }
  }

  /** Marking the innermost link as rendering text asks nothing of the layout. */
  lemma TextMarkLayout(source: string, st: State, marks: seq<Mark>, hi: nat)
    requires Layout(source, st, marks, hi)
    ensures |st.links| == |marks|
    ensures marks != [] ==> Layout(source, st, marks[|marks| - 1 := Top(marks).(text := true)], hi)
  {
    if marks != [] {
      LinkTextLayout(source, st, marks, hi, Top(st.links));
      assert st.links[|st.links| - 1 := Top(st.links)] == st.links;
    }
  }
}
