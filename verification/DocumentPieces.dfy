/** What the builder does with inline content: on every state it may meet it in, the events of
    some pieces leave exactly what the pieces mean. */
module DocumentPieces {
  import opened Text
  import opened Ast
  import opened Inlines
  import opened Events
  import opened BuilderModel
  import opened BlockTree
  import opened Spans
  import opened Documents

  // ----- runs of events

  lemma {:induction false} HandleConcat(source: string, st: State, a: seq<Event>, b: seq<Event>)
    ensures HandleAll(source, st, a + b) == HandleAll(source, HandleAll(source, st, a), b)
    decreases |a|
  {
    hide Handle;
    if a == [] {
      assert a + b == b;
    } else {
      assert (a + b)[0] == a[0] && (a + b)[1..] == a[1..] + b;
      HandleConcat(source, Handle(source, st, a[0]), a[1..], b);
    }
  }

  lemma HandleOne(source: string, st: State, e: Event)
    ensures HandleAll(source, st, [e]) == Handle(source, st, e)
  {
    hide Handle;
    assert [e][1..] == [];
    assert HandleAll(source, Handle(source, st, e), []) == Handle(source, st, e);
  }

  lemma BetweenTags(source: string, st: State, tag: Tag, inner: seq<Event>, range: Range)
    ensures HandleAll(source, st, Between(tag, inner, range)) ==
            OnEnd(HandleAll(source, OnStart(st, tag, range), inner), EndOf(tag))
  {
    hide OnStart, OnEnd, HandleAll, EndOf;
    var first, last := StartEvent(tag, range), EndEvent(EndOf(tag), range);
    HandleConcat(source, st, [first] + inner, [last]);
    HandleConcat(source, st, [first], inner);
    HandleOne(source, st, first);
    HandleOne(source, HandleAll(source, OnStart(st, tag, range), inner), last);
  }

  // ----- bits

  lemma BitsConcat(a: seq<Bit>, b: seq<Bit>)
    ensures Elems(a + b) == Elems(a) + Elems(b)
    ensures Images(a + b) == Images(a) + Images(b)
    ensures HoistedOnly(a + b) == HoistedOnly(a) + HoistedOnly(b)
  {
    ElemsConcat(a, b);
    ImagesConcat(a, b);
    HoistedConcat(a, b);
  }

  lemma {:induction false} ElemsConcat(a: seq<Bit>, b: seq<Bit>)
    ensures Elems(a + b) == Elems(a) + Elems(b)
    decreases |a|
  {
    if a == [] {
      assert a + b == b;
    } else {
      assert (a + b)[0] == a[0] && (a + b)[1..] == a[1..] + b;
      ElemsConcat(a[1..], b);
    }
  }

  lemma {:induction false} ImagesConcat(a: seq<Bit>, b: seq<Bit>)
    ensures Images(a + b) == Images(a) + Images(b)
    decreases |a|
  {
    if a == [] {
      assert a + b == b;
    } else {
      assert (a + b)[0] == a[0] && (a + b)[1..] == a[1..] + b;
      ImagesConcat(a[1..], b);
    }
  }

  lemma {:induction false} HoistedConcat(a: seq<Bit>, b: seq<Bit>)
    ensures HoistedOnly(a + b) == HoistedOnly(a) + HoistedOnly(b)
    decreases |a|
  {
    if a == [] {
      assert a + b == b;
    } else {
      assert (a + b)[0] == a[0] && (a + b)[1..] == a[1..] + b;
      HoistedConcat(a[1..], b);
    }
  }

  lemma OneBit(bit: Bit)
    ensures Elems([bit]) == if bit.Elem? then [bit.element] else []
    ensures Images([bit]) == if bit.Hoisted? then [bit.node] else []
    ensures HoistedOnly([bit]) == if bit.Hoisted? then [bit] else []
    ensures forall pending :: Cut(pending, [bit]) ==
              if bit.Elem? then ([], pending + [bit.element]) else (ParagraphOf(pending) + [bit.node], [])
  {
    assert [bit][1..] == [];
    forall pending
      ensures Cut(pending, [bit]) == if bit.Elem? then ([], pending + [bit.element]) else (ParagraphOf(pending) + [bit.node], [])
    {
      if bit.Hoisted? {
        assert Cut([], []) == ([], []);
        assert ParagraphOf(pending) + [bit.node] + [] == ParagraphOf(pending) + [bit.node];
      }
    }
  }

  lemma {:induction false} HoistedBits(bits: seq<Bit>)
    ensures Elems(HoistedOnly(bits)) == []
    ensures Images(HoistedOnly(bits)) == Images(bits)
    ensures HoistedOnly(HoistedOnly(bits)) == HoistedOnly(bits)
    decreases |bits|
  {
    if bits != [] {
      HoistedBits(bits[1..]);
      var rest := HoistedOnly(bits[1..]);
      if bits[0].Hoisted? {
        assert HoistedOnly(bits) == [bits[0]] + rest;
        BitsConcat([bits[0]], rest);
        OneBit(bits[0]);
      } else {
        assert HoistedOnly(bits) == [] + rest == rest;
      }
    }
  }

  lemma {:induction false} CutConcat(pending: seq<Inline>, a: seq<Bit>, b: seq<Bit>)
    ensures var first := Cut(pending, a); var second := Cut(first.1, b);
            Cut(pending, a + b) == (first.0 + second.0, second.1)
    decreases |a|
  {
    if a == [] {
      assert a + b == b;
      assert [] + Cut(pending, b).0 == Cut(pending, b).0;
    } else {
      assert (a + b)[0] == a[0] && (a + b)[1..] == a[1..] + b;
      match a[0]
      case Elem(element) => CutConcat(pending + [element], a[1..], b);
      case Hoisted(node) =>
        CutConcat([], a[1..], b);
        var rest := Cut([], a[1..]);
        var second := Cut(rest.1, b);
        assert ParagraphOf(pending) + [node] + (rest.0 + second.0) == (ParagraphOf(pending) + [node] + rest.0) + second.0;
    }
  }

  // ----- nodes attached

  /** `st'` is `st` with some nodes attached to the innermost container, or at the root. */
  ghost predicate Grown(st: State, st': State, nodes: seq<AstNode>) {
    var at := ContainerIndex(st.frames);
    && |st'.frames| == |st.frames|
    && (forall k :: 0 <= k < |st.frames| ==>
          st'.frames[k].source == st.frames[k].source && (at != Some(k) ==> st'.frames[k].kind == st.frames[k].kind))
    && (at.None? ==> st'.root == st.root + nodes)
    && (at.Some? ==> st'.root == st.root
                     && st'.frames[at.value].kind == st.frames[at.value].kind.(nodes := st.frames[at.value].kind.nodes + nodes))
  }

  lemma {:induction false} SameContainer(a: seq<Frame>, b: seq<Frame>)
    requires |a| == |b| && forall k :: 0 <= k < |a| ==> (a[k].kind.HoldsChildren() <==> b[k].kind.HoldsChildren())
    ensures ContainerIndex(a) == ContainerIndex(b)
    decreases |a|
  {
    if a != [] && !a[|a| - 1].kind.HoldsChildren() { SameContainer(a[..|a| - 1], b[..|b| - 1]); }
  }

  lemma GrownSame(st: State, st': State, nodes: seq<AstNode>)
    requires Grown(st, st', nodes)
    ensures ContainerIndex(st'.frames) == ContainerIndex(st.frames)
    ensures InHeading(st'.frames) <==> InHeading(st.frames)
  {
    SameContainer(st.frames, st'.frames);
  }

  lemma GrownTwice(a: State, b: State, c: State, first: seq<AstNode>, second: seq<AstNode>)
    requires Grown(a, b, first) && Grown(b, c, second)
    ensures Grown(a, c, first + second)
  {
    GrownSame(a, b, first);
    var at := ContainerIndex(a.frames);
    if at.Some? {
      assert a.frames[at.value].kind.nodes + (first + second) == (a.frames[at.value].kind.nodes + first) + second;
    } else {
      assert a.root + (first + second) == (a.root + first) + second;
    }
  }

  /** Everything but the tree and the pending text. */
  ghost predicate Aligned(st: State, st': State) {
    st'.format == st.format && st'.code == st.code && st'.inMetadata == st.inMetadata && st'.deferred == st.deferred
    && st'.links == st.links
  }

  lemma PushGrows(st: State, node: AstNode, source: Option<Range>, runs: seq<InlineRun>)
    ensures var st' := PushBlock(st, node, source, runs);
            Grown(st, st', [node]) && Aligned(st, st') && st'.inlines == st.inlines
  {
    hide NextPath;
  }

  lemma FlushGrows(st: State)
    ensures var st' := FlushPending(st);
            Grown(st, st', ParagraphOf(st.inlines)) && Aligned(st, st') && st'.inlines == []
  {
    hide ProcessInlines, PushBlock;
    if st.inlines == [] {
      NothingGrown(st, FlushPending(st));
    } else {
      PushGrows(ResetInlines(st), Paragraph(ProcessInlines(st.inlines)), RunExtent(st.runs.runs), st.runs.runs);
    }
  }

  lemma NothingGrown(st: State, st': State)
    requires st'.root == st.root && |st'.frames| == |st.frames|
    requires forall k :: 0 <= k < |st.frames| ==> st'.frames[k].kind == st.frames[k].kind && st'.frames[k].source == st.frames[k].source
    ensures Grown(st, st', [])
  {
    var at := ContainerIndex(st.frames);
    if at.Some? { assert st.frames[at.value].kind.nodes + [] == st.frames[at.value].kind.nodes; }
    assert st.root + [] == st.root;
  }

  // ----- pieces

  function DeferredNodes(waiting: seq<Deferred>): seq<AstNode> {
    if waiting == [] then [] else DeferredNodes(waiting[..|waiting| - 1]) + [waiting[|waiting| - 1].node]
  }

  /** What of some bits gets past an open link. */
  function Through(links: seq<LinkFrame>, bits: seq<Bit>): seq<Bit> {
    if links == [] then bits else HoistedOnly(bits)
  }

  /** The open links, once some bits have been added to the innermost. */
  ghost predicate LinksAfter(links: seq<LinkFrame>, links': seq<LinkFrame>, bits: seq<Bit>) {
    |links'| == |links|
    && (links != [] ==>
          Init(links') == Init(links) && Top(links').kind == Top(links).kind && Top(links').source == Top(links).source
          && Top(links').content == Top(links).content + Elems(bits)
          && Top(links').renderedChars == Top(links).renderedChars + |InlineText(Elems(bits))|)
  }

  /** The tree and the pending text, in a heading and outside one. */
  ghost predicate TextAfter(st: State, st': State, out: seq<Bit>) {
    if InHeading(st.frames) then
      Grown(st, st', []) && st'.inlines == st.inlines + Elems(out)
      && DeferredNodes(st'.deferred) == DeferredNodes(st.deferred) + Images(out)
    else
      Grown(st, st', Cut(st.inlines, out).0) && st'.inlines == Cut(st.inlines, out).1 && st'.deferred == st.deferred
  }

  /** `st'` is `st` with some bits taken in, whatever the style now in force. */
  ghost predicate TakenIn(st: State, st': State, bits: seq<Bit>) {
    st'.code == st.code && st'.inMetadata == st.inMetadata
    && LinksAfter(st.links, st'.links, bits) && TextAfter(st, st', Through(st.links, bits))
  }

  lemma LinksTwice(a: seq<LinkFrame>, b: seq<LinkFrame>, c: seq<LinkFrame>, first: seq<Bit>, second: seq<Bit>)
    requires LinksAfter(a, b, first) && LinksAfter(b, c, second)
    ensures LinksAfter(a, c, first + second)
  {
    hide Elems, InlineText;
    BitsConcat(first, second);
    InlineTextConcat(Elems(first), Elems(second));
    if a != [] { assert Top(a).content + (Elems(first) + Elems(second)) == (Top(a).content + Elems(first)) + Elems(second); }
  }

  lemma TextAfterTwice(a: State, b: State, c: State, first: seq<Bit>, second: seq<Bit>)
    requires TextAfter(a, b, first) && TextAfter(b, c, second)
    ensures TextAfter(a, c, first + second)
  {
    hide Grown, InHeading, Cut, Elems, Images, DeferredNodes;
    if InHeading(a.frames) {
      GrownSame(a, b, []);
      BitsConcat(first, second);
      GrownTwice(a, b, c, [], []);
      var none: seq<AstNode> := [];
      assert none + none == none;
      assert a.inlines + (Elems(first) + Elems(second)) == (a.inlines + Elems(first)) + Elems(second);
      assert DeferredNodes(a.deferred) + (Images(first) + Images(second)) == (DeferredNodes(a.deferred) + Images(first)) + Images(second);
    } else {
      GrownSame(a, b, Cut(a.inlines, first).0);
      CutConcat(a.inlines, first, second);
      GrownTwice(a, b, c, Cut(a.inlines, first).0, Cut(b.inlines, second).0);
    }
  }

  lemma AfterTwice(a: State, b: State, c: State, first: seq<Bit>, second: seq<Bit>)
    requires TakenIn(a, b, first) && TakenIn(b, c, second)
    ensures TakenIn(a, c, first + second)
  {
    hide TextAfter, LinksAfter, HoistedOnly;
    LinksTwice(a.links, b.links, c.links, first, second);
    assert |a.links| == |b.links| by { LengthAfter(a.links, b.links, first); }
    BitsConcat(first, second);
    TextAfterTwice(a, b, c, Through(a.links, first), Through(a.links, second));
  }

  lemma LengthAfter(links: seq<LinkFrame>, links': seq<LinkFrame>, bits: seq<Bit>)
    requires LinksAfter(links, links', bits)
    ensures |links'| == |links|
  {
  }

  lemma NothingAfter(st: State, st': State)
    requires Aligned(st, st') && st'.inlines == st.inlines && st'.root == st.root && st'.frames == st.frames
    ensures TakenIn(st, st', [])
  {
    NothingGrown(st, st');
    assert Elems([]) == [] && Images([]) == [] && HoistedOnly([]) == [] && Cut(st.inlines, []) == ([], st.inlines);
    assert InlineText([]) == "";
    if st.links != [] { assert Top(st.links).content + [] == Top(st.links).content; }
    assert st.inlines + [] == st.inlines && DeferredNodes(st.deferred) + [] == DeferredNodes(st.deferred);
  }

  // ----- one piece

  lemma EmittedLinks(st: State, n: nat, range: Range, interpolable: bool, element: Inline)
    requires n == |ElementText(element)|
    ensures LinksAfter(st.links, PushInline(EmitRun(st, n, range, interpolable), element).links, [Elem(element)])
  {
    hide ElementText, RunAccum.Push;
    assert Elems([Elem(element)]) == [element] by { OneBit(Elem(element)); }
    assert InlineText([element]) == ElementText(element) by { InlineTextAppend([], element); assert [] + [element] == [element]; NoText(); }
  }

  lemma EmittedText(st: State, n: nat, range: Range, interpolable: bool, element: Inline)
    ensures var st' := PushInline(EmitRun(st, n, range, interpolable), element);
            TextAfter(st, st', Through(st.links, [Elem(element)]))
            && st'.code == st.code && st'.inMetadata == st.inMetadata
  {
    hide ContainerIndex, RunAccum.Push, DeferredNodes;
    var st' := PushInline(EmitRun(st, n, range, interpolable), element);
    assert st'.frames == st.frames && st'.root == st.root && st'.deferred == st.deferred;
    assert Grown(st, st', []) by { NothingGrown(st, st'); }
    hide Grown;
    OneBit(Elem(element));
    assert Cut(st.inlines, []) == ([], st.inlines) && Elems([]) == [] && Images([]) == [];
    assert DeferredNodes(st.deferred) + [] == DeferredNodes(st.deferred);
    assert st.inlines + [] == st.inlines;
  }

  /** An inline element, emitted with the characters it renders. */
  lemma EmittedAfter(st: State, n: nat, range: Range, interpolable: bool, element: Inline)
    requires n == |ElementText(element)|
    ensures TakenIn(st, PushInline(EmitRun(st, n, range, interpolable), element), [Elem(element)])
  {
    hide TextAfter, LinksAfter, ElementText, Through, PushInline, EmitRun;
    EmittedLinks(st, n, range, interpolable, element);
    EmittedText(st, n, range, interpolable, element);
  }

  lemma RenderedAfter(source: string, st: State, text: string, code: bool, range: Range)
    ensures TakenIn(st, Rendered(source, st, text, code, range), [RunIn(st.format, text, code)])
    ensures Rendered(source, st, text, code, range).format == st.format
  {
    hide TakenIn;
    EmittedAfter(st, |text|, range, Get(source, range) == Some(text), StyledAs(st, text, code));
  }

  /** Leaving a link, its content taken out with it: what was hoisted stays. */
  lemma PoppedAfter(st: State, kind: LinkKind, range: Range, st1: State, inner: seq<Bit>)
    requires TakenIn(OpenLink(st, kind, range), st1, inner)
    ensures st1.links == st.links + [LinkFrame(kind, Elems(inner), range, |InlineText(Elems(inner))|)]
    ensures TakenIn(st, PopLink(st1), HoistedOnly(inner))
  {
    hide Elems, Images, HoistedOnly, Cut, ContainerIndex, InlineText, DeferredNodes;
    HoistedBits(inner);
    var frame := Top(st1.links);
    assert frame == LinkFrame(kind, Elems(inner), range, |InlineText(Elems(inner))|);
    assert st1.links == Init(st1.links) + [frame];
    assert Init(st.links + [LinkFrame(kind, [], range, 0)]) == st.links;
    assert PopLink(st1).links == st.links;
    assert InlineText([]) == "" by { NoText(); }
    if st.links != [] { assert Top(st.links).content + [] == Top(st.links).content; }
  }

  lemma NoText()
    ensures InlineText([]) == ""
  {
  }

  /** An image as the builder makes it: its text is whatever runs its content left. */
  function ImageBits(url: string, inner: seq<Bit>): seq<Bit> {
    ImageShown(url, AltText(Elems(inner)), inner)
  }

  lemma LinkAfter(st: State, target: LinkTarget, range: Range, st1: State, inner: seq<Bit>)
    requires TakenIn(OpenLink(st, LinkTo(target), range), st1, inner)
    ensures TakenIn(st, CloseLink(st1), LinkBits(target, inner)) && CloseLink(st1).format == st1.format
  {
    hide TakenIn, Elems, HoistedOnly, InlineText, ProcessInlines;
    PoppedAfter(st, LinkTo(target), range, st1, inner);
    var popped := PopLink(st1);
    if InlineText(Elems(inner)) == "" {
      assert CloseLink(st1) == popped;
      assert HoistedOnly(inner) + [] == HoistedOnly(inner);
    } else {
      var element := LinkElement(LinkTo(target), ProcessInlines(Elems(inner)));
      assert ElementText(element) == InlineText(Elems(inner)) by { ProcessKeepsText(Elems(inner)); }
      EmittedAfter(popped, |InlineText(Elems(inner))|, range, false, element);
      AfterTwice(st, popped, CloseLink(st1), HoistedOnly(inner), [Elem(element)]);
    }
  }

  lemma ImageAfter(st: State, url: string, range: Range, st1: State, inner: seq<Bit>)
    requires TakenIn(OpenLink(st, ImageOf(url), range), st1, inner)
    ensures TakenIn(st, CloseImage(st1), ImageBits(url, inner)) && CloseImage(st1).format == st1.format
  {
    hide TakenIn, Elems, HoistedOnly, AltText;
    PoppedAfter(st, ImageOf(url), range, st1, inner);
    ClosedImageAfter(st1, url);
    AfterTwice(st, PopLink(st1), CloseImage(st1), HoistedOnly(inner), [Hoisted(Image(AltText(Elems(inner)), url))]);
  }

  lemma SameLinks(links: seq<LinkFrame>, bits: seq<Bit>)
    requires Elems(bits) == []
    ensures LinksAfter(links, links, bits)
  {
    NoText();
    if links != [] { assert Top(links).content + [] == Top(links).content; }
  }

  lemma ClosedImageAfter(st1: State, url: string)
    requires st1.links != [] && Top(st1.links).kind == ImageOf(url)
    ensures TakenIn(PopLink(st1), CloseImage(st1), [Hoisted(Image(AltText(Top(st1.links).content), url))])
    ensures CloseImage(st1).format == st1.format
  {
    var node := Image(AltText(Top(st1.links).content), url);
    var popped := PopLink(st1);
    OneBit(Hoisted(node));
    ImageText(st1, url, node);
    assert LinksAfter(popped.links, popped.links, [Hoisted(node)]) by { SameLinks(popped.links, [Hoisted(node)]); }
    hide AltText, CloseImage, TextAfter, LinksAfter, HoistedOnly, Elems, Images;
  }

  lemma MarkedSame(popped: State, marked: State)
    requires marked == popped.(frames := MarkSplit(popped.frames))
    ensures Grown(popped, marked, [])
  {
    hide ContainerIndex;
    NothingGrown(popped, marked);
  }

  /** An image's end, step by step. */
  lemma CloseImageSteps(st1: State, url: string, node: AstNode, marked: State, range: Range, runs: seq<InlineRun>)
    requires st1.links != [] && Top(st1.links).kind == ImageOf(url) && node == Image(AltText(Top(st1.links).content), url)
    requires marked == PopLink(st1).(frames := MarkSplit(st1.frames)) && range == Top(st1.links).source
    requires runs == NO_RUNS.Push(|node.altText|, range, false).runs
    ensures CloseImage(st1) == if InHeading(st1.frames) then marked.(deferred := marked.deferred + [Deferred(node, range, runs)])
                               else PushBlock(FlushPending(marked), node, Some(range), runs)
  {
    hide AltText, FlushPending, PushBlock, MarkSplit;
  }

  lemma ImageText(st1: State, url: string, node: AstNode)
    requires st1.links != [] && Top(st1.links).kind == ImageOf(url) && node == Image(AltText(Top(st1.links).content), url)
    ensures var popped, st' := PopLink(st1), CloseImage(st1);
            st'.format == popped.format && st'.code == popped.code && st'.inMetadata == popped.inMetadata
            && st'.links == popped.links && TextAfter(popped, st', [Hoisted(node)])
  {
    var popped := PopLink(st1);
    var marked := popped.(frames := MarkSplit(st1.frames));
    var range := Top(st1.links).source;
    var runs := NO_RUNS.Push(|node.altText|, range, false).runs;
    OneBit(Hoisted(node));
    MarkedSame(popped, marked);
    CloseImageSteps(st1, url, node, marked, range, runs);
    hide AltText, CloseImage, FlushPending, PushBlock, Grown, ParagraphOf, DeferredNodes, MarkSplit, RunAccum.Push;
    if InHeading(st1.frames) {
      ImageDeferred(popped, marked, Deferred(node, range, runs));
    } else {
      ImageHoisted(popped, marked, node, range, runs);
    }
  }

  lemma ImageHoisted(popped: State, marked: State, node: AstNode, range: Range, runs: seq<InlineRun>)
    requires marked == popped.(frames := marked.frames) && Grown(popped, marked, [])
    ensures var st' := PushBlock(FlushPending(marked), node, Some(range), runs);
            Aligned(popped, st') && Grown(popped, st', ParagraphOf(popped.inlines) + [node]) && st'.inlines == []
  {
    hide PushBlock, FlushPending, Grown, ParagraphOf;
    var flushed := FlushPending(marked);
    FlushGrows(marked);
    PushGrows(flushed, node, Some(range), runs);
    GrownTwice(popped, marked, flushed, [], ParagraphOf(marked.inlines));
    assert [] + ParagraphOf(marked.inlines) == ParagraphOf(marked.inlines);
    GrownTwice(popped, flushed, PushBlock(flushed, node, Some(range), runs), ParagraphOf(marked.inlines), [node]);
  }

  lemma ImageDeferred(popped: State, marked: State, d: Deferred)
    requires marked == popped.(frames := marked.frames) && Grown(popped, marked, [])
    ensures var st' := marked.(deferred := marked.deferred + [d]);
            Grown(popped, st', []) && DeferredNodes(st'.deferred) == DeferredNodes(popped.deferred) + [d.node]
            && st'.inlines == popped.inlines + []
  {
  }

  // ----- what the builder makes of content

  /** A piece as the builder shows it: in the styles in force, which end where any piece that
      opened them does. */
  function Built(p: Piece, f: Format): seq<Bit>
    decreases p, 1
  {
    match p
    case InStyle(style, content, _) => BuiltAll(content, WithStyle(f, style))
    case Linked(target, content, _) => LinkBits(target, BuiltAll(content, f))
    case Pictured(url, alt, _) => ImageBits(url, BuiltAll(alt, f))
    case _ => Flow(p, f)
  }

  function BuiltAll(pieces: seq<Piece>, f: Format): seq<Bit>
    decreases pieces, 0
  {
    if pieces == [] then [] else Built(pieces[0], f) + BuiltAll(pieces[1..], After(pieces[0], f))
  }

  /** A piece without content. */
  lemma SimpleAfter(source: string, p: Piece, st: State)
    requires p.Words? || p.CodeSpan? || p.LineBreak? || p.Unread?
    requires st.code.None? && !st.inMetadata
    ensures var st' := HandleAll(source, st, PieceEvents(p)); TakenIn(st, st', Flow(p, st.format)) && st'.format == st.format
  {
    hide TakenIn, HandleAll, Rendered;
    HandleOne(source, st, PieceEvents(p)[0]);
    match p
    case Words(text, range) =>
      if text == "" { NothingAfter(st, st); } else { RenderedAfter(source, st, text, false, range); }
    case CodeSpan(text, range) => RenderedAfter(source, st, text, true, range);
    case LineBreak(range) => RenderedAfter(source, st, "\n", false, range);
    case Unread(range) => NothingAfter(st, st);
  }

  /** Any piece, in any style: its bits are taken in, and the styles it opened are over. */
  lemma {:induction false} PieceAfter(source: string, p: Piece, st: State)
    requires st.code.None? && !st.inMetadata
    ensures var st' := HandleAll(source, st, PieceEvents(p)); TakenIn(st, st', Built(p, st.format)) && st'.format == After(p, st.format)
    decreases p, 1
  {
    hide TakenIn, HandleAll, CloseLink, CloseImage, Between, AnyOpens, OnStart, OnEnd, OpenLink, After, AfterAll, WithStyle;
    match p
    case InStyle(style, content, range) =>
      BetweenTags(source, st, StyleTag(style), PiecesEvents(content), range);
      var st0 := OnStart(st, StyleTag(style), range);
      StyleOpens(st, style, range);
      PiecesAfter(source, content, st0);
      var st1 := HandleAll(source, st0, PiecesEvents(content));
      Restyled(st, style, range, st1, Built(p, st.format));
      StyleCloses(st.format, style, content, range, st1);
    case Linked(target, content, range) =>
      BetweenTags(source, st, LinkTag(target), PiecesEvents(content), range);
      var st0 := OpenLink(st, LinkTo(target), range);
      LinkTags(st, target, range, HandleAll(source, st0, PiecesEvents(content)), content);
      PiecesAfter(source, content, st0);
      LinkAfter(st, target, range, HandleAll(source, st0, PiecesEvents(content)), BuiltAll(content, st.format));
    case Pictured(url, alt, range) =>
      BetweenTags(source, st, ImageTag(url), PiecesEvents(alt), range);
      var st0 := OpenLink(st, ImageOf(url), range);
      ImageTags(st, url, range, HandleAll(source, st0, PiecesEvents(alt)), alt);
      PiecesAfter(source, alt, st0);
      ImageAfter(st, url, range, HandleAll(source, st0, PiecesEvents(alt)), BuiltAll(alt, st.format));
    case _ =>
      SimpleAfter(source, p, st);
      NothingOpened(p, st.format);
  }

  lemma StyleOpens(st: State, style: Style, range: Range)
    ensures var st0 := OnStart(st, StyleTag(style), range);
            st0.format == WithStyle(st.format, style) && st0.code == st.code && st0.inMetadata == st.inMetadata
  {
  }

  lemma StyleCloses(f: Format, style: Style, content: seq<Piece>, range: Range, st1: State)
    requires st1.format == AfterAll(content, WithStyle(f, style))
    ensures OnEnd(st1, EndOf(StyleTag(style))).format == After(InStyle(style, content, range), f)
  {
    EndFormat(st1, style);
    hide OnEnd, AnyOpens;
    var p := InStyle(style, content, range);
    match style
    case Strong => assert Opens(p, Strong);
    case Emphasis => assert Opens(p, Emphasis);
    case Strikethrough => assert Opens(p, Strikethrough);
  }

  lemma EndFormat(st1: State, style: Style)
    ensures OnEnd(st1, EndOf(StyleTag(style))).format ==
            match style
            case Strong => st1.format.(bold := false)
            case Emphasis => st1.format.(italic := false)
            case Strikethrough => st1.format.(strikethrough := false)
  {
    hide CloseHeading, CloseParagraph, CloseContainer, CloseCode, CloseLink, CloseImage, FlushPending;
  }

  lemma LinkTags(st: State, target: LinkTarget, range: Range, st1: State, content: seq<Piece>)
    ensures OnStart(st, LinkTag(target), range) == OpenLink(st, LinkTo(target), range)
    ensures OpenLink(st, LinkTo(target), range) == st.(links := OpenLink(st, LinkTo(target), range).links)
    ensures OnEnd(st1, EndOf(LinkTag(target))) == CloseLink(st1)
    ensures After(Linked(target, content, range), st.format) == AfterAll(content, st.format)
  {
    hide CloseLink, AnyOpens;
  }

  lemma ImageTags(st: State, url: string, range: Range, st1: State, alt: seq<Piece>)
    ensures OnStart(st, ImageTag(url), range) == OpenLink(st, ImageOf(url), range)
    ensures OpenLink(st, ImageOf(url), range) == st.(links := OpenLink(st, ImageOf(url), range).links)
    ensures OnEnd(st1, EndOf(ImageTag(url))) == CloseImage(st1)
    ensures After(Pictured(url, alt, range), st.format) == AfterAll(alt, st.format)
  {
    hide CloseImage, AnyOpens;
  }

  lemma NothingOpened(p: Piece, f: Format)
    requires p.Words? || p.CodeSpan? || p.LineBreak? || p.Unread?
    ensures After(p, f) == f
  {
  }

  /** The text does not depend on the style in force. */
  lemma SameText(a: State, a1: State, b: State, b1: State, out: seq<Bit>)
    requires TextAfter(a, a1, out) && b == a.(format := b.format) && b1 == a1.(format := b1.format)
    ensures TextAfter(b, b1, out)
  {
    hide ContainerIndex, Cut, DeferredNodes, Elems, Images;
  }

  /** Opening a style and closing it again. */
  lemma Restyled(st: State, style: Style, range: Range, st1: State, bits: seq<Bit>)
    requires TakenIn(OnStart(st, StyleTag(style), range), st1, bits)
    ensures OnStart(st, StyleTag(style), range) == st.(format := WithStyle(st.format, style))
    ensures TakenIn(st, OnEnd(st1, EndOf(StyleTag(style))), bits)
  {
    hide TextAfter, LinksAfter, Through;
    var st' := OnEnd(st1, EndOf(StyleTag(style)));
    assert st' == st1.(format := st'.format);
    SameText(OnStart(st, StyleTag(style), range), st1, st, st', Through(st.links, bits));
  }

  lemma {:induction false} PiecesAfter(source: string, pieces: seq<Piece>, st: State)
    requires st.code.None? && !st.inMetadata
    ensures var st' := HandleAll(source, st, PiecesEvents(pieces));
            TakenIn(st, st', BuiltAll(pieces, st.format)) && st'.format == AfterAll(pieces, st.format)
    decreases pieces, 0
  {
    hide HandleAll, Opens;
    if pieces == [] {
      assert HandleAll(source, st, []) == st by { NoEvents(source, st); }
      NothingAfter(st, st);
    } else {
      HandleConcat(source, st, PieceEvents(pieces[0]), PiecesEvents(pieces[1..]));
      PieceAfter(source, pieces[0], st);
      var next := HandleAll(source, st, PieceEvents(pieces[0]));
      assert next.code == st.code && next.inMetadata == st.inMetadata;
      hide TakenIn;
      PiecesAfter(source, pieces[1..], next);
      AfterTwice(st, next, HandleAll(source, next, PiecesEvents(pieces[1..])), Built(pieces[0], st.format), BuiltAll(pieces[1..], next.format));
    }
  }

  lemma NoEvents(source: string, st: State)
    ensures HandleAll(source, st, []) == st
  {
  }
}
