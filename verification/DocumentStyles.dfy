/** Where the styles the builder shows are those the document means. */
module DocumentStyles {
  import opened Text
  import opened Ast
  import opened Inlines
  import opened Events
  import opened BuilderModel
  import opened Documents
  import opened DocumentPieces

  // ----- bits that differ in style alone

  ghost predicate Alike(x: Inline, y: Inline) {
    (x.Run? <==> y.Run?) && ElementText(x) == ElementText(y)
  }

  ghost predicate AllAlike(a: seq<Inline>, b: seq<Inline>) {
    |a| == |b| && forall k :: 0 <= k < |a| ==> Alike(a[k], b[k])
  }

  ghost predicate BitAlike(x: Bit, y: Bit) {
    if x.Elem? then y.Elem? && Alike(x.element, y.element) else x == y
  }

  ghost predicate BitsAlike(a: seq<Bit>, b: seq<Bit>) {
    |a| == |b| && forall k :: 0 <= k < |a| ==> BitAlike(a[k], b[k])
  }

  lemma AlikeConcat(a: seq<Bit>, b: seq<Bit>, c: seq<Bit>, d: seq<Bit>)
    requires BitsAlike(a, b) && BitsAlike(c, d)
    ensures BitsAlike(a + c, b + d)
  {
    hide BitAlike;
  }

  lemma {:induction false} AlikeElems(a: seq<Bit>, b: seq<Bit>)
    requires BitsAlike(a, b)
    ensures AllAlike(Elems(a), Elems(b)) && Images(a) == Images(b) && HoistedOnly(a) == HoistedOnly(b)
    decreases |a|
  {
    hide Alike;
    if a != [] {
      assert BitAlike(a[0], b[0]);
      assert BitsAlike(a[1..], b[1..]) by { hide BitAlike; }
      AlikeElems(a[1..], b[1..]);
    }
  }

  lemma {:induction false} AlikeText(a: seq<Inline>, b: seq<Inline>)
    requires AllAlike(a, b)
    ensures InlineText(a) == InlineText(b) && AltText(a) == AltText(b)
    decreases |a|
  {
    if a != [] {
      assert Alike(a[0], b[0]);
      assert AllAlike(a[1..], b[1..]) by { hide Alike; }
      AlikeText(a[1..], b[1..]);
      hide Alike;
    }
  }

  lemma AlikeAppend(a: seq<Inline>, b: seq<Inline>, x: Inline, y: Inline)
    requires AllAlike(a, b) && Alike(x, y)
    ensures AllAlike(a + [x], b + [y])
  {
    hide Alike;
  }

  /** Text cut at its images falls into the same parts, whatever its styles. */
  lemma {:induction false} AlikeCut(p: seq<Inline>, a: seq<Bit>, q: seq<Inline>, b: seq<Bit>)
    requires AllAlike(p, q) && BitsAlike(a, b)
    ensures |Cut(p, a).0| == |Cut(q, b).0| && AllAlike(Cut(p, a).1, Cut(q, b).1)
    decreases |a|
  {
    hide Alike;
    if a != [] {
      assert BitAlike(a[0], b[0]);
      assert BitsAlike(a[1..], b[1..]) by { hide BitAlike; }
      if a[0].Elem? {
        AlikeAppend(p, q, a[0].element, b[0].element);
        AlikeCut(p + [a[0].element], a[1..], q + [b[0].element], b[1..]);
      } else {
        AlikeCut([], a[1..], [], b[1..]);
      }
    }
  }

  lemma LinkAlike(target: LinkTarget, a: seq<Bit>, b: seq<Bit>)
    requires BitsAlike(a, b)
    ensures BitsAlike(LinkBits(target, a), LinkBits(target, b))
  {
    hide ProcessInlines, InlineText, BitsAlike, AllAlike, Elems, HoistedOnly;
    AlikeElems(a, b);
    AlikeText(Elems(a), Elems(b));
    SelfAlike(HoistedOnly(a));
    if InlineText(Elems(a)) == "" {
      assert HoistedOnly(a) + [] == HoistedOnly(a);
    } else {
      var x, y := LinkElement(LinkTo(target), ProcessInlines(Elems(a))), LinkElement(LinkTo(target), ProcessInlines(Elems(b)));
      ProcessKeepsText(Elems(a));
      ProcessKeepsText(Elems(b));
      assert BitsAlike([Elem(x)], [Elem(y)]) by { OneAlike(x, y); }
      AlikeConcat(HoistedOnly(a), HoistedOnly(a), [Elem(x)], [Elem(y)]);
    }
  }

  lemma OneAlike(x: Inline, y: Inline)
    requires Alike(x, y)
    ensures BitsAlike([Elem(x)], [Elem(y)])
  {
  }

  lemma SelfAlike(a: seq<Bit>)
    ensures BitsAlike(a, a)
  {
  }

  lemma ImageAlike(url: string, a: seq<Bit>, b: seq<Bit>)
    requires BitsAlike(a, b)
    ensures ImageBits(url, a) == ImageBits(url, b)
  {
    AlikeElems(a, b);
    AlikeText(Elems(a), Elems(b));
  }

  lemma {:induction false} AltConcat(a: seq<Inline>, b: seq<Inline>)
    ensures AltText(a + b) == AltText(a) + AltText(b)
    decreases |a|
  {
    if a == [] {
      assert a + b == b;
    } else {
      assert (a + b)[0] == a[0] && (a + b)[1..] == a[1..] + b;
      AltConcat(a[1..], b);
    }
  }

  /** The text an image is given is what its content's own words amount to. */
  lemma {:induction false} AltMeans(pieces: seq<Piece>, f: Format)
    ensures AltText(Elems(FlowAll(pieces, f))) == AltOfAll(pieces)
    decreases pieces, 0
  {
    hide Flow, AltOf, AltText, Elems;
    if pieces == [] {
      NothingAlt();
    } else {
      var here, rest := Flow(pieces[0], f), FlowAll(pieces[1..], f);
      PieceAlt(pieces[0], f);
      AltMeans(pieces[1..], f);
      BitsConcat(here, rest);
      AltConcat(Elems(here), Elems(rest));
    }
  }

  lemma NothingAlt()
    ensures AltText(Elems([])) == ""
  {
  }

  lemma {:induction false} PieceAlt(p: Piece, f: Format)
    ensures AltText(Elems(Flow(p, f))) == AltOf(p)
    decreases p, 1
  {
    hide ProcessInlines, InlineText, HoistedOnly;
    match p
    case InStyle(style, content, _) => AltMeans(content, WithStyle(f, style));
    case Linked(target, content, _) => LinkAlt(target, FlowAll(content, f));
    case Pictured(url, alt, _) =>
      HoistedBits(FlowAll(alt, f));
      BitsConcat(HoistedOnly(FlowAll(alt, f)), [Hoisted(Image(AltOfAll(alt), url))]);
    case _ => SimpleAlt(p, f);
  }

  lemma SimpleAlt(p: Piece, f: Format)
    requires p.Words? || p.CodeSpan? || p.LineBreak? || p.Unread?
    ensures AltText(Elems(Flow(p, f))) == AltOf(p)
  {
    OneAlt(f, "\n", false);
    if p.Words? { OneAlt(f, p.text, false); }
    if p.CodeSpan? { OneAlt(f, p.code, true); }
    NothingAlt();
    hide AltText, Elems, RunIn;
  }

  lemma OneAlt(f: Format, text: string, code: bool)
    ensures AltText(Elems([RunIn(f, text, code)])) == text
  {
    OneBit(RunIn(f, text, code));
    var run := RunIn(f, text, code).element;
    assert [run][1..] == [];
    assert AltText([]) == "";
    assert text + "" == text;
  }

  lemma LinkAlt(target: LinkTarget, inner: seq<Bit>)
    ensures AltText(Elems(LinkBits(target, inner))) == ""
  {
    hide ProcessInlines, HoistedOnly, InlineText;
    HoistedBits(inner);
    NothingAlt();
    if InlineText(Elems(inner)) == "" {
      assert HoistedOnly(inner) + [] == HoistedOnly(inner);
    } else {
      var bit := Elem(LinkShown(target, ProcessInlines(Elems(inner))));
      BitsConcat(HoistedOnly(inner), [bit]);
      OneBit(bit);
      assert [] + [bit.element] == [bit.element];
      assert [bit.element][1..] == [];
    }
  }

  lemma ImageAlt(url: string, alt: seq<Piece>, f: Format)
    ensures ImageBits(url, FlowAll(alt, f)) == ImageShown(url, AltOfAll(alt), FlowAll(alt, f))
  {
    AltMeans(alt, f);
  }

  /** In whatever styles the builder shows content, it shows the same text and images. */
  lemma {:induction false} BuiltAlike(p: Piece, meant: Format, given: Format)
    ensures BitsAlike(Built(p, given), Flow(p, meant))
    decreases p, 1
  {
    hide BitsAlike, LinkBits, ImageBits;
    match p
    case InStyle(style, content, _) => AllBuiltAlike(content, WithStyle(meant, style), WithStyle(given, style));
    case Linked(target, content, _) =>
      AllBuiltAlike(content, meant, given);
      LinkAlike(target, BuiltAll(content, given), FlowAll(content, meant));
    case Pictured(url, alt, _) =>
      AllBuiltAlike(alt, meant, given);
      ImageAlike(url, BuiltAll(alt, given), FlowAll(alt, meant));
      ImageAlt(url, alt, meant);
      SelfAlike(Built(p, given));
    case _ => SimpleAlike(p, meant, given);
  }

  lemma SimpleAlike(p: Piece, meant: Format, given: Format)
    requires p.Words? || p.CodeSpan? || p.LineBreak? || p.Unread?
    ensures BitsAlike(Flow(p, given), Flow(p, meant))
  {
  }

  lemma {:induction false} AllBuiltAlike(pieces: seq<Piece>, meant: Format, given: Format)
    ensures BitsAlike(BuiltAll(pieces, given), FlowAll(pieces, meant))
    decreases pieces, 0
  {
    hide BitsAlike, After;
    if pieces == [] {
      SelfAlike([]);
    } else {
      var next := After(pieces[0], given);
      BuiltAlike(pieces[0], meant, given);
      AllBuiltAlike(pieces[1..], meant, next);
      AlikeConcat(Built(pieces[0], given), Flow(pieces[0], meant), BuiltAll(pieces[1..], next), FlowAll(pieces[1..], meant));
    }
  }

  // ----- content that keeps its styles is built as it is meant

  lemma {:induction false} KeptBuilt(p: Piece, meant: Format, given: Format)
    requires Kept(p, meant, given)
    ensures Built(p, given) == Flow(p, meant)
    decreases p, 1
  {
    hide LinkBits, ImageBits;
    match p
    case InStyle(style, content, _) => AllKeptBuilt(content, WithStyle(meant, style), WithStyle(given, style));
    case Linked(_, content, _) => AllKeptBuilt(content, meant, given);
    case Pictured(url, alt, _) =>
      AllBuiltAlike(alt, meant, given);
      ImageAlike(url, BuiltAll(alt, given), FlowAll(alt, meant));
      ImageAlt(url, alt, meant);
    case _ =>
  }

  lemma {:induction false} AllKeptBuilt(pieces: seq<Piece>, meant: Format, given: Format)
    requires AllKept(pieces, meant, given)
    ensures BuiltAll(pieces, given) == FlowAll(pieces, meant)
    decreases pieces, 0
  {
    hide After, Kept, Built, Flow;
    if pieces != [] {
      KeptBuilt(pieces[0], meant, given);
      AllKeptBuilt(pieces[1..], meant, After(pieces[0], given));
    }
  }

  // ----- and only such content

  function Reads(content: seq<Inline>): seq<Styled> {
    StyledText(content, [])
  }

  lemma {:induction false} PlainLength(styled: seq<Styled>)
    ensures |Plain(styled)| == |styled|
  {
    if styled != [] { PlainLength(styled[1..]); }
  }

  /** A styled text has a character for each of the text's. */
  lemma StyledLength(content: seq<Inline>, links: seq<Target>)
    ensures |StyledText(content, links)| == |InlineText(content)|
  {
    hide StyledText, InlineText;
    PlainIsText(content, links);
    PlainLength(StyledText(content, links));
  }

  /** Two texts that read alike and fall into parts of the same length read alike part by part. */
  lemma SplitReads(a: seq<Inline>, b: seq<Inline>, x: seq<Inline>, y: seq<Inline>, links: seq<Target>)
    requires StyledText(a + b, links) == StyledText(x + y, links) && InlineText(a) == InlineText(x)
    ensures StyledText(a, links) == StyledText(x, links) && StyledText(b, links) == StyledText(y, links)
  {
    hide StyledText, InlineText;
    StyledConcat(a, b, links);
    StyledConcat(x, y, links);
    StyledLength(a, links);
    StyledLength(x, links);
    var n := |StyledText(a, links)|;
    assert StyledText(a + b, links)[..n] == StyledText(a, links) && StyledText(a + b, links)[n..] == StyledText(b, links);
    assert StyledText(x + y, links)[..n] == StyledText(x, links) && StyledText(x + y, links)[n..] == StyledText(y, links);
  }

  function TargetOf(target: LinkTarget): Target {
    match target case Internal(id) => ToNote(id, false) case External(url) => ToUrl(url)
  }

  /** A link reads as its content does, with the link around it. */
  lemma LinkReads(target: LinkTarget, inner: seq<Bit>, links: seq<Target>)
    ensures StyledText(Elems(LinkBits(target, inner)), links) == StyledText(Elems(inner), links + [TargetOf(target)])
  {
    hide ProcessInlines, HoistedOnly;
    HoistedBits(inner);
    if InlineText(Elems(inner)) == "" {
      StyledLength(Elems(inner), links + [TargetOf(target)]);
      assert HoistedOnly(inner) + [] == HoistedOnly(inner);
    } else {
      var element := LinkElement(LinkTo(target), ProcessInlines(Elems(inner)));
      BitsConcat(HoistedOnly(inner), [Elem(element)]);
      OneBit(Elem(element));
      assert [] + [element] == [element];
      StyledOne(element, links);
      ProcessKeepsStyles(Elems(inner), links + [TargetOf(target)]);
    }
  }

  lemma RunFirst(text: string, code: bool, f: Format, links: seq<Target>)
    requires text != ""
    ensures var styled := StyledText(Elems([RunIn(f, text, code)]), links);
            styled != [] && styled[0] == Styled(text[0], f.bold, f.italic, f.strikethrough, code, links)
  {
    OneBit(RunIn(f, text, code));
    StyledOne(RunIn(f, text, code).element, links);
  }

  lemma RunReads(text: string, code: bool, meant: Format, given: Format, links: seq<Target>)
    requires text != "" && StyledText(Elems([RunIn(given, text, code)]), links) == StyledText(Elems([RunIn(meant, text, code)]), links)
    ensures meant == given
  {
    RunFirst(text, code, meant, links);
    RunFirst(text, code, given, links);
  }

  lemma {:induction false} ReadsKept(p: Piece, meant: Format, given: Format, links: seq<Target>)
    requires StyledText(Elems(Built(p, given)), links) == StyledText(Elems(Flow(p, meant)), links)
    ensures Kept(p, meant, given)
    decreases p, 1
  {
    hide LinkBits, StyledText, Elems;
    match p
    case InStyle(style, content, _) => AllReadsKept(content, WithStyle(meant, style), WithStyle(given, style), links);
    case Linked(target, content, _) =>
      LinkReads(target, BuiltAll(content, given), links);
      LinkReads(target, FlowAll(content, meant), links);
      AllReadsKept(content, meant, given, links + [TargetOf(target)]);
    case Words(text, _) => if text != "" { RunReads(text, false, meant, given, links); }
    case CodeSpan(code, _) => RunReads(code, true, meant, given, links);
    case LineBreak(_) => RunReads("\n", false, meant, given, links);
    case _ =>
  }

  lemma {:induction false} AllReadsKept(pieces: seq<Piece>, meant: Format, given: Format, links: seq<Target>)
    requires StyledText(Elems(BuiltAll(pieces, given)), links) == StyledText(Elems(FlowAll(pieces, meant)), links)
    ensures AllKept(pieces, meant, given)
    decreases pieces, 0
  {
    hide StyledText, Elems, InlineText, After, Built, Flow, Kept, BitsAlike, AllAlike;
    if pieces != [] {
      var next := After(pieces[0], given);
      var (first, more) := (Built(pieces[0], given), BuiltAll(pieces[1..], next));
      var (first', more') := (Flow(pieces[0], meant), FlowAll(pieces[1..], meant));
      BitsConcat(first, more);
      BitsConcat(first', more');
      BuiltAlike(pieces[0], meant, given);
      AlikeElems(first, first');
      AlikeText(Elems(first), Elems(first'));
      SplitReads(Elems(first), Elems(more), Elems(first'), Elems(more'), links);
      ReadsKept(pieces[0], meant, given, links);
      AllReadsKept(pieces[1..], meant, next, links);
    }
  }

  // ----- headings and paragraphs

  lemma ParagraphReads(p: seq<Inline>, q: seq<Inline>)
    requires ParagraphOf(p) == ParagraphOf(q)
    ensures Reads(p) == Reads(q)
  {
    hide ProcessInlines, StyledText;
    if p != [] {
      assert ParagraphOf(p)[0].inlines == ProcessInlines(p) && ParagraphOf(q)[0].inlines == ProcessInlines(q);
      ProcessKeepsStyles(p, []);
      ProcessKeepsStyles(q, []);
    }
  }

  /** Text cut alike reads alike. */
  lemma {:induction false} CutReads(p: seq<Inline>, a: seq<Bit>, q: seq<Inline>, b: seq<Bit>)
    requires AllAlike(p, q) && BitsAlike(a, b)
    requires Cut(p, a).0 == Cut(q, b).0 && Reads(Cut(p, a).1) == Reads(Cut(q, b).1)
    ensures Reads(p) == Reads(q) && Reads(Elems(a)) == Reads(Elems(b))
    decreases |a|
  {
    hide StyledText, Alike, ParagraphOf, InlineText;
    if a != [] {
      assert BitAlike(a[0], b[0]);
      assert BitsAlike(a[1..], b[1..]) by { hide BitAlike; }
      if a[0].Elem? {
        var x, y := a[0].element, b[0].element;
        AlikeAppend(p, q, x, y);
        CutReads(p + [x], a[1..], q + [y], b[1..]);
        AlikeText(p, q);
        SplitReads(p, [x], q, [y], []);
        StyledConcat([x], Elems(a[1..]), []);
        StyledConcat([y], Elems(b[1..]), []);
      } else {
        CutHeads(p, a, q, b);
        CutReads([], a[1..], [], b[1..]);
        ParagraphReads(p, q);
        assert [] + Elems(a[1..]) == Elems(a[1..]) && [] + Elems(b[1..]) == Elems(b[1..]);
      }
    }
  }

  lemma CutHeads(p: seq<Inline>, a: seq<Bit>, q: seq<Inline>, b: seq<Bit>)
    requires a != [] && b != [] && a[0].Hoisted? && b[0] == a[0] && |p| == |q| && Cut(p, a).0 == Cut(q, b).0
    ensures ParagraphOf(p) == ParagraphOf(q) && Cut([], a[1..]).0 == Cut([], b[1..]).0
  {
    hide ProcessInlines;
    var n := |ParagraphOf(p)|;
    assert |ParagraphOf(q)| == n;
    assert Cut(p, a).0[..n] == ParagraphOf(p) && Cut(q, b).0[..n] == ParagraphOf(q);
    assert Cut(p, a).0[n + 1..] == Cut([], a[1..]).0 && Cut(q, b).0[n + 1..] == Cut([], b[1..]).0;
  }

  /** A heading is built as it is meant exactly when its content keeps its styles. */
  lemma HeadingKept(level: nat, content: seq<Piece>)
    ensures |HeadingOf(level, BuiltAll(content, PLAIN))| == |HeadingOf(level, FlowAll(content, PLAIN))|
    ensures HeadingOf(level, BuiltAll(content, PLAIN)) == HeadingOf(level, FlowAll(content, PLAIN)) <==> AllKept(content, PLAIN, PLAIN)
  {
    hide BuiltAll, FlowAll, AllKept, ProcessInlines, Elems, Images, StyledText, BitsAlike, AllAlike;
    var built, flow := BuiltAll(content, PLAIN), FlowAll(content, PLAIN);
    AllBuiltAlike(content, PLAIN, PLAIN);
    AlikeElems(built, flow);
    if AllKept(content, PLAIN, PLAIN) { AllKeptBuilt(content, PLAIN, PLAIN); }
    if HeadingOf(level, built) == HeadingOf(level, flow) {
      assert HeadingOf(level, built)[0].inlines == HeadingOf(level, flow)[0].inlines;
      ProcessKeepsStyles(Elems(built), []);
      ProcessKeepsStyles(Elems(flow), []);
      AllReadsKept(content, PLAIN, PLAIN, []);
    }
  }

  /** So is a paragraph. */
  lemma ParagraphKept(content: seq<Piece>)
    ensures |Broken(BuiltAll(content, PLAIN))| == |Broken(FlowAll(content, PLAIN))|
    ensures Broken(BuiltAll(content, PLAIN)) == Broken(FlowAll(content, PLAIN)) <==> AllKept(content, PLAIN, PLAIN)
  {
    hide BuiltAll, FlowAll, AllKept, ProcessInlines, StyledText, BitsAlike, Cut, Elems;
    var built, flow := BuiltAll(content, PLAIN), FlowAll(content, PLAIN);
    AllBuiltAlike(content, PLAIN, PLAIN);
    AlikeCut([], built, [], flow);
    var a, b := Cut([], built), Cut([], flow);
    if AllKept(content, PLAIN, PLAIN) { AllKeptBuilt(content, PLAIN, PLAIN); }
    if Broken(built) == Broken(flow) {
      assert Broken(built)[..|a.0|] == a.0 && Broken(flow)[..|a.0|] == b.0;
      assert Broken(built)[|a.0|..] == ParagraphOf(a.1) && Broken(flow)[|a.0|..] == ParagraphOf(b.1);
      ParagraphReads(a.1, b.1);
      CutReads([], built, [], flow);
      AllReadsKept(content, PLAIN, PLAIN, []);
    }
  }
}
