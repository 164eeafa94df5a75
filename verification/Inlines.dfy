/** `process_inlines`: merging adjacent text runs of one style, at every depth. */
module Inlines {
  import opened Text
  import opened Ast

  predicate SameStyle(a: TextRun, b: TextRun) {
    a.bold == b.bold && a.italic == b.italic && a.strikethrough == b.strikethrough && a.code == b.code
  }

  /** Whether an element extends the last run merged so far. */
  predicate Extends(merged: seq<Inline>, element: Inline) {
    element.Run? && merged != [] && merged[|merged| - 1].Run? && SameStyle(merged[|merged| - 1].run, element.run)
  }

  function MergeOne(merged: seq<Inline>, element: Inline): seq<Inline> {
    if Extends(merged, element) then
      var last := merged[|merged| - 1];
      merged[..|merged| - 1] + [Run(last.run.(content := last.run.content + element.run.content))]
    else merged + [element]
  }

  function MergeFrom(merged: seq<Inline>, rest: seq<Inline>): seq<Inline>
    decreases |rest|
  {
    if rest == [] then merged else MergeFrom(MergeOne(merged, rest[0]), rest[1..])
  }

  /** How many elements there are, at any depth. */
  function Count(content: seq<Inline>): nat
    decreases content, 0
  {
    if content == [] then 0 else CountOne(content[0]) + Count(content[1..])
  }

  function CountOne(element: Inline): (n: nat)
    ensures n > 0
    decreases element, 1
  {
    match element
    case Run(_) => 1
    case Link(_, _, content) => 1 + Count(content)
    case ExternalLink(_, content) => 1 + Count(content)
  }

  lemma {:induction false} CountConcat(a: seq<Inline>, b: seq<Inline>)
    ensures Count(a + b) == Count(a) + Count(b)
  {
    if a == [] {
      assert a + b == b;
    } else {
      assert (a + b)[0] == a[0] && (a + b)[1..] == a[1..] + b;
      CountConcat(a[1..], b);
    }
  }

  lemma CountAppend(a: seq<Inline>, e: Inline)
    ensures Count(a + [e]) == Count(a) + CountOne(e)
  {
    CountConcat(a, [e]);
    assert [e][1..] == [];
  }

  lemma {:induction false} MergeCount(merged: seq<Inline>, rest: seq<Inline>)
    ensures Count(MergeFrom(merged, rest)) <= Count(merged) + Count(rest)
    decreases |rest|
  {
    if rest != [] {
      MergeOneCount(merged, rest[0]);
      MergeCount(MergeOne(merged, rest[0]), rest[1..]);
    }
  }

  lemma MergeOneCount(merged: seq<Inline>, element: Inline)
    ensures Count(MergeOne(merged, element)) <= Count(merged) + CountOne(element)
  {
    if Extends(merged, element) {
      var init, last := merged[..|merged| - 1], merged[|merged| - 1];
      assert merged == init + [last];
      CountAppend(init, last);
      CountAppend(init, Run(last.run.(content := last.run.content + element.run.content)));
    } else {
      CountAppend(merged, element);
    }
  }

  function ProcessInlines(raw: seq<Inline>): seq<Inline>
    decreases Count(raw), 2
  {
    MergeCount([], raw);
    ProcessEach(MergeFrom([], raw))
  }

  function ProcessEach(content: seq<Inline>): seq<Inline>
    decreases Count(content), 1, |content|
  {
    if content == [] then []
    else [ProcessElement(content[0])] + ProcessEach(content[1..])
  }

  function ProcessElement(element: Inline): Inline
    decreases CountOne(element), 0
  {
    match element
    case Run(_) => element
    case Link(targetId, targetExists, content) => Link(targetId, targetExists, ProcessInlines(content))
    case ExternalLink(url, content) => ExternalLink(url, ProcessInlines(content))
  }

  /** `merge_adjacent_text_runs`. */
  method MergeAdjacentTextRuns(inlines: seq<Inline>) returns (merged: seq<Inline>)
    ensures merged == MergeFrom([], inlines)
  {
    merged := [];
    for k := 0 to |inlines|
      invariant MergeFrom([], inlines) == MergeFrom(merged, inlines[k..])
    {
      var element := inlines[k];
      assert inlines[k..][0] == element && inlines[k..][1..] == inlines[k + 1..];
      if element.Run? && merged != [] && merged[|merged| - 1].Run? {
        var last := merged[|merged| - 1].run;
        if last.bold == element.run.bold && last.italic == element.run.italic
           && last.strikethrough == element.run.strikethrough && last.code == element.run.code {
          merged := merged[..|merged| - 1] + [Run(last.(content := last.content + element.run.content))];
          continue;
        }
      }
      merged := merged + [element];
    }
  }

  // ----- what processing keeps

  /** A character as the reader sees it: its style, and the links around it. */
  datatype Styled = Styled(c: char, bold: bool, italic: bool, strikethrough: bool, code: bool, links: seq<Target>)
  datatype Target = ToNote(id: string, exists_: bool) | ToUrl(url: string)

  function StyledRun(run: TextRun, text: string, links: seq<Target>): seq<Styled> {
    if text == "" then []
    else [Styled(text[0], run.bold, run.italic, run.strikethrough, run.code, links)] + StyledRun(run, text[1..], links)
  }

  function StyledText(content: seq<Inline>, links: seq<Target>): seq<Styled>
    decreases Count(content), 1, |content|
  {
    if content == [] then [] else StyledElement(content[0], links) + StyledText(content[1..], links)
  }

  function StyledElement(element: Inline, links: seq<Target>): seq<Styled>
    decreases CountOne(element), 0
  {
    match element
    case Run(run) => StyledRun(run, run.content, links)
    case Link(targetId, targetExists, content) => StyledText(content, links + [ToNote(targetId, targetExists)])
    case ExternalLink(url, content) => StyledText(content, links + [ToUrl(url)])
  }

  lemma {:induction false} StyledRunConcat(run: TextRun, s: string, t: string, links: seq<Target>)
    ensures StyledRun(run, s + t, links) == StyledRun(run, s, links) + StyledRun(run, t, links)
  {
    if s == "" {
      assert s + t == t;
    } else {
      assert (s + t)[1..] == s[1..] + t;
      StyledRunConcat(run, s[1..], t, links);
    }
  }

  lemma {:induction false} SameStyleSameRun(a: TextRun, b: TextRun, text: string, links: seq<Target>)
    requires SameStyle(a, b)
    ensures StyledRun(a, text, links) == StyledRun(b, text, links)
  {
    if text != "" { SameStyleSameRun(a, b, text[1..], links); }
  }

  lemma {:induction false} StyledConcat(a: seq<Inline>, b: seq<Inline>, links: seq<Target>)
    ensures StyledText(a + b, links) == StyledText(a, links) + StyledText(b, links)
    decreases |a|
  {
    if a == [] {
      assert a + b == b;
    } else {
      assert (a + b)[0] == a[0] && (a + b)[1..] == a[1..] + b;
      StyledConcat(a[1..], b, links);
    }
  }

  lemma StyledOne(e: Inline, links: seq<Target>)
    ensures StyledText([e], links) == StyledElement(e, links)
  {
    assert [e][1..] == [];
    assert StyledText([e], links) == StyledElement(e, links) + StyledText([], links);
  }

  lemma StyledNone(links: seq<Target>)
    ensures StyledText([], links) == []
  {
  }

  lemma MergeOneStyled(merged: seq<Inline>, e: Inline, links: seq<Target>)
    ensures StyledText(MergeOne(merged, e), links) == StyledText(merged, links) + StyledElement(e, links)
  {
    hide StyledText, StyledElement;
    if Extends(merged, e) {
      var init, last := merged[..|merged| - 1], merged[|merged| - 1];
      assert merged == init + [last];
      JoinedStyled(last.run, e.run, links);
      var joined := Run(last.run.(content := last.run.content + e.run.content));
      assert MergeOne(merged, e) == init + [joined];
      StyledAppend(init, last, links);
      StyledAppend(init, joined, links);
    } else {
      StyledAppend(merged, e, links);
    }
  }

  lemma StyledAppend(a: seq<Inline>, e: Inline, links: seq<Target>)
    ensures StyledText(a + [e], links) == StyledText(a, links) + StyledElement(e, links)
  {
    StyledConcat(a, [e], links);
    StyledOne(e, links);
  }

  lemma JoinedStyled(last: TextRun, run: TextRun, links: seq<Target>)
    requires SameStyle(last, run)
    ensures StyledElement(Run(last.(content := last.content + run.content)), links)
            == StyledElement(Run(last), links) + StyledElement(Run(run), links)
  {
    var joined := last.(content := last.content + run.content);
    StyledRunConcat(joined, last.content, run.content, links);
    SameStyleSameRun(joined, last, last.content, links);
    SameStyleSameRun(joined, run, run.content, links);
  }

  lemma {:induction false} MergeStyled(merged: seq<Inline>, rest: seq<Inline>, links: seq<Target>)
    ensures StyledText(MergeFrom(merged, rest), links) == StyledText(merged, links) + StyledText(rest, links)
    decreases |rest|
  {
    hide StyledText, StyledElement, MergeOne;
    if rest == [] {
      StyledNone(links);
    } else {
      MergeOneStyled(merged, rest[0], links);
      MergeStyled(MergeOne(merged, rest[0]), rest[1..], links);
      StyledConcat([rest[0]], rest[1..], links);
      StyledOne(rest[0], links);
      assert rest == [rest[0]] + rest[1..];
    }
  }

  /** Processing keeps every character with its style and its links, in order. */
  lemma {:induction false} ProcessKeepsStyles(raw: seq<Inline>, links: seq<Target>)
    ensures StyledText(ProcessInlines(raw), links) == StyledText(raw, links)
    decreases Count(raw), 2
  {
    MergeCount([], raw);
    MergeStyled([], raw, links);
    assert StyledText([], links) == [];
    ProcessEachKeeps(MergeFrom([], raw), links);
  }

  lemma {:induction false} ProcessEachKeeps(content: seq<Inline>, links: seq<Target>)
    ensures StyledText(ProcessEach(content), links) == StyledText(content, links)
    decreases Count(content), 1, |content|
  {
    if content != [] {
      var e := content[0];
      ProcessElementKeeps(e, links);
      ProcessEachKeeps(content[1..], links);
      var r := [ProcessElement(e)] + ProcessEach(content[1..]);
      assert r[1..] == ProcessEach(content[1..]);
    }
  }

  lemma {:induction false} ProcessElementKeeps(e: Inline, links: seq<Target>)
    ensures StyledElement(ProcessElement(e), links) == StyledElement(e, links)
    decreases CountOne(e), 0
  {
    match e
    case Run(_) =>
    case Link(targetId, targetExists, content) => ProcessKeepsStyles(content, links + [ToNote(targetId, targetExists)]);
    case ExternalLink(url, content) => ProcessKeepsStyles(content, links + [ToUrl(url)]);
  }

  function Plain(styled: seq<Styled>): string {
    if styled == [] then "" else [styled[0].c] + Plain(styled[1..])
  }

  lemma {:induction false} PlainConcat(a: seq<Styled>, b: seq<Styled>)
    ensures Plain(a + b) == Plain(a) + Plain(b)
  {
    if a == [] {
      assert a + b == b;
    } else {
      assert (a + b)[1..] == a[1..] + b;
      PlainConcat(a[1..], b);
    }
  }

  lemma {:induction false} PlainRun(run: TextRun, text: string, links: seq<Target>)
    ensures Plain(StyledRun(run, text, links)) == text
  {
    if text != "" {
      PlainRun(run, text[1..], links);
      assert StyledRun(run, text, links)[1..] == StyledRun(run, text[1..], links);
    }
  }

  /** The rendered text is the styled text without its styles. */
  lemma {:induction false} PlainIsText(content: seq<Inline>, links: seq<Target>)
    ensures Plain(StyledText(content, links)) == InlineText(content)
    decreases Count(content), 1, |content|
  {
    if content != [] {
      PlainElement(content[0], links);
      PlainIsText(content[1..], links);
      PlainConcat(StyledElement(content[0], links), StyledText(content[1..], links));
    }
  }

  lemma {:induction false} PlainElement(e: Inline, links: seq<Target>)
    ensures Plain(StyledElement(e, links)) == ElementText(e)
    decreases CountOne(e), 0
  {
    match e
    case Run(run) => PlainRun(run, run.content, links);
    case Link(targetId, targetExists, content) => PlainIsText(content, links + [ToNote(targetId, targetExists)]);
    case ExternalLink(url, content) => PlainIsText(content, links + [ToUrl(url)]);
  }

  /** So it keeps the rendered text. */
  lemma ProcessKeepsText(raw: seq<Inline>)
    ensures InlineText(ProcessInlines(raw)) == InlineText(raw)
  {
    ProcessKeepsStyles(raw, []);
    PlainIsText(raw, []);
    PlainIsText(ProcessInlines(raw), []);
  }

  // ----- and what it achieves

  /** No two neighbouring runs could still be merged, at any depth. */
  ghost predicate Merged(content: seq<Inline>)
    decreases Count(content), 1, |content|
  {
    content == [] ||
    (MergedElement(content[0]) && Merged(content[1..]) &&
     (|content| > 1 && content[0].Run? && content[1].Run? ==> !SameStyle(content[0].run, content[1].run)))
  }

  ghost predicate MergedElement(element: Inline)
    decreases CountOne(element), 0
  {
    match element
    case Run(_) => true
    case Link(_, _, content) => Merged(content)
    case ExternalLink(_, content) => Merged(content)
  }

  ghost predicate NoneMerge(content: seq<Inline>) {
    forall k :: 0 < k < |content| && content[k - 1].Run? && content[k].Run? ==>
      !SameStyle(content[k - 1].run, content[k].run)
  }

  lemma {:induction false} MergeApart(merged: seq<Inline>, rest: seq<Inline>)
    requires NoneMerge(merged)
    ensures NoneMerge(MergeFrom(merged, rest))
    decreases |rest|
  {
    if rest != [] { MergeApart(MergeOne(merged, rest[0]), rest[1..]); }
  }

  lemma {:induction false} ProcessMerges(raw: seq<Inline>)
    ensures Merged(ProcessInlines(raw))
    decreases Count(raw), 2
  {
    MergeCount([], raw);
    MergeApart([], raw);
    ProcessEachMerges(MergeFrom([], raw));
  }

  lemma {:induction false} ProcessEachMerges(content: seq<Inline>)
    requires NoneMerge(content)
    ensures Merged(ProcessEach(content))
    decreases Count(content), 1, |content|
  {
    if content != [] {
      ProcessElementMerges(content[0]);
      ProcessEachMerges(content[1..]);
      var r := [ProcessElement(content[0])] + ProcessEach(content[1..]);
      assert r[1..] == ProcessEach(content[1..]);
      if |content| > 1 { assert r[1] == ProcessElement(content[1]); }
    }
  }

  lemma {:induction false} ProcessElementMerges(e: Inline)
    ensures MergedElement(ProcessElement(e))
    decreases CountOne(e), 0
  {
    match e
    case Run(_) =>
    case Link(_, _, content) => ProcessMerges(content);
    case ExternalLink(_, content) => ProcessMerges(content);
  }
}
