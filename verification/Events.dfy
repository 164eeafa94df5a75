/** The Markdown parser's output: tags, events and the source ranges they carry. */
module Events {
  import opened Text

  datatype LinkTarget = Internal(id: string) | External(url: string)

  /** A tag, with what the builder reads of it. Link destinations are already classified. */
  datatype Tag =
    | MetadataTag
    | HeadingTag(level: nat)
    | ParagraphTag
    | BlockQuoteTag
    | ListTag(start: Option<nat>)
    | ItemTag
    | FencedTag(info: string)
    | IndentedTag
    | LinkTag(target: LinkTarget)
    | ImageTag(url: string)
    | StrongTag
    | EmphasisTag
    | StrikethroughTag
    | OtherTag(name: string)

  datatype TagEnd =
    | MetadataEnd | HeadingEnd | ParagraphEnd | BlockQuoteEnd | ListEnd | ItemEnd | CodeBlockEnd
    | LinkEnd | ImageEnd | StrongEnd | EmphasisEnd | StrikethroughEnd | OtherEnd(name: string)

  function EndOf(tag: Tag): TagEnd {
    match tag
    case MetadataTag => MetadataEnd
    case HeadingTag(_) => HeadingEnd
    case ParagraphTag => ParagraphEnd
    case BlockQuoteTag => BlockQuoteEnd
    case ListTag(_) => ListEnd
    case ItemTag => ItemEnd
    case FencedTag(_) => CodeBlockEnd
    case IndentedTag => CodeBlockEnd
    case LinkTag(_) => LinkEnd
    case ImageTag(_) => ImageEnd
    case StrongTag => StrongEnd
    case EmphasisTag => EmphasisEnd
    case StrikethroughTag => StrikethroughEnd
    case OtherTag(name) => OtherEnd(name)
  }

  datatype Event =
    | StartEvent(tag: Tag, range: Range)
    | EndEvent(tagEnd: TagEnd, range: Range)
    | TextEvent(text: string, range: Range)
    | CodeEvent(text: string, range: Range)
    | RuleEvent(range: Range)
    | BreakEvent(range: Range)
    | TaskEvent(checked: bool, range: Range)
    | OtherEvent(range: Range)

  /** `char::is_whitespace`: the Unicode White_Space property. */
  predicate IsWhitespace(c: char) {
    var n := c as int;
    0x09 <= n <= 0x0D || n == 0x20 || n == 0x85 || n == 0xA0 || n == 0x1680 || 0x2000 <= n <= 0x200A
    || n == 0x2028 || n == 0x2029 || n == 0x202F || n == 0x205F || n == 0x3000
  }

  function TrimStart(s: string): string {
    if s != "" && IsWhitespace(s[0]) then TrimStart(s[1..]) else s
  }

  function TrimEnd(s: string): string {
    if s != "" && IsWhitespace(s[|s| - 1]) then TrimEnd(s[..|s| - 1]) else s
  }

  function Trim(s: string): string {
    TrimEnd(TrimStart(s))
  }

  ghost predicate Blank(s: string) {
    forall i :: 0 <= i < |s| ==> IsWhitespace(s[i])
  }

  lemma {:induction false} TrimStartCuts(s: string) returns (before: string)
    ensures s == before + TrimStart(s) && Blank(before)
    ensures TrimStart(s) != "" ==> !IsWhitespace(TrimStart(s)[0])
  {
    if s != "" && IsWhitespace(s[0]) {
      var rest := TrimStartCuts(s[1..]);
      before := [s[0]] + rest;
      assert s == [s[0]] + s[1..];
    } else {
      before := "";
    }
  }

  lemma {:induction false} TrimEndCuts(s: string) returns (after: string)
    ensures s == TrimEnd(s) + after && Blank(after)
    ensures TrimEnd(s) != "" ==> !IsWhitespace(TrimEnd(s)[|TrimEnd(s)| - 1])
  {
    if s != "" && IsWhitespace(s[|s| - 1]) {
      var rest := TrimEndCuts(s[..|s| - 1]);
      after := rest + [s[|s| - 1]];
      assert s == s[..|s| - 1] + [s[|s| - 1]];
    } else {
      after := "";
    }
  }

  /** Trimming takes whitespace off both ends, all of it, and nothing else. */
  lemma TrimCuts(s: string) returns (before: string, after: string)
    ensures s == before + Trim(s) + after && Blank(before) && Blank(after)
    ensures Trim(s) != "" ==> !IsWhitespace(Trim(s)[0]) && !IsWhitespace(Trim(s)[|Trim(s)| - 1])
  {
    hide TrimStart, TrimEnd, IsWhitespace;
    before := TrimStartCuts(s);
    after := TrimEndCuts(TrimStart(s));
    assert before + (Trim(s) + after) == before + Trim(s) + after;
  }
}
