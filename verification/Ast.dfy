/** The AST the parser builds, and the rendered text of its nodes. */
module Ast {
  import opened Text
  import opened Paths

  datatype TextRun = TextRun(content: string, bold: bool, italic: bool, strikethrough: bool, code: bool)

  datatype Inline =
    | Run(run: TextRun)
    | Link(targetId: string, targetExists: bool, content: seq<Inline>)
    | ExternalLink(url: string, content: seq<Inline>)

  datatype AstNode =
    | Heading(level: nat, inlines: seq<Inline>)
    | Paragraph(inlines: seq<Inline>)
    | List(ordered: bool, items: seq<AstNode>)
    | ListItem(nodes: seq<AstNode>, checked: Option<bool>)
    | Blockquote(nodes: seq<AstNode>)
    | CodeBlock(language: Option<string>, code: string)
    | ThematicBreak
    | Image(altText: string, url: string)
    | Suggestion(base: MaybeNodes, local: seq<AstNode>, incoming: seq<AstNode>)

  datatype MaybeNodes = NoNodes | SomeNodes(nodes: seq<AstNode>)

  // ----- rendered text

  function InlineText(content: seq<Inline>): string
    decreases content, 0
  {
    if content == [] then "" else ElementText(content[0]) + InlineText(content[1..])
  }

  function ElementText(element: Inline): string
    decreases element, 1
  {
    match element
    case Run(run) => run.content
    case Link(_, _, content) => InlineText(content)
    case ExternalLink(_, content) => InlineText(content)
  }

  /** The rendered text of a block; a container joins its children's with one newline. */
  function RenderedText(node: AstNode): string
    decreases node, 1
  {
    match node
    case Heading(_, inlines) => InlineText(inlines)
    case Paragraph(inlines) => InlineText(inlines)
    case List(_, items) => JoinRendered(items)
    case ListItem(nodes, _) => JoinRendered(nodes)
    case Blockquote(nodes) => JoinRendered(nodes)
    case CodeBlock(_, code) => code
    case ThematicBreak => ""
    case Image(altText, _) => altText
    case Suggestion(base, local, incoming) =>
      JoinTexts((if base.SomeNodes? then Texts(base.nodes) else []) + Texts(local) + Texts(incoming))
  }

  function JoinRendered(nodes: seq<AstNode>): string
    decreases nodes, 1
  {
    JoinTexts(Texts(nodes))
  }

  function Texts(nodes: seq<AstNode>): (r: seq<string>)
    ensures |r| == |nodes|
    decreases nodes, 0
  {
    if nodes == [] then [] else [RenderedText(nodes[0])] + Texts(nodes[1..])
  }

  function JoinTexts(texts: seq<string>): string {
    if texts == [] then ""
    else if |texts| == 1 then texts[0]
    else texts[0] + "\n" + JoinTexts(texts[1..])
  }

  lemma {:induction false} InlineTextConcat(a: seq<Inline>, b: seq<Inline>)
    ensures InlineText(a + b) == InlineText(a) + InlineText(b)
  {
    if a == [] {
      assert a + b == b;
    } else {
      assert (a + b)[0] == a[0] && (a + b)[1..] == a[1..] + b;
      InlineTextConcat(a[1..], b);
    }
  }

  lemma InlineTextAppend(a: seq<Inline>, e: Inline)
    ensures InlineText(a + [e]) == InlineText(a) + ElementText(e)
  {
    InlineTextConcat(a, [e]);
    assert [e][1..] == [];
  }

  // ----- addressing a node by its path

  predicate IsContainer(node: AstNode) {
    node.List? || node.ListItem? || node.Blockquote?
  }

  /** The blocks a block's path continues into. */
  function Kids(node: AstNode): seq<AstNode> {
    match node
    case List(_, items) => items
    case ListItem(nodes, _) => nodes
    case Blockquote(nodes) => nodes
    case _ => []
  }

  /** The node a block path leads to. */
  function Walk(nodes: seq<AstNode>, path: BlockPath): Option<AstNode>
    decreases |path|
  {
    if path == [] || path[0] >= |nodes| then None
    else if |path| == 1 then Some(nodes[path[0]])
    else Walk(Kids(nodes[path[0]]), path[1..])
  }

  /** Appending a node changes no path that led somewhere. */
  lemma WalkAppend(nodes: seq<AstNode>, node: AstNode, path: BlockPath)
    requires Walk(nodes, path).Some?
    ensures Walk(nodes + [node], path) == Walk(nodes, path)
  {
  }

  lemma WalkLast(nodes: seq<AstNode>, node: AstNode, rest: BlockPath)
    requires Walk(Kids(node), rest).Some?
    ensures Walk(nodes + [node], [|nodes|] + rest) == Walk(Kids(node), rest)
  {
    var p := [|nodes|] + rest;
    assert p[1..] == rest;
  }
}
