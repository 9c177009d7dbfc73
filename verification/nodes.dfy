/** The document tree and the printers that turn it back into template text. */
module Nodes {
  import opened Wrappers
  import opened JString
  import opened Elements

  /** A node's child list, which does not exist until the first child is added. */
  datatype ChildList = NoList | List(nodes: seq<Node>)

  /** A node and its child list. A FOR loop's variable is an
      element built from a variable chunk; its step is `None` in the
      three-argument form. */
  datatype Node =
    | DocumentNode(kids: ChildList)
    | TextNode(text: string, kids: ChildList)
    | EchoNode(elements: seq<Element>, kids: ChildList)
    | ForLoopNode(variable: Element, start: Element, end: Element, step: Option<Element>, kids: ChildList)

  datatype NodeError =
    | IllegalArgument   // a null child
    | NullPointer       // getChild before any child was added
    | IndexOutOfBounds  // getChild outside 0..n-1

  /** The children in the order they were added. */
  function Children(n: Node): seq<Node> {
    match n.kids
    case NoList => []
    case List(ns) => ns
  }

  function NumberOfChildren(n: Node): (k: nat)
    ensures n.kids.NoList? ==> k == 0
    ensures k == |Children(n)|
  {
    match n.kids
    case NoList => 0
    case List(cs) => |cs|
  }

  /** addChildNode: creates the list on first use, then appends; a null child is
      refused by the list, which stays created. */
  function AddChild(n: Node, child: Option<Node>): (r: (Node, Option<NodeError>))
    ensures r.0.kids.List?
    ensures child.None? ==> r.1 == Some(IllegalArgument) && Children(r.0) == Children(n)
    ensures child.Some? ==> r.1.None? && Children(r.0) == Children(n) + [child.value]
    ensures child.Some? ==> NumberOfChildren(r.0) == NumberOfChildren(n) + 1
    ensures r.0 == n.(kids := r.0.kids)
  {
    var cs := Children(n);
    match child
    case None => (n.(kids := List(cs)), Some(IllegalArgument))
    case Some(c) => (n.(kids := List(cs + [c])), None)
  }

  /** getChild: the child added `index`-th; fails with a null pointer before any
      child was added, and with an index error outside 0..n-1. */
  function GetChild(n: Node, index: int): (r: Result<Node, NodeError>)
    ensures n.kids.NoList? <==> r == Err(NullPointer)
    ensures r.Ok? <==> n.kids.List? && 0 <= index < NumberOfChildren(n)
    ensures r.Ok? ==> r.value == Children(n)[index]
    ensures r.Err? && n.kids.List? ==> r.error == IndexOutOfBounds
  {
    match n.kids
    case NoList => Err(NullPointer)
    case List(cs) => if 0 <= index < |cs| then Ok(cs[index]) else Err(IndexOutOfBounds)
  }

  /** The children added one after another end up in that order. */
  lemma {:induction false} AddChildrenInOrder(n: Node, cs: seq<Node>)
    ensures Children(AddAll(n, cs)) == Children(n) + cs
    decreases |cs|
  {
    if |cs| > 0 {
      var m := AddChild(n, Some(cs[0])).0;
      AddChildrenInOrder(m, cs[1..]);
      assert Children(n) + [cs[0]] + cs[1..] == Children(n) + cs;
    }
  }

  /** After adding `cs`, getChild finds them at the positions after the
      children that were already there. */
  lemma AddedChildrenFound(n: Node, cs: seq<Node>, i: int)
    requires 0 <= i < |cs|
    ensures GetChild(AddAll(n, cs), NumberOfChildren(n) + i) == Ok(cs[i])
  {
    AddChildrenInOrder(n, cs);
    AddedListExists(n, cs);
  }

  /** Adding at least one child creates the list. */
  lemma {:induction false} AddedListExists(n: Node, cs: seq<Node>)
    requires |cs| > 0
    ensures AddAll(n, cs).kids.List?
    decreases |cs|
  {
    if |cs| > 1 {
      AddedListExists(AddChild(n, Some(cs[0])).0, cs[1..]);
    }
  }

  /** `n` after addChildNode of every node of `cs`, in order. */
  function AddAll(n: Node, cs: seq<Node>): Node
    decreases |cs|
  {
    if |cs| == 0 then n else AddAll(AddChild(n, Some(cs[0])).0, cs[1..])
  }

  // ---------------------------------------------------------------------------
  // Printers

  /** TextNode.toString: every `{$` gets a backslash in front. */
  function TextToString(text: string): string {
    Replace(text, "{$", "\\{$")
  }

  /** The number of places where `{$` starts in `s`. */
  function TagEntries(s: string): nat {
    if |s| < 2 then 0
    else (if s[0] == '{' && s[1] == '$' then 1 else 0) + TagEntries(s[1..])
  }

  /** On two or more characters, starting with `{$` is a test of the first two. */
  lemma TagEntryAtFront(s: string)
    requires |s| >= 2
    ensures StartsWith(s, "{$") <==> s[0] == '{' && s[1] == '$'
  {
    if s[0] == '{' && s[1] == '$' {
      assert s[..2] == "{$";
    }
  }

  /** Escaping adds exactly one character per `{$`, and leaves text without
      `{$` unchanged. */
  lemma {:induction false} TextToStringLength(text: string)
    ensures |TextToString(text)| == |text| + TagEntries(text)
    ensures TagEntries(text) == 0 ==> TextToString(text) == text
    decreases |text|
  {
    if |text| > 0 {
      if StartsWith(text, "{$") {
        TextToStringLength(text[2..]);
        assert text[1..][1..] == text[2..];
        assert TagEntries(text[1..]) == TagEntries(text[2..]);
      } else {
        TextToStringLength(text[1..]);
        if |text| >= 2 {
          TagEntryAtFront(text);
        }
      }
    }
  }

  /** The texts of `es`, each followed by one space. */
  function SpacedTexts(es: seq<Element>): string {
    if |es| == 0 then "" else AsText(es[0]) + " " + SpacedTexts(es[1..])
  }

  /** EchoNode.toString. */
  function EchoToString(es: seq<Element>): string {
    "{$= " + SpacedTexts(es) + "$}"
  }

  /** The opening tag ForLoopNode.toString prints. */
  function ForHeader(variable: Element, start: Element, end: Element, step: Option<Element>): string {
    "{$ for " + AsText(variable) + " " + AsText(start) + " " + AsText(end) + " "
      + (match step case Some(s) => AsText(s) + " " case None => "") + "$}"
  }

  /** toString of any node. A loop prints its header, its children, a line
      separator unless the text so far ends in a newline, and `{$END$}`. A
      document prints its children one after another, as the tree writer does. */
  function NodeToString(n: Node): string
    decreases n, 1, 0
  {
    match n
    case TextNode(t, _) => TextToString(t)
    case EchoNode(es, _) => EchoToString(es)
    case DocumentNode(_) => ChildrenToString(n, 0)
    case ForLoopNode(v, s, e, st, _) =>
      CloseLoop(ForHeader(v, s, e, st) + ChildrenToString(n, 0))
  }

  /** The end of a loop's text: a line separator unless the text so far already
      ends in a newline, then `{$END$}`. */
  function CloseLoop(sofar: string): string
    requires |sofar| > 0
  {
    sofar + (if sofar[|sofar| - 1] != '\n' then LineSeparator else "") + "{$END$}"
  }

  /** The children of `n` from position `from` on, printed one after another. */
  function ChildrenToString(n: Node, from: nat): string
    decreases n, 0, |Children(n)| - from
  {
    if from >= |Children(n)| then ""
    else
      assert Children(n)[from] < n by {
        assert n.kids.nodes[from] in n.kids.nodes;
      }
      NodeToString(Children(n)[from]) + ChildrenToString(n, from + 1)
  }

  /** A concatenation starts with its first part and ends with its second. */
  lemma ConcatEnds(a: string, b: string)
    ensures StartsWith(a + b, a) && EndsWith(a + b, b)
  {
    assert (a + b)[..|a|] == a;
    assert (a + b)[|a + b| - |b|..] == b;
  }

  /** A loop's text starts with its header, ends with `{$END$}`, and, with no
      children, is the header, a line separator and `{$END$}`. */
  lemma ForLoopShape(v: Element, s: Element, e: Element, st: Option<Element>, cs: ChildList)
    ensures var n := ForLoopNode(v, s, e, st, cs);
      StartsWith(NodeToString(n), ForHeader(v, s, e, st)) && EndsWith(NodeToString(n), "{$END$}")
    ensures |Children(ForLoopNode(v, s, e, st, cs))| == 0 ==>
      NodeToString(ForLoopNode(v, s, e, st, cs)) == ForHeader(v, s, e, st) + LineSeparator + "{$END$}"
  {
    var n := ForLoopNode(v, s, e, st, cs);
    var h := ForHeader(v, s, e, st);
    HeaderEnd(v, s, e, st);
    CloseLoopShape(h, ChildrenToString(n, 0));
  }

  /** A header is a complete tag: it ends in `}`. */
  lemma HeaderEnd(v: Element, s: Element, e: Element, st: Option<Element>)
    ensures var h := ForHeader(v, s, e, st); |h| >= 2 && h[|h| - 1] == '}'
  {
  }

  /** Closing a loop keeps its opening and ends in `{$END$}`; when nothing
      follows a header ending in `}`, a line separator goes in between. */
  lemma CloseLoopShape(h: string, body: string)
    requires |h| > 0
    ensures StartsWith(CloseLoop(h + body), h) && EndsWith(CloseLoop(h + body), "{$END$}")
    ensures body == [] && h[|h| - 1] == '}' ==> CloseLoop(h + body) == h + LineSeparator + "{$END$}"
  {
    var sofar := h + body;
    var sep := if sofar[|sofar| - 1] != '\n' then LineSeparator else "";
    assert CloseLoop(sofar) == sofar + sep + "{$END$}";
    CloseLoopEnds(h, body, sep);
    if body == [] {
      assert sofar == h;
    }
  }

  /** Whatever goes in between, `h + body`, a separator and `{$END$}` start with
      `h` and end with `{$END$}`. */
  lemma CloseLoopEnds(h: string, body: string, sep: string)
    ensures StartsWith(h + body + sep + "{$END$}", h) && EndsWith(h + body + sep + "{$END$}", "{$END$}")
  {
    ConcatEnds(h + body + sep, "{$END$}");
    ConcatEnds(h, body + sep + "{$END$}");
    assert h + body + sep + "{$END$}" == h + (body + sep + "{$END$}");
  }
}
