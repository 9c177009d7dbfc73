/** The tree-level round trip: a document printed the way the tree writer
    prints it parses back into the same document, for every tree of the shape
    the parser itself builds. The proof walks the printed text node by node,
    keeping the parser's scope stack in step with the tree. */
module TreeRoundTrip {
  import opened Wrappers
  import opened JString
  import opened Elements
  import opened Nodes
  import opened Lexer
  import opened Parser
  import opened RoundTrip

  // ---------------------------------------------------------------------------
  // Trees the printer and the parser agree on

  /** No two text nodes next to each other: the lexer would read them as one. */
  predicate NoAdjacentTexts(cs: seq<Node>) {
    forall k :: 0 <= k < |cs| - 1 ==> !(cs[k].TextNode? && cs[k + 1].TextNode?)
  }

  predicate EndsInNewline(t: string) {
    |t| > 0 && t[|t| - 1] == '\n'
  }

  /** A node as the parser builds it and as it prints back unchanged: text
      without backslashes, an echo of printable elements, and a loop of
      printable arguments whose body is not empty, has no adjacent texts and
      ends in a text ending in a newline, so that closing the loop inserts no
      line separator. Leaf nodes have no child list. */
  predicate CanonicalNode(c: Node)
    decreases c
  {
    match c
    case DocumentNode(_) => false
    case TextNode(t, kids) => kids == NoList && PrintableText(t)
    case EchoNode(es, kids) => kids == NoList && |es| > 0 && forall k :: 0 <= k < |es| ==> Printable(es[k])
    case ForLoopNode(v, s, e, st, kids) =>
      && ForTagPrintable(v, s, e, st)
      && kids.List? && |kids.nodes| > 0 && NoAdjacentTexts(kids.nodes)
      && (forall k :: 0 <= k < |kids.nodes| ==> CanonicalNode(kids.nodes[k]))
      && kids.nodes[|kids.nodes| - 1].TextNode? && EndsInNewline(kids.nodes[|kids.nodes| - 1].text)
  }

  /** A document the parser could have produced: no child list, or a non-empty
      one of canonical nodes without adjacent texts. */
  predicate CanonicalDocument(d: Node) {
    && d.DocumentNode?
    && (d.kids.NoList? || |d.kids.nodes| > 0)
    && NoAdjacentTexts(Children(d))
    && forall k :: 0 <= k < |Children(d)| ==> CanonicalNode(Children(d)[k])
  }

  /** `n` holding only its first `from` children, as the parser's scope stack
      holds it while the rest are still to come. */
  function WithKids(n: Node, from: nat): (r: Node)
    requires from <= |Children(n)|
    ensures Children(r) == Children(n)[..from]
    ensures r == n.(kids := r.kids)
  {
    n.(kids := if from == 0 then NoList else List(Children(n)[..from]))
  }

  /** With all its children back, a node without an empty list is itself. */
  lemma WithAllKids(n: Node)
    requires n.kids.NoList? || |n.kids.nodes| > 0
    ensures WithKids(n, |Children(n)|) == n
  {
    if n.kids.List? {
      assert Children(n)[..|Children(n)|] == n.kids.nodes;
    }
  }

  /** Adding the next child to the top scope gives the node with one more of
      its children; the bottom of the stack stays a document. */
  lemma AddNextKid(g: seq<Node>, n: Node, from: nat)
    requires |g| > 0 && g[0].DocumentNode? && from < |Children(n)| && g[|g| - 1] == WithKids(n, from)
    ensures AppendToTop(g, Children(n)[from]) == g[..|g| - 1] + [WithKids(n, from + 1)]
    ensures AppendToTop(g, Children(n)[from])[0].DocumentNode?
  {
    var r := AppendToTop(g, Children(n)[from]);
    assert Children(n)[..from] + [Children(n)[from]] == Children(n)[..from + 1];
    assert r[|r| - 1] == WithKids(n, from + 1);
    assert r == r[..|r| - 1] + [r[|r| - 1]];
  }

  // ---------------------------------------------------------------------------
  // Shapes of printed nodes

  /** Escaping keeps a final newline. */
  lemma {:induction false} TextLast(t: string)
    requires EndsInNewline(t)
    ensures EndsInNewline(TextToString(t))
    decreases |t|
  {
    if StartsWith(t, "{$") {
      assert |t| > 2;
      assert t[2..][|t[2..]| - 1] == t[|t| - 1];
      TextLast(t[2..]);
    } else if |t| > 1 {
      assert t[1..][|t[1..]| - 1] == t[|t| - 1];
      TextLast(t[1..]);
    }
  }

  /** The printed children end the way the last child's text ends. */
  lemma {:induction false} ChildrenLast(n: Node, from: nat)
    requires from < |Children(n)|
    requires |NodeToString(Children(n)[|Children(n)| - 1])| > 0
    ensures var s := ChildrenToString(n, from); var l := NodeToString(Children(n)[|Children(n)| - 1]);
      |s| > 0 && s[|s| - 1] == l[|l| - 1]
    decreases |Children(n)| - from
  {
    var a := NodeToString(Children(n)[from]);
    var rest := ChildrenToString(n, from + 1);
    assert ChildrenToString(n, from) == a + rest;
    if from + 1 < |Children(n)| {
      ChildrenLast(n, from + 1);
      LastOfConcat(a, rest);
    } else {
      assert a + rest == a;
    }
  }

  lemma LastOfConcat(a: string, b: string)
    requires |b| > 0
    ensures (a + b)[|a + b| - 1] == b[|b| - 1]
  {
  }

  /** After text ending in a newline, closing a loop adds only `{$END$}`. */
  lemma CloseAfterNewline(h: string, b: string)
    requires |b| > 0 && b[|b| - 1] == '\n'
    ensures CloseLoop(h + b) == h + b + "{$END$}"
  {
    assert (h + b)[|h + b| - 1] == b[|b| - 1];
  }

  /** The last child of `c` is a text ending in a newline. */
  predicate LastIsLine(c: Node) {
    |Children(c)| > 0 && Children(c)[|Children(c)| - 1].TextNode?
    && EndsInNewline(Children(c)[|Children(c)| - 1].text)
  }

  /** A loop whose last child is a line prints as its header, its children and
      `{$END$}`, with no separator in between. */
  lemma LoopPrinted(c: Node)
    requires c.ForLoopNode? && LastIsLine(c)
    ensures NodeToString(c) == ForHeader(c.variable, c.start, c.end, c.step) + ChildrenToString(c, 0) + "{$END$}"
  {
    var cs := Children(c);
    var last := cs[|cs| - 1];
    TextLast(last.text);
    assert NodeToString(last) == TextToString(last.text);
    ChildrenLast(c, 0);
    CloseAfterNewline(ForHeader(c.variable, c.start, c.end, c.step), ChildrenToString(c, 0));
  }

  /** What a canonical loop says about its parts. */
  lemma CanonicalLoop(c: Node)
    requires CanonicalNode(c) && c.ForLoopNode?
    ensures ForTagPrintable(c.variable, c.start, c.end, c.step)
    ensures c.kids.List? && |Children(c)| > 0 && LastIsLine(c) && NoAdjacentTexts(Children(c))
    ensures forall k :: 0 <= k < |Children(c)| ==> CanonicalNode(Children(c)[k])
  {
  }

  /** An echo or a loop prints starting with `{$`. */
  lemma TagStart(c: Node)
    requires c.EchoNode? || c.ForLoopNode?
    ensures var s := NodeToString(c); |s| >= 2 && s[0] == '{' && s[1] == '$'
  {
    if c.ForLoopNode? {
      var h := ForHeader(c.variable, c.start, c.end, c.step);
      var b := ChildrenToString(c, 0);
      assert NodeToString(c) == CloseLoop(h + b);
      CloseLoopShape(h, b);
      assert h[0] == '{' && h[1] == '$';
      assert NodeToString(c)[..|h|] == h;
      assert NodeToString(c)[0] == h[0] && NodeToString(c)[1] == h[1];
    }
  }

  // ---------------------------------------------------------------------------
  // Parsing one tag

  /** An echo's text is a tag around `=` and its elements. */
  lemma EchoShape(t: string)
    ensures "{$= " + t + "$}" == "{$" + ("= " + t) + "$}"
  {
    assert "{$= " == "{$" + "= ";
  }

  /** A printed echo is a tag whose content resolves to the echo added to the
      innermost scope. */
  lemma EchoTag(es: seq<Element>, g: seq<Node>)
    requires |es| > 0 && (forall k :: 0 <= k < |es| ==> Printable(es[k])) && |g| > 0
    ensures var inner := "= " + SpacedTexts(es);
      && EchoToString(es) == "{$" + inner + "$}" && |inner| > 0 && NoTagExit(inner)
      && ResolveTag(GetTagChunks(Trim(inner)), g) == Ok(AppendToTop(g, EchoNode(es, NoList)))
  {
    var ws := EchoWords(es);
    EchoShape(SpacedTexts(es));
    EchoContent(es);
    EchoWordsPrintable(es);
    PaddedNoExit(ws);
    JoinedTrim(ws);
    EchoResolves(es, g);
  }

  /** A printed echo adds the echo to the innermost scope. */
  lemma EchoSteps(data: string, i: nat, es: seq<Element>, g: seq<Node>, j: nat)
    requires |es| > 0 && (forall k :: 0 <= k < |es| ==> Printable(es[k]))
    requires PrintedAt(data, i, EchoToString(es)) && j == i + |EchoToString(es)| && Frames(g)
    ensures Frames(AppendToTop(g, EchoNode(es, NoList)))
    ensures Steps(data, i, g, j, AppendToTop(g, EchoNode(es, NoList)))
  {
    EchoTag(es, g);
    TagSteps(data, i, "= " + SpacedTexts(es), g, AppendToTop(g, EchoNode(es, NoList)), j);
  }

  /** A printed loop header is a tag whose content resolves to a new scope for
      the loop. */
  lemma ForTag(v: Element, s: Element, e: Element, st: Option<Element>, g: seq<Node>)
    requires ForTagPrintable(v, s, e, st) && |g| > 0
    ensures var inner := " " + Join(ForWords(v, s, e, st), ' ') + " ";
      && ForHeader(v, s, e, st) == "{$" + inner + "$}" && |inner| > 0 && NoTagExit(inner)
      && ResolveTag(GetTagChunks(Trim(inner)), g) == Ok(g + [ForLoopNode(v, s, e, st, NoList)])
  {
    ForHeaderContent(v, s, e, st);
    ForContent(v, s, e, st);
    ForResolves(v, s, e, st, g);
  }

  /** A printed loop header opens a new scope for the loop. */
  lemma ForOpenSteps(data: string, i: nat, v: Element, s: Element, e: Element, st: Option<Element>, g: seq<Node>, j: nat)
    requires ForTagPrintable(v, s, e, st)
    requires PrintedAt(data, i, ForHeader(v, s, e, st)) && j == i + |ForHeader(v, s, e, st)| && Frames(g)
    ensures Frames(g + [ForLoopNode(v, s, e, st, NoList)])
    ensures Steps(data, i, g, j, g + [ForLoopNode(v, s, e, st, NoList)])
  {
    var inner := " " + Join(ForWords(v, s, e, st), ' ') + " ";
    var g2 := g + [ForLoopNode(v, s, e, st, NoList)];
    assert ForHeader(v, s, e, st) == "{$" + inner + "$}" by {
      ForHeaderContent(v, s, e, st);
    }
    ForTag(v, s, e, st, g);
    TagSteps(data, i, inner, g, g2, j);
  }

  // ---------------------------------------------------------------------------
  // Parsing printed nodes

  /** Closing a scope pushed on top of `g` adds it to `g`'s innermost scope. */
  lemma CloseOnTop(g: seq<Node>, c: Node)
    requires |g| > 0
    ensures CloseScope(g + [c]) == AppendToTop(g, c)
  {
    assert (g + [c])[..|g|] == g;
  }

  /** The pieces of a printed loop, and where they lie. */
  lemma LoopPieces(data: string, i: nat, c: Node, j1: nat, j2: nat, j: nat)
    requires c.ForLoopNode? && LastIsLine(c) && PrintedAt(data, i, NodeToString(c)) && j == i + |NodeToString(c)|
    requires j1 == i + |ForHeader(c.variable, c.start, c.end, c.step)| && j2 == j1 + |ChildrenToString(c, 0)|
    ensures PrintedAt(data, i, ForHeader(c.variable, c.start, c.end, c.step))
    ensures PrintedAt(data, j1, ChildrenToString(c, 0))
    ensures PrintedAt(data, j2, "{$END$}") && j == j2 + 7
  {
    var h := ForHeader(c.variable, c.start, c.end, c.step);
    var b := ChildrenToString(c, 0);
    LoopPrinted(c);
    assert NodeToString(c) == h + (b + "{$END$}");
    PrintedSplit(data, i, h, b + "{$END$}", j1);
    PrintedSplit(data, j1, b, "{$END$}", j2);
  }

  /** A printed `{$END$}` starts with a tag entry. */
  lemma EndIsTag(data: string, j: nat)
    requires PrintedAt(data, j, "{$END$}")
    ensures TagOrEnd(data, j)
  {
    PrintedChar(data, j, "{$END$}", 0);
    PrintedChar(data, j, "{$END$}", 1);
  }

  /** What follows a printed text child is a tag or whatever follows all the
      children. */
  lemma TextFollow(data: string, i: nat, n: Node, from: nat, j: nat)
    requires from < |Children(n)| && NoAdjacentTexts(Children(n))
    requires forall k :: from <= k < |Children(n)| ==> CanonicalNode(Children(n)[k])
    requires Children(n)[from].TextNode?
    requires PrintedAt(data, i, ChildrenToString(n, from + 1)) && j == i + |ChildrenToString(n, from + 1)|
    requires TagOrEnd(data, j)
    ensures TagOrEnd(data, i)
  {
    if from + 1 < |Children(n)| {
      var d := Children(n)[from + 1];
      assert CanonicalNode(d) && !d.TextNode?;
      TagStart(d);
      PrintedParts(data, i, NodeToString(d), ChildrenToString(n, from + 2));
      PrintedChar(data, i, NodeToString(d), 0);
      PrintedChar(data, i, NodeToString(d), 1);
    }
  }

  /** The header and the children of a printed loop open its scope and fill it
      with all its children. */
  lemma LoopOpenSteps(data: string, i: nat, c: Node, g: seq<Node>, j1: nat, j2: nat)
    requires c.ForLoopNode? && ForTagPrintable(c.variable, c.start, c.end, c.step) && Frames(g)
    requires c.kids.List? && |Children(c)| > 0 && NoAdjacentTexts(Children(c))
    requires forall k :: 0 <= k < |Children(c)| ==> CanonicalNode(Children(c)[k])
    requires PrintedAt(data, i, ForHeader(c.variable, c.start, c.end, c.step))
    requires j1 == i + |ForHeader(c.variable, c.start, c.end, c.step)|
    requires PrintedAt(data, j1, ChildrenToString(c, 0)) && j2 == j1 + |ChildrenToString(c, 0)|
    requires TagOrEnd(data, j2)
    ensures Frames(g + [c]) && Steps(data, i, g, j2, g + [c])
    decreases c, 1, 0
  {
    var g1 := g + [ForLoopNode(c.variable, c.start, c.end, c.step, NoList)];
    assert g1[|g1| - 1] == WithKids(c, 0);
    WithAllKids(c);
    assert g1[..|g1| - 1] + [WithKids(c, |Children(c)|)] == g + [c];
    ForOpenSteps(data, i, c.variable, c.start, c.end, c.step, g, j1);
    ChildrenSteps(data, j1, c, 0, g1, j2);
    StepsTrans(data, i, g, j1, g1, j2, g + [c]);
  }

  /** A printed canonical loop is added to the innermost scope. */
  lemma LoopSteps(data: string, i: nat, c: Node, g: seq<Node>, j: nat)
    requires CanonicalNode(c) && c.ForLoopNode? && Frames(g)
    requires PrintedAt(data, i, NodeToString(c)) && j == i + |NodeToString(c)|
    ensures Frames(AppendToTop(g, c)) && Steps(data, i, g, j, AppendToTop(g, c))
    decreases c, 2, 0
  {
    var h := ForHeader(c.variable, c.start, c.end, c.step);
    var b := ChildrenToString(c, 0);
    var j1 := i + |h|;
    var j2 := j1 + |b|;
    CanonicalLoop(c);
    LoopPieces(data, i, c, j1, j2, j);
    EndIsTag(data, j2);
    LoopOpenSteps(data, i, c, g, j1, j2);
    CloseOnTop(g, c);
    EndSteps(data, j2, g + [c], j);
    StepsTrans(data, i, g, j2, g + [c], j, AppendToTop(g, c));
  }

  /** A printed canonical node is added to the innermost scope. */
  lemma NodeSteps(data: string, i: nat, c: Node, g: seq<Node>, j: nat)
    requires CanonicalNode(c) && PrintedAt(data, i, NodeToString(c)) && j == i + |NodeToString(c)|
    requires c.TextNode? ==> TagOrEnd(data, j)
    requires Frames(g)
    ensures Frames(AppendToTop(g, c)) && Steps(data, i, g, j, AppendToTop(g, c))
    decreases c, 3, 0
  {
    match c
    case TextNode(t, _) =>
      TextSteps(data, i, t, g, j);
    case EchoNode(es, _) =>
      EchoSteps(data, i, es, g, j);
    case ForLoopNode(_, _, _, _, _) =>
      LoopSteps(data, i, c, g, j);
  }

  /** Where the child at `from` and the children after it lie. */
  lemma ChildLayout(data: string, i: nat, n: Node, from: nat, k: nat, j: nat)
    requires from < |Children(n)| && NoAdjacentTexts(Children(n))
    requires forall m :: from <= m < |Children(n)| ==> CanonicalNode(Children(n)[m])
    requires PrintedAt(data, i, ChildrenToString(n, from)) && j == i + |ChildrenToString(n, from)|
    requires k == i + |NodeToString(Children(n)[from])|
    requires TagOrEnd(data, j)
    ensures PrintedAt(data, i, NodeToString(Children(n)[from]))
    ensures PrintedAt(data, k, ChildrenToString(n, from + 1)) && j == k + |ChildrenToString(n, from + 1)|
    ensures Children(n)[from].TextNode? ==> TagOrEnd(data, k)
  {
    var a := NodeToString(Children(n)[from]);
    var b := ChildrenToString(n, from + 1);
    assert ChildrenToString(n, from) == a + b;
    PrintedSplit(data, i, a, b, k);
    if Children(n)[from].TextNode? {
      TextFollow(data, k, n, from, j);
    }
  }

  /** The child at `from`, printed, joins its siblings in the innermost scope. */
  lemma ChildSteps(data: string, i: nat, n: Node, from: nat, g: seq<Node>, k: nat)
    requires from < |Children(n)| && CanonicalNode(Children(n)[from])
    requires PrintedAt(data, i, NodeToString(Children(n)[from])) && k == i + |NodeToString(Children(n)[from])|
    requires Children(n)[from].TextNode? ==> TagOrEnd(data, k)
    requires Frames(g) && g[|g| - 1] == WithKids(n, from)
    ensures var g2 := g[..|g| - 1] + [WithKids(n, from + 1)];
      Frames(g2) && g2[|g2| - 1] == WithKids(n, from + 1) && Steps(data, i, g, k, g2)
    decreases n, 0, |Children(n)| - from, 0
  {
    assert Children(n)[from] < n by {
      assert n.kids.nodes[from] in n.kids.nodes;
    }
    AddNextKid(g, n, from);
    NodeSteps(data, i, Children(n)[from], g, k);
  }

  /** The printed children of `n` from `from` on complete `n` in the innermost
      scope, which holds the children before `from`. */
  lemma ChildrenSteps(data: string, i: nat, n: Node, from: nat, g: seq<Node>, j: nat)
    requires from <= |Children(n)| && NoAdjacentTexts(Children(n))
    requires forall k :: from <= k < |Children(n)| ==> CanonicalNode(Children(n)[k])
    requires PrintedAt(data, i, ChildrenToString(n, from)) && j == i + |ChildrenToString(n, from)|
    requires TagOrEnd(data, j)
    requires Frames(g) && g[|g| - 1] == WithKids(n, from)
    ensures Frames(g[..|g| - 1] + [WithKids(n, |Children(n)|)])
    ensures Steps(data, i, g, j, g[..|g| - 1] + [WithKids(n, |Children(n)|)])
    decreases n, 0, |Children(n)| - from, 1
  {
    if from < |Children(n)| {
      var k := i + |NodeToString(Children(n)[from])|;
      var g2 := g[..|g| - 1] + [WithKids(n, from + 1)];
      ChildLayout(data, i, n, from, k, j);
      ChildSteps(data, i, n, from, g, k);
      assert g2[..|g2| - 1] == g[..|g| - 1];
      ChildrenSteps(data, k, n, from + 1, g2, j);
      StepsTrans(data, i, g, k, g2, j, g[..|g| - 1] + [WithKids(n, |Children(n)|)]);
    } else {
      assert g == g[..|g| - 1] + [WithKids(n, |Children(n)|)];
      StepsRefl(data, i, g);
    }
  }

  /** The round trip of the tree writer: a document the parser could have built
      prints to a text that parses back into the same document, unless the text
      ends in `{` and blanks (an escaped `\{` included), which the lexer's
      constructor refuses. */
  lemma DocumentRoundTrip(doc: Node)
    requires CanonicalDocument(doc)
    ensures Parse(NodeToString(doc)) ==
      if OpeningPatternMatches(NodeToString(doc)) then Err(ReplaceFailure) else Ok(doc)
  {
    var data := NodeToString(doc);
    var g := [DocumentNode(NoList)];
    assert data == ChildrenToString(doc, 0);
    assert g[0] == WithKids(doc, 0);
    assert data[0..|data|] == data;
    ChildrenSteps(data, 0, doc, 0, g, |data|);
    WithAllKids(doc);
    assert g[..0] + [doc] == [doc];
    StepsToEnd(data, g, doc);
  }
}
