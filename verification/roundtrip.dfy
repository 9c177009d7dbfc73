/** The round trip the tree writer relies on: printing a tree the parser could
    have built and parsing the text again gives the same tree. The proof goes
    node by node over one printed text, following the lexer's position. */
module RoundTrip {
  import opened Wrappers
  import opened JString
  import opened Elements
  import opened Nodes
  import opened Lexer
  import opened Parser

  // ---------------------------------------------------------------------------
  // Slices of the printed text

  /** `piece` is printed in `data` at position `i`. */
  predicate PrintedAt(data: string, i: nat, piece: string) {
    i + |piece| <= |data| && data[i..i + |piece|] == piece
  }

  lemma PrintedParts(data: string, i: nat, a: string, b: string)
    requires PrintedAt(data, i, a + b)
    ensures PrintedAt(data, i, a) && PrintedAt(data, i + |a|, b)
  {
    assert data[i..i + |a|] == (a + b)[..|a|];
    assert data[i + |a|..i + |a| + |b|] == (a + b)[|a|..];
  }

  /** PrintedParts with the position of the second part given by the caller. */
  lemma PrintedSplit(data: string, i: nat, a: string, b: string, k: nat)
    requires PrintedAt(data, i, a + b) && k == i + |a|
    ensures PrintedAt(data, i, a) && PrintedAt(data, k, b)
  {
    assert data[i..k] == (a + b)[..|a|];
    assert data[k..k + |b|] == (a + b)[|a|..];
  }

  lemma PrintedChar(data: string, i: nat, piece: string, k: nat)
    requires PrintedAt(data, i, piece) && k < |piece|
    ensures data[i + k] == piece[k]
  {
    assert data[i..i + |piece|][k] == data[i + k];
  }

  // ---------------------------------------------------------------------------
  // Text

  /** Text the lexer reads back from its escaped form: no backslash, since
      TextNode.toString escapes only `{$`. */
  predicate PrintableText(t: string) {
    |t| > 0 && '\\' !in t
  }

  /** What may follow printed text: the end of the input or a tag. */
  predicate TagOrEnd(data: string, j: nat) {
    j == |data| || (j + 1 < |data| && data[j] == '{' && data[j + 1] == '$')
  }

  /** One step of the escaping: `{$` becomes `\{$`, anything else stays. */
  lemma EscapeStep(t: string)
    requires |t| > 0
    ensures StartsWith(t, "{$") ==> TextToString(t) == "\\{$" + TextToString(t[2..])
    ensures !StartsWith(t, "{$") ==> TextToString(t) == [t[0]] + TextToString(t[1..])
  {
  }

  /** The first character of escaped text. */
  lemma EscapeHead(t: string)
    requires |t| > 0
    ensures |TextToString(t)| > 0
    ensures TextToString(t)[0] == (if StartsWith(t, "{$") then '\\' else t[0])
  {
    EscapeStep(t);
  }

  /** `\{$` in TEXT mode contributes `{$`. */
  lemma EscapedEntry(data: string, i: nat, b: string)
    requires i + 3 <= |data| && data[i] == '\\' && data[i + 1] == '{' && data[i + 2] == '$'
    ensures NextToken(Lexer(data, i, Text, b)) == NextToken(Lexer(data, i + 3, Text, b + "{$"))
  {
    assert NextToken(Lexer(data, i, Text, b)) == NextToken(Lexer(data, i + 2, Text, b + ['{']));
    TextStep(Lexer(data, i + 2, Text, b + ['{']));
    assert b + ['{'] + ['$'] == b + "{$";
  }

  /** Escaped text that does not start with `{$` starts with its own first
      character, which does not open a tag where it is printed. */
  lemma PlainHead(data: string, i: nat, t: string)
    requires '\\' !in t && |t| > 0 && !StartsWith(t, "{$") && PrintedAt(data, i, TextToString(t))
    requires var j := i + |TextToString(t)|; j == |data| || data[j] == '{'
    ensures data[i] == t[0] && t[0] != '\\' && !IsTagEntry(t[0], NextChar(data, i))
  {
    EscapeStep(t);
    var e' := TextToString(t[1..]);
    PrintedParts(data, i, [t[0]], e');
    PrintedChar(data, i, [t[0]], 0);
    assert t[0] in t;
    if t[0] == '{' && i + 1 < |data| && |t| > 1 {
      EscapeHead(t[1..]);
      PrintedChar(data, i + 1, e', 0);
      TagEntryAtFront(t);
    }
  }

  /** Escaped text starting with `{$`: the lexer reads `\{$` as `{$`, and the
      rest of the text is printed right after it. */
  lemma EntryCase(data: string, i: nat, t: string, b: string)
    requires '\\' !in t && |t| > 0 && StartsWith(t, "{$") && PrintedAt(data, i, TextToString(t))
    ensures |TextToString(t)| == 3 + |TextToString(t[2..])|
    ensures PrintedAt(data, i + 3, TextToString(t[2..])) && '\\' !in t[2..]
    ensures NextToken(Lexer(data, i, Text, b)) == NextToken(Lexer(data, i + 3, Text, b + "{$"))
    ensures b + "{$" + t[2..] == b + t
  {
    EscapeStep(t);
    EscapedPrefix(data, i, TextToString(t[2..]));
    EscapedEntry(data, i, b);
    EntrySplit(t, b);
  }

  lemma EscapedPrefix(data: string, i: nat, rest: string)
    requires PrintedAt(data, i, "\\{$" + rest)
    ensures PrintedAt(data, i + 3, rest)
    ensures data[i] == '\\' && data[i + 1] == '{' && data[i + 2] == '$'
  {
    PrintedParts(data, i, "\\{$", rest);
    PrintedChar(data, i, "\\{$", 0);
    PrintedChar(data, i, "\\{$", 1);
    PrintedChar(data, i, "\\{$", 2);
  }

  lemma EntrySplit(t: string, b: string)
    requires '\\' !in t && StartsWith(t, "{$")
    ensures '\\' !in t[2..] && b + "{$" + t[2..] == b + t
  {
    assert t == t[..2] + t[2..];
    assert forall c :: c in t[2..] ==> c in t;
  }

  /** Escaped text starting with anything else: one ordinary character, then
      the rest of the text. */
  lemma PlainCase(data: string, i: nat, t: string, b: string)
    requires '\\' !in t && |t| > 0 && !StartsWith(t, "{$") && PrintedAt(data, i, TextToString(t))
    requires var j := i + |TextToString(t)|; j == |data| || data[j] == '{'
    ensures |TextToString(t)| == 1 + |TextToString(t[1..])|
    ensures PrintedAt(data, i + 1, TextToString(t[1..])) && '\\' !in t[1..]
    ensures NextToken(Lexer(data, i, Text, b)) == NextToken(Lexer(data, i + 1, Text, b + [t[0]]))
    ensures b + [t[0]] + t[1..] == b + t
  {
    PlainRest(data, i, t);
    PlainLexes(data, i, t, b);
    HeadSplit(t, b);
  }

  lemma HeadSplit(t: string, b: string)
    requires |t| > 0
    ensures b + [t[0]] + t[1..] == b + t
  {
    assert t == [t[0]] + t[1..];
  }

  /** What is left of escaped text after an ordinary first character. */
  lemma PlainRest(data: string, i: nat, t: string)
    requires '\\' !in t && |t| > 0 && !StartsWith(t, "{$") && PrintedAt(data, i, TextToString(t))
    ensures |TextToString(t)| == 1 + |TextToString(t[1..])|
    ensures PrintedAt(data, i + 1, TextToString(t[1..])) && '\\' !in t[1..]
  {
    EscapeStep(t);
    PrintedSplit(data, i, [t[0]], TextToString(t[1..]), i + 1);
    assert forall c :: c in t[1..] ==> c in t;
  }

  /** An ordinary first character goes into the lexer's buffer. */
  lemma PlainLexes(data: string, i: nat, t: string, b: string)
    requires '\\' !in t && |t| > 0 && !StartsWith(t, "{$") && PrintedAt(data, i, TextToString(t))
    requires var j := i + |TextToString(t)|; j == |data| || data[j] == '{'
    ensures NextToken(Lexer(data, i, Text, b)) == NextToken(Lexer(data, i + 1, Text, b + [t[0]]))
  {
    PlainHead(data, i, t);
    TextStep(Lexer(data, i, Text, b));
  }

  /** The lexer turns escaped text back into the text, whatever was collected
      before it. */
  lemma {:induction false} ScanEscapedText(data: string, i: nat, t: string, b: string, j: nat)
    requires '\\' !in t && PrintedAt(data, i, TextToString(t)) && j == i + |TextToString(t)|
    requires j == |data| || data[j] == '{'
    ensures NextToken(Lexer(data, i, Text, b)) == NextToken(Lexer(data, j, Text, b + t))
    decreases |t|
  {
    if |t| == 0 {
      assert b + t == b;
    } else if StartsWith(t, "{$") {
      EntryCase(data, i, t, b);
      ScanEscapedText(data, i + 3, t[2..], b + "{$", j);
      assert Lexer(data, j, Text, b + "{$" + t[2..]) == Lexer(data, j, Text, b + t);
    } else {
      PlainCase(data, i, t, b);
      ScanEscapedText(data, i + 1, t[1..], b + [t[0]], j);
      assert Lexer(data, j, Text, b + [t[0]] + t[1..]) == Lexer(data, j, Text, b + t);
    }
  }

  /** Printed text followed by a tag or the end is lexed as one TEXT token
      holding exactly the text, and the lexer stops right after it. */
  lemma TextNodeLexes(data: string, i: nat, t: string)
    requires PrintableText(t) && PrintedAt(data, i, TextToString(t))
    requires TagOrEnd(data, i + |TextToString(t)|)
    ensures NextToken(Lexer(data, i, Text, []))
      == Ok((Token(Some(t), TextToken), Lexer(data, i + |TextToString(t)|, Text, [])))
  {
    var j := i + |TextToString(t)|;
    ScanEscapedText(data, i, t, [], j);
    assert [] + t == t;
    if j < |data| {
      TextAtTagEntry(data, j, t);
    }
  }

  // ---------------------------------------------------------------------------
  // Tags

  /** `$}` starts at position `k` of `s`. */
  predicate ExitAt(s: string, k: nat)
    requires k + 1 < |s|
  {
    s[k] == '$' && s[k + 1] == '}'
  }

  /** No `$}` inside: the lexer would end the tag there. */
  predicate NoTagExit(s: string) {
    forall k: nat :: k + 1 < |s| ==> !ExitAt(s, k)
  }

  /** The content of a printed tag holds no exit, so the lexer reads all of it. */
  lemma InnerSpan(data: string, i: nat, inner: string)
    requires NoTagExit(inner) && PrintedAt(data, i + 2, inner + "$}")
    ensures i + 2 + |inner| + 2 <= |data|
    ensures NoTagExitSpan(data, i + 2, i + 2 + |inner|)
    ensures data[i + 2..i + 2 + |inner|] == inner
    ensures data[i + 2 + |inner|] == '$' && data[i + 2 + |inner| + 1] == '}'
  {
    var j := i + 2 + |inner|;
    PrintedParts(data, i + 2, inner, "$}");
    PrintedChar(data, j, "$}", 0);
    PrintedChar(data, j, "$}", 1);
    forall k | i + 2 <= k < j
      ensures !IsTagExit(data[k], NextChar(data, k))
    {
      NoExitAt(data, i + 2, inner, k);
    }
  }

  /** One position of printed exit-free content, followed by `$`, is no exit. */
  lemma NoExitAt(data: string, p: nat, inner: string, k: nat)
    requires NoTagExit(inner) && PrintedAt(data, p, inner)
    requires p + |inner| < |data| && data[p + |inner|] == '$'
    requires p <= k < p + |inner|
    ensures !IsTagExit(data[k], NextChar(data, k))
  {
    PrintedChar(data, p, inner, k - p);
    if k + 1 < p + |inner| {
      PrintedChar(data, p, inner, k + 1 - p);
      assert !ExitAt(inner, k - p);
    }
  }

  lemma TagOpen(data: string, i: nat, inner: string)
    requires PrintedAt(data, i, "{$" + inner + "$}")
    ensures i + 2 <= |data| && data[i] == '{' && data[i + 1] == '$'
    ensures PrintedAt(data, i + 2, inner + "$}")
  {
    assert "{$" + inner + "$}" == "{$" + (inner + "$}");
    PrintedParts(data, i, "{$", inner + "$}");
    PrintedChar(data, i, "{$", 0);
    PrintedChar(data, i, "{$", 1);
  }

  /** A printed tag `{$inner$}` is lexed from TEXT mode as one TAG token with the
      trimmed content, and the lexer rests on the closing `$}`. */
  lemma TagLexes(data: string, i: nat, inner: string)
    requires |inner| > 0 && NoTagExit(inner) && PrintedAt(data, i, "{$" + inner + "$}")
    ensures NextToken(Lexer(data, i, Text, []))
      == Ok((Token(Some(Trim(inner)), TagToken), Lexer(data, i + 2 + |inner|, Tag, [])))
  {
    TagOpen(data, i, inner);
    TextAtTagEntry(data, i, []);
    TagContentLexes(data, i, inner);
  }

  /** In TAG mode, the content of a printed tag is read up to its `$}`. */
  lemma TagContentLexes(data: string, i: nat, inner: string)
    requires |inner| > 0 && NoTagExit(inner) && PrintedAt(data, i + 2, inner + "$}")
    ensures NextToken(Lexer(data, i + 2, Tag, []))
      == Ok((Token(Some(Trim(inner)), TagToken), Lexer(data, i + 2 + |inner|, Tag, [])))
  {
    var j := i + 2 + |inner|;
    InnerSpan(data, i, inner);
    ScanTagContent(data, i + 2, j, []);
    assert [] + data[i + 2..j] == inner;
  }

  /** Resting on the `$}` of a tag, the lexer skips it and goes on in TEXT mode. */
  lemma TagCloses(data: string, i: nat, inner: string)
    requires NoTagExit(inner) && PrintedAt(data, i, "{$" + inner + "$}")
    ensures NextToken(Lexer(data, i + 2 + |inner|, Tag, []))
      == NextToken(Lexer(data, i + 4 + |inner|, Text, []))
  {
    TagOpen(data, i, inner);
    InnerSpan(data, i, inner);
    TagAtTagExit(data, i + 2 + |inner|, []);
  }

  // ---------------------------------------------------------------------------
  // One token of the parse loop

  /** The parse loop looks at the lexer only through its next token. */
  lemma ParseSameNext(lx1: Lexer, lx2: Lexer, f: seq<Node>)
    requires lx1.Valid() && lx1.buffer == [] && lx2.Valid() && lx2.buffer == []
    requires |f| > 0 && f[0].DocumentNode?
    requires NextToken(lx1) == NextToken(lx2)
    ensures ParseFrom(lx1, f) == ParseFrom(lx2, f)
  {
  }

  /** A TEXT token becomes a text node of the innermost scope. */
  lemma ParseTextStep(lx: Lexer, f: seq<Node>, t: string, next: Lexer)
    requires lx.Valid() && lx.buffer == [] && |f| > 0 && f[0].DocumentNode?
    requires NextToken(lx) == Ok((Token(Some(t), TextToken), next))
    ensures next.Valid() && next.buffer == []
    ensures ParseFrom(lx, f) == ParseFrom(next, AppendToTop(f, TextNode(t, NoList)))
  {
  }

  /** A TAG token is resolved against the open scopes. */
  lemma ParseTagStep(lx: Lexer, f: seq<Node>, content: string, next: Lexer, g: seq<Node>)
    requires lx.Valid() && lx.buffer == [] && |f| > 0 && f[0].DocumentNode?
    requires NextToken(lx) == Ok((Token(Some(content), TagToken), next))
    requires ResolveTag(GetTagChunks(content), f) == Ok(g)
    ensures next.Valid() && next.buffer == [] && |g| > 0 && g[0].DocumentNode?
    ensures ParseFrom(lx, f) == ParseFrom(next, g)
  {
  }

  /** A scope stack the parse loop accepts: a document at the bottom. */
  predicate Frames(g: seq<Node>) {
    |g| > 0 && g[0].DocumentNode?
  }

  /** Adding a node to the innermost scope keeps a document at the bottom. */
  lemma FramesAppend(g: seq<Node>, c: Node)
    requires Frames(g)
    ensures Frames(AppendToTop(g, c))
  {
  }

  /** Parsing from position `i` of `data` with the scopes `g` ends as parsing
      from position `j` with the scopes `g2` does. */
  predicate Steps(data: string, i: nat, g: seq<Node>, j: nat, g2: seq<Node>)
    requires i <= |data| && j <= |data| && Frames(g) && Frames(g2)
  {
    ParseFrom(Lexer(data, i, Text, []), g) == ParseFrom(Lexer(data, j, Text, []), g2)
  }

  lemma StepsRefl(data: string, i: nat, g: seq<Node>)
    requires i <= |data| && Frames(g)
    ensures Steps(data, i, g, i, g)
  {
  }

  lemma StepsTrans(data: string, i: nat, g: seq<Node>, j: nat, g2: seq<Node>, k: nat, g3: seq<Node>)
    requires i <= |data| && j <= |data| && k <= |data| && Frames(g) && Frames(g2) && Frames(g3)
    requires Steps(data, i, g, j, g2) && Steps(data, j, g2, k, g3)
    ensures Steps(data, i, g, k, g3)
  {
  }

  /** A complete tag `{$inner$}` printed at `i`, whose chunks resolve to `g2`,
      is one step of the parse. */
  lemma TagSteps(data: string, i: nat, inner: string, g: seq<Node>, g2: seq<Node>, j: nat)
    requires |inner| > 0 && NoTagExit(inner) && PrintedAt(data, i, "{$" + inner + "$}")
    requires Frames(g) && ResolveTag(GetTagChunks(Trim(inner)), g) == Ok(g2)
    requires j == i + 4 + |inner|
    ensures Frames(g2) && Steps(data, i, g, j, g2)
  {
    var lx := Lexer(data, i, Text, []);
    var next := Lexer(data, i + 2 + |inner|, Tag, []);
    var after := Lexer(data, j, Text, []);
    assert after == Lexer(data, i + 4 + |inner|, Text, []);
    TagLexes(data, i, inner);
    ParseTagStep(lx, g, Trim(inner), next, g2);
    TagCloses(data, i, inner);
    ParseSameNext(next, after, g2);
  }

  /** A printed text node followed by a tag or the end is one step of the parse. */
  lemma TextSteps(data: string, i: nat, t: string, g: seq<Node>, j: nat)
    requires PrintableText(t) && PrintedAt(data, i, TextToString(t)) && j == i + |TextToString(t)|
    requires TagOrEnd(data, j) && Frames(g)
    ensures Frames(AppendToTop(g, TextNode(t, NoList)))
    ensures Steps(data, i, g, j, AppendToTop(g, TextNode(t, NoList)))
  {
    TextNodeLexes(data, i, t);
    ParseTextStep(Lexer(data, i, Text, []), g, t, Lexer(data, i + |TextToString(t)|, Text, []));
  }

  /** Parsing a whole input that steps from its start to its end with a single
      document left gives that document. */
  lemma StepsToEnd(data: string, g: seq<Node>, doc: Node)
    requires Frames(g) && doc.DocumentNode? && Steps(data, 0, g, |data|, [doc])
    ensures ParseFrom(Lexer(data, 0, Init, []), g) == Ok(doc)
  {
    StartInText(data, g);
    ParseAtEnd(data, doc);
  }

  /** The fresh lexer reads like one already in text mode. */
  lemma StartInText(data: string, g: seq<Node>)
    requires Frames(g)
    ensures ParseFrom(Lexer(data, 0, Init, []), g) == ParseFrom(Lexer(data, 0, Text, []), g)
  {
    if |data| > 0 {
      ParseSameNext(Lexer(data, 0, Init, []), Lexer(data, 0, Text, []), g);
    }
  }

  /** At the end of the input with one document left, parsing gives it. */
  lemma ParseAtEnd(data: string, doc: Node)
    requires doc.DocumentNode?
    ensures ParseFrom(Lexer(data, |data|, Text, []), [doc]) == Ok(doc)
  {
  }

  // ---------------------------------------------------------------------------
  // Joined words

  /** The texts of the elements, in order. */
  function Texts(es: seq<Element>): (r: seq<string>)
    ensures |r| == |es| && forall k :: 0 <= k < |es| ==> r[k] == AsText(es[k])
  {
    if |es| == 0 then [] else [AsText(es[0])] + Texts(es[1..])
  }

  lemma JoinFirst(ws: seq<string>, sep: char)
    requires |ws| > 0 && |ws[0]| > 0
    ensures |Join(ws, sep)| > 0 && Join(ws, sep)[0] == ws[0][0]
  {
  }

  lemma {:induction false} JoinLast(ws: seq<string>, sep: char)
    requires |ws| > 0 && |ws[|ws| - 1]| > 0
    ensures var j := Join(ws, sep); |j| > 0 && j[|j| - 1] == ws[|ws| - 1][|ws[|ws| - 1]| - 1]
    decreases |ws|
  {
    if |ws| > 1 {
      JoinLast(ws[1..], sep);
    }
  }

  /** A space between two pieces without `$}` creates none. */
  lemma NoTagExitSpaced(a: string, b: string)
    requires NoTagExit(a) && NoTagExit(b)
    ensures NoTagExit(a + [' '] + b)
  {
    var s := a + [' '] + b;
    forall k: nat | k + 1 < |s|
      ensures !ExitAt(s, k)
    {
      if k < |a| - 1 {
        assert s[k] == a[k] && s[k + 1] == a[k + 1];
        assert !ExitAt(a, k);
      } else if k == |a| - 1 {
        assert s[k + 1] == ' ';
      } else if k == |a| {
        assert s[k] == ' ';
      } else {
        assert s[k] == b[k - |a| - 1] && s[k + 1] == b[k - |a|];
        assert !ExitAt(b, k - |a| - 1);
      }
    }
  }

  /** A space on each side of a piece without `$}` creates none. */
  lemma NoTagExitPadded(w: string)
    requires NoTagExit(w)
    ensures NoTagExit(" " + w + " ")
  {
    var s := " " + w + " ";
    forall k: nat | k + 1 < |s|
      ensures !ExitAt(s, k)
    {
      if k == 0 {
        assert s[0] == ' ';
      } else if k + 1 == |s| - 1 {
        assert s[k + 1] == ' ';
      } else {
        assert s[k] == w[k - 1] && s[k + 1] == w[k];
        assert !ExitAt(w, k - 1);
      }
    }
  }

  /** A piece without `$` holds no `$}`. */
  lemma NoDollarNoExit(s: string)
    requires forall k :: 0 <= k < |s| ==> s[k] != '$'
    ensures NoTagExit(s)
  {
  }

  lemma {:induction false} NoTagExitJoin(ws: seq<string>)
    requires |ws| > 0 && forall k :: 0 <= k < |ws| ==> NoTagExit(ws[k])
    ensures NoTagExit(Join(ws, ' '))
    decreases |ws|
  {
    if |ws| > 1 {
      NoTagExitJoin(ws[1..]);
      NoTagExitSpaced(ws[0], Join(ws[1..], ' '));
    }
  }

  /** Joined words are what trimming leaves of them with a space after. */
  lemma JoinedTrim(ws: seq<string>)
    requires |ws| > 0 && |ws[0]| > 0 && |ws[|ws| - 1]| > 0
    requires TrimStable(ws[0]) && TrimStable(ws[|ws| - 1])
    ensures Trim(Join(ws, ' ') + " ") == Join(ws, ' ')
  {
    var j := Join(ws, ' ');
    JoinFirst(ws, ' ');
    JoinLast(ws, ' ');
    assert TrimStable(j);
    TrimPadded("", j, " ");
    assert "" + j + " " == j + " ";
  }

  // ---------------------------------------------------------------------------
  // Echo tags

  /** An element whose text survives printing and reparsing inside a tag: it
      reads back as itself, is one chunk, has no padding that trimming would
      cut, and holds no `$}`. */
  predicate Printable(e: Element) {
    Reparsable(e) && ChunkWord(AsText(e)) && TrimStable(AsText(e)) && NoTagExit(AsText(e))
  }

  lemma {:induction false} ElementsRoundTrip(es: seq<Element>)
    requires forall k :: 0 <= k < |es| ==> Reparsable(es[k])
    ensures GenerateElements(Texts(es)) == Ok(es)
    decreases |es|
  {
    if |es| > 0 {
      ElementRoundTrip(es[0]);
      ElementsRoundTrip(es[1..]);
      assert Texts(es)[1..] == Texts(es[1..]);
      assert [es[0]] + es[1..] == es;
    }
  }

  lemma {:induction false} SpacedJoin(es: seq<Element>)
    requires |es| > 0
    ensures SpacedTexts(es) == Join(Texts(es), ' ') + " "
    decreases |es|
  {
    if |es| > 1 {
      SpacedJoin(es[1..]);
      assert Texts(es)[1..] == Texts(es[1..]);
    }
  }

  /** The words of an echo tag: `=` and the element texts. */
  function EchoWords(es: seq<Element>): seq<string> {
    ["="] + Texts(es)
  }

  /** The content of a printed echo tag is its words joined by spaces, and one
      more space. */
  lemma EchoContent(es: seq<Element>)
    requires |es| > 0
    ensures "= " + SpacedTexts(es) == Join(EchoWords(es), ' ') + " "
  {
    SpacedJoin(es);
    JoinPrefix("=", Texts(es));
    assert "= " == "=" + " ";
  }

  /** Words without `$}`, joined and followed by a space, hold no `$}`. */
  lemma PaddedNoExit(ws: seq<string>)
    requires |ws| > 0 && forall k :: 0 <= k < |ws| ==> NoTagExit(ws[k])
    ensures NoTagExit(Join(ws, ' ') + " ")
  {
    var j := Join(ws, ' ');
    NoTagExitJoin(ws);
    NoTagExitSpaced(j, "");
    assert j + [' '] + "" == j + " ";
  }

  lemma EchoWordsPrintable(es: seq<Element>)
    requires forall k :: 0 <= k < |es| ==> Printable(es[k])
    ensures forall k :: 0 <= k < |EchoWords(es)| ==>
      var w := EchoWords(es)[k]; |w| > 0 && TrimStable(w) && NoTagExit(w) && ChunkWord(w)
  {
    var ws := EchoWords(es);
    assert TrimStable("=");
    forall k | 0 <= k < |ws|
      ensures |ws[k]| > 0 && TrimStable(ws[k]) && NoTagExit(ws[k]) && ChunkWord(ws[k])
    {
      if k > 0 {
        assert ws[k] == AsText(es[k - 1]);
      }
    }
  }

  /** The chunks of an echo tag's content name an echo of the same elements. */
  lemma EchoResolves(es: seq<Element>, f: seq<Node>)
    requires |es| > 0 && forall k :: 0 <= k < |es| ==> Printable(es[k])
    requires |f| > 0
    ensures ResolveTag(GetTagChunks(Join(EchoWords(es), ' ')), f) == Ok(AppendToTop(f, EchoNode(es, NoList)))
  {
    var ws := EchoWords(es);
    assert ChunkWord(ws[0]);
    ChunksOfJoin(ws);
    assert ToLower(ws[0])[0] == '=';
    assert ClassifyTag(ws) == EchoTag;
    assert ws[1..] == Texts(es);
    ElementsRoundTrip(es);
  }

  // ---------------------------------------------------------------------------
  // FOR and END tags

  /** A FOR argument after the variable that prints and reparses: a string, a
      variable or an integer. */
  predicate ForPrintable(e: Element) {
    Printable(e) && (e.Str? || e.Variable? || e.ConstantInteger?)
  }

  /** A loop variable that prints and reparses. */
  predicate LoopVariable(v: Element) {
    v.Variable? && Printable(v)
  }

  /** The words of a FOR tag: `for`, the variable, start, end and the step. */
  function ForWords(v: Element, s: Element, e: Element, st: Option<Element>): (ws: seq<string>)
    ensures |ws| == (if st.Some? then 5 else 4)
  {
    ["for", AsText(v), AsText(s), AsText(e)] + (match st case Some(x) => [AsText(x)] case None => [])
  }

  lemma JoinPrefix(w: string, ws: seq<string>)
    requires |ws| > 0
    ensures Join([w] + ws, ' ') == w + " " + Join(ws, ' ')
  {
    assert ([w] + ws)[1..] == ws;
  }

  lemma JoinFour(a: string, b: string, c: string, d: string)
    ensures Join([a, b, c, d], ' ') == a + " " + (b + " " + (c + " " + d))
  {
    JoinPrefix(c, [d]);
    assert [c] + [d] == [c, d];
    JoinPrefix(b, [c, d]);
    assert [b] + [c, d] == [b, c, d];
    JoinPrefix(a, [b, c, d]);
    assert [a] + [b, c, d] == [a, b, c, d];
  }

  lemma JoinFive(a: string, b: string, c: string, d: string, x: string)
    ensures Join([a, b, c, d, x], ' ') == a + " " + (b + " " + (c + " " + (d + " " + x)))
  {
    JoinPrefix(d, [x]);
    assert [d] + [x] == [d, x];
    JoinPrefix(c, [d, x]);
    assert [c] + [d, x] == [c, d, x];
    JoinPrefix(b, [c, d, x]);
    assert [b] + [c, d, x] == [b, c, d, x];
    JoinPrefix(a, [b, c, d, x]);
    assert [a] + [b, c, d, x] == [a, b, c, d, x];
  }

  lemma HeaderFour(tv: string, ts: string, te: string)
    ensures "{$ for " + tv + " " + ts + " " + te + " " + "" + "$}"
      == "{$" + (" " + Join(["for", tv, ts, te], ' ') + " ") + "$}"
  {
    JoinFour("for", tv, ts, te);
    assert "{$ for " == "{$" + " " + "for" + " ";
  }

  lemma HeaderFive(tv: string, ts: string, te: string, tx: string)
    ensures "{$ for " + tv + " " + ts + " " + te + " " + (tx + " ") + "$}"
      == "{$" + (" " + Join(["for", tv, ts, te, tx], ' ') + " ") + "$}"
  {
    JoinFive("for", tv, ts, te, tx);
    assert "{$ for " == "{$" + " " + "for" + " ";
  }

  /** A printed FOR header is its words between a leading and a trailing space. */
  lemma ForHeaderContent(v: Element, s: Element, e: Element, st: Option<Element>)
    ensures ForHeader(v, s, e, st) == "{$" + (" " + Join(ForWords(v, s, e, st), ' ') + " ") + "$}"
  {
    match st
    case None =>
      HeaderFour(AsText(v), AsText(s), AsText(e));
      assert ForWords(v, s, e, st) == ["for", AsText(v), AsText(s), AsText(e)];
    case Some(x) =>
      HeaderFive(AsText(v), AsText(s), AsText(e), AsText(x));
      assert ForWords(v, s, e, st) == ["for", AsText(v), AsText(s), AsText(e), AsText(x)];
  }

  predicate ForTagPrintable(v: Element, s: Element, e: Element, st: Option<Element>) {
    LoopVariable(v) && ForPrintable(s) && ForPrintable(e) && (st.Some? ==> ForPrintable(st.value))
  }

  lemma ForWordsPrintable(v: Element, s: Element, e: Element, st: Option<Element>)
    requires ForTagPrintable(v, s, e, st)
    ensures var ws := ForWords(v, s, e, st);
      forall k :: 0 <= k < |ws| ==> |ws[k]| > 0 && TrimStable(ws[k]) && NoTagExit(ws[k]) && ChunkWord(ws[k])
  {
    var ws := ForWords(v, s, e, st);
    assert TrimStable("for");
    NoDollarNoExit("for");
    forall k | 0 <= k < |ws|
      ensures |ws[k]| > 0 && TrimStable(ws[k]) && NoTagExit(ws[k]) && ChunkWord(ws[k])
    {
      if k == 0 {
        assert ws[k] == "for";
      } else if k == 1 {
        assert ws[k] == AsText(v);
      } else if k == 2 {
        assert ws[k] == AsText(s);
      } else if k == 3 {
        assert ws[k] == AsText(e);
      } else {
        assert ws[k] == AsText(st.value);
      }
    }
  }

  /** The content of a printed FOR header trims to its words and holds no `$}`. */
  lemma ForContent(v: Element, s: Element, e: Element, st: Option<Element>)
    requires ForTagPrintable(v, s, e, st)
    ensures var j := Join(ForWords(v, s, e, st), ' ');
      Trim(" " + j + " ") == j && NoTagExit(" " + j + " ")
  {
    var ws := ForWords(v, s, e, st);
    var j := Join(ws, ' ');
    ForWordsPrintable(v, s, e, st);
    JoinFirst(ws, ' ');
    JoinLast(ws, ' ');
    TrimPadded(" ", j, " ");
    NoTagExitJoin(ws);
    NoTagExitPadded(j);
  }

  /** Acceptable arguments after the variable pass the argument check. */
  lemma ArgumentsPass(ws: seq<string>)
    requires 4 <= |ws| <= 5 && forall k :: 0 <= k < |ws| ==> |ws[k]| > 0
    requires ForArgument(ws[2]) && ForArgument(ws[3]) && (|ws| == 5 ==> ForArgument(ws[4]))
    ensures CheckForArguments(ws, 2).Ok?
  {
    forall k | 2 <= k < |ws|
      ensures ForArgument(ws[k])
    {
      if k == 2 {
      } else if k == 3 {
      } else {
        assert k == 4;
      }
    }
  }

  /** Four chunks with a variable first and acceptable arguments after it
      build the loop of the elements they read as, without a step. */
  lemma ForFourGenerate(ws: seq<string>, v: Element, s: Element, e: Element)
    requires |ws| == 4 && forall k :: 0 <= k < 4 ==> |ws[k]| > 0
    requires IsIdentifier(ws[1]) && ForArgument(ws[2]) && ForArgument(ws[3])
    requires GenerateElement(ws[1]) == Ok(v) && GenerateElement(ws[2]) == Ok(s) && GenerateElement(ws[3]) == Ok(e)
    ensures GenerateForLoop(ws) == Ok(ForLoopNode(v, s, e, None, NoList))
  {
    assert IsVariable(ws[1]) == Ok(true);
    ArgumentsPass(ws);
  }

  /** Five chunks likewise build the loop with its step. */
  lemma ForFiveGenerate(ws: seq<string>, v: Element, s: Element, e: Element, x: Element)
    requires |ws| == 5 && forall k :: 0 <= k < 5 ==> |ws[k]| > 0
    requires IsIdentifier(ws[1]) && ForArgument(ws[2]) && ForArgument(ws[3]) && ForArgument(ws[4])
    requires GenerateElement(ws[1]) == Ok(v) && GenerateElement(ws[2]) == Ok(s) && GenerateElement(ws[3]) == Ok(e)
    requires GenerateElement(ws[4]) == Ok(x)
    ensures GenerateForLoop(ws) == Ok(ForLoopNode(v, s, e, Some(x), NoList))
  {
    assert IsVariable(ws[1]) == Ok(true);
    ArgumentsPass(ws);
  }

  lemma ForWordsNonEmpty(v: Element, s: Element, e: Element, st: Option<Element>)
    requires ForTagPrintable(v, s, e, st)
    ensures var ws := ForWords(v, s, e, st); forall k :: 0 <= k < |ws| ==> |ws[k]| > 0
  {
    ForWordsPrintable(v, s, e, st);
  }

  /** A printable FOR argument is a FOR argument and reads back as itself. */
  lemma ForArgumentRead(x: Element)
    requires ForPrintable(x)
    ensures ForArgument(AsText(x)) && GenerateElement(AsText(x)) == Ok(x)
  {
    ElementRoundTrip(x);
  }

  /** A loop variable prints as an identifier and reads back as itself. */
  lemma LoopVariableRead(v: Element)
    requires LoopVariable(v)
    ensures IsIdentifier(AsText(v)) && GenerateElement(AsText(v)) == Ok(v)
  {
    ElementRoundTrip(v);
  }

  /** Each argument word of a FOR header reads back as its element. */
  lemma ForWordsRead(v: Element, s: Element, e: Element, st: Option<Element>)
    requires ForTagPrintable(v, s, e, st)
    ensures var ws := ForWords(v, s, e, st);
      && IsIdentifier(ws[1]) && GenerateElement(ws[1]) == Ok(v)
      && ForArgument(ws[2]) && GenerateElement(ws[2]) == Ok(s)
      && ForArgument(ws[3]) && GenerateElement(ws[3]) == Ok(e)
      && (st.Some? ==> ForArgument(ws[4]) && GenerateElement(ws[4]) == Ok(st.value))
  {
    var ws := ForWords(v, s, e, st);
    assert ws[1] == AsText(v) && ws[2] == AsText(s) && ws[3] == AsText(e);
    LoopVariableRead(v);
    ForArgumentRead(s);
    ForArgumentRead(e);
    if st.Some? {
      assert ws[4] == AsText(st.value);
      ForArgumentRead(st.value);
    }
  }

  /** The words of a FOR header build the loop node back. */
  lemma ForLoopGenerates(v: Element, s: Element, e: Element, st: Option<Element>)
    requires ForTagPrintable(v, s, e, st)
    ensures GenerateForLoop(ForWords(v, s, e, st)) == Ok(ForLoopNode(v, s, e, st, NoList))
  {
    var ws := ForWords(v, s, e, st);
    ForWordsNonEmpty(v, s, e, st);
    ForWordsRead(v, s, e, st);
    if st.None? {
      ForFourGenerate(ws, v, s, e);
    } else {
      ForFiveGenerate(ws, v, s, e, st.value);
    }
  }

  /** The chunks of a FOR header's content open a loop on top of the scopes. */
  lemma ForResolves(v: Element, s: Element, e: Element, st: Option<Element>, f: seq<Node>)
    requires ForTagPrintable(v, s, e, st) && |f| > 0
    ensures ResolveTag(GetTagChunks(Join(ForWords(v, s, e, st), ' ')), f)
      == Ok(f + [ForLoopNode(v, s, e, st, NoList)])
  {
    var ws := ForWords(v, s, e, st);
    ForWordsPrintable(v, s, e, st);
    ChunksOfJoin(ws);
    assert ToLower(ws[0]) == "for";
    ForLoopGenerates(v, s, e, st);
  }

  /** `END` in any case is `end` in lower case. */
  lemma LowerEnd()
    ensures ToLower("END") == "end"
  {
    var r := ToLower("END");
    assert r[0] == 'e' && r[1] == 'n' && r[2] == 'd';
  }

  /** `{$END$}`: its content is one chunk that closes the innermost scope. */
  lemma EndResolves(f: seq<Node>)
    requires |f| > 1
    ensures Trim("END") == "END" && NoTagExit("END")
    ensures ResolveTag(GetTagChunks("END"), f) == Ok(CloseScope(f))
  {
    assert TrimStable("END");
    assert ChunkWord("END");
    ChunksOfJoin(["END"]);
    LowerEnd();
    assert ClassifyTag(["END"]) == EndTag;
  }

  /** A printed `{$END$}` closes the innermost scope. */
  lemma EndSteps(data: string, i: nat, g: seq<Node>, j: nat)
    requires PrintedAt(data, i, "{$END$}") && j == i + 7 && |g| > 1 && Frames(g)
    ensures Frames(CloseScope(g)) && Steps(data, i, g, j, CloseScope(g))
  {
    assert "{$END$}" == "{$" + "END" + "$}";
    EndTagSteps(data, i, g, j);
  }

  lemma EndTagSteps(data: string, i: nat, g: seq<Node>, j: nat)
    requires PrintedAt(data, i, "{$" + "END" + "$}") && j == i + 4 + |"END"| && |g| > 1 && Frames(g)
    ensures Frames(CloseScope(g)) && Steps(data, i, g, j, CloseScope(g))
  {
    EndResolves(g);
    TagSteps(data, i, "END", g, CloseScope(g), j);
  }

  /** A FOR left open at the end of the input is an error. */
  lemma UnclosedFor(s: string)
    requires s == "{$FOR i 1 2$}"
    ensures Parse(s) == Err(UnclosedLoop)
  {
    var content := "FOR i 1 2";
    var doc := [DocumentNode(NoList)];
    var g := doc + [ForLoopNode(Variable("i"), ConstantInteger(1), ConstantInteger(2), None, NoList)];
    assert NewLexer(s) == Ok(Lexer(s, 0, Init, [])) by {
      assert BlankRun(s, |s|) == 0 && !IsLineTerminator(s[|s| - 1]);
    }
    OpenForLexes(s);
    var chunks := GetTagChunks(content);
    OpenForChunks(content);
    ForClassified(chunks);
    OpenForBuilt(chunks);
    ForOpens(chunks, doc, g[1]);
    ParseTagStep(Lexer(s, 0, Init, []), doc, content, Lexer(s, 11, Tag, []), g);
    TagAtTagExit(s, 11, []);
  }

  lemma OpenForLexes(s: string)
    requires s == "{$FOR i 1 2$}"
    ensures NextToken(Lexer(s, 0, Init, [])) == Ok((Token(Some("FOR i 1 2"), TagToken), Lexer(s, 11, Tag, [])))
  {
    assert s[0] == '{' && s[1] == '$';
    assert NextToken(Lexer(s, 0, Init, [])) == NextToken(Lexer(s, 2, Tag, []));
    assert NoTagExitSpan(s, 2, 11) && [] + s[2..11] == "FOR i 1 2";
    ScanTagContent(s, 2, 11, []);
    assert Trim("FOR i 1 2") == "FOR i 1 2";
  }

  /** A FOR tag that builds a node pushes it as a new scope. */
  lemma ForOpens(chunks: seq<string>, frames: seq<Node>, node: Node)
    requires |frames| > 0 && |chunks| > 0 && forall k :: 0 <= k < |chunks| ==> |chunks[k]| > 0
    requires ClassifyTag(chunks) == ForTag && GenerateForLoop(chunks) == Ok(node)
    ensures ResolveTag(chunks, frames) == Ok(frames + [node])
  {
  }

  lemma ForClassified(chunks: seq<string>)
    requires chunks == ["FOR", "i", "1", "2"]
    ensures |chunks| > 0 && ClassifyTag(chunks) == ForTag
  {
  }

  lemma OpenForBuilt(chunks: seq<string>)
    requires chunks == ["FOR", "i", "1", "2"]
    ensures GenerateForLoop(chunks) == Ok(ForLoopNode(Variable("i"), ConstantInteger(1), ConstantInteger(2), None, NoList))
  {
    OpenForChecked(chunks);
    OpenForElements(chunks);
  }

  lemma OpenForChecked(chunks: seq<string>)
    requires chunks == ["FOR", "i", "1", "2"]
    ensures IsVariable(chunks[1]) == Ok(true) && CheckForArguments(chunks, 2) == Ok(())
  {
    var c2, c3 := chunks[2], chunks[3];
    DigitElement(c2, 1);
    DigitElement(c3, 2);
    assert CheckForArguments(chunks, 4) == Ok(());
    assert CheckForArguments(chunks, 3) == Ok(());
  }

  lemma OpenForElements(chunks: seq<string>)
    requires chunks == ["FOR", "i", "1", "2"]
    ensures GenerateElement(chunks[1]) == Ok(Variable("i"))
    ensures GenerateElement(chunks[2]) == Ok(ConstantInteger(1))
    ensures GenerateElement(chunks[3]) == Ok(ConstantInteger(2))
  {
    var c1, c2, c3 := chunks[1], chunks[2], chunks[3];
    VariableRoundTrip(c1);
    DigitElement(c2, 1);
    DigitElement(c3, 2);
  }

  /** A one-digit integer is an integer element and an acceptable FOR argument. */
  lemma DigitElement(c: string, n: int)
    requires (c == "1" && n == 1) || (c == "2" && n == 2)
    ensures GenerateElement(c) == Ok(ConstantInteger(n)) && ArgumentKind(c) == Ok(true)
  {
    IntRoundTrip(n);
  }

  lemma OpenForChunks(content: string)
    requires content == "FOR i 1 2"
    ensures GetTagChunks(content) == ["FOR", "i", "1", "2"]
  {
    var ws := ["FOR", "i", "1", "2"];
    assert Join(ws, ' ') == content;
    assert forall k :: 0 <= k < |ws| ==> ChunkWord(ws[k]);
    ChunksOfJoin(ws);
  }
}
