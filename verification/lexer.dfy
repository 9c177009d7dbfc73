/** The SmartScript lexer: a three-state scanner (INIT, TEXT, TAG) over the
    document's characters that hands out TEXT, TAG and EOF tokens. */
module Lexer {
  import opened Wrappers
  import opened JString

  datatype LexerState = Init | Text | Tag

  datatype TokenType = TextToken | TagToken | EofToken

  /** A token; the EOF token carries no value. */
  datatype Token = Token(value: Option<string>, kind: TokenType)

  datatype LexError =
    | UnsupportedEscape      // a backslash in text not followed by `{` or `\`
    | TokenInInit            // a token requested while still in INIT
    | IllegalGroupReference  // the replacement `{$` ends in a bare `$`

  /** The scanner: the characters, the current position, the mode and the
      characters collected for the token being built. */
  datatype Lexer = Lexer(data: string, index: nat, state: LexerState, buffer: string) {
    /** The position is inside the input, and nothing is collected before the
        first mode switch. */
    predicate Valid() {
      index <= |data| && (state == Init ==> buffer == [])
    }
  }

  // ---------------------------------------------------------------------------
  // The constructor's two replaceAll calls

  /** The class `[\n\r\t ]` of both patterns. */
  predicate IsRegexBlank(c: char) {
    c == '\n' || c == '\r' || c == '\t' || c == ' '
  }

  /** The line terminators of java.util.regex. */
  predicate IsLineTerminator(c: char) {
    c == '\n' || c == '\r' || c == '\U{85}' || c == '\U{2028}' || c == '\U{2029}'
  }

  /** Where `$` matches without MULTILINE: at the end of the input, before a
      final line terminator (not between `\r` and `\n`), or before a final
      `\r\n`. */
  predicate DollarAt(s: string, e: nat)
    requires e <= |s|
  {
    e == |s|
    || (e + 1 == |s| && IsLineTerminator(s[e]) && !(s[e] == '\n' && e > 0 && s[e - 1] == '\r'))
    || (e + 2 == |s| && s[e] == '\r' && s[e + 1] == '\n')
  }

  /** A `{` followed by one or more blanks that run up to position `e`. */
  predicate BraceBlanksTo(s: string, e: nat)
    requires e <= |s|
  {
    exists k :: 0 <= k && k + 1 < e && s[k] == '{' && forall j :: k < j < e ==> IsRegexBlank(s[j])
  }

  /** `\{[\n\r\t ]+$` finds a match: a `{` and blanks up to a place where `$`
      matches. */
  predicate OpeningPatternMatches(s: string) {
    exists e :: 0 <= e <= |s| && DollarAt(s, e) && BraceBlanksTo(s, e)
  }

  /** `$[\n\r\t ]+}` would need a `}` after the blanks that follow a place
      where `$` matches, and no such `}` exists: the second replaceAll never
      changes the text. */
  lemma ClosingPatternNeverMatches(s: string, i: nat, e: nat)
    requires i < e < |s| && DollarAt(s, i)
    requires forall j :: i <= j < e ==> IsRegexBlank(s[j])
    ensures s[e] != '}'
  {
  }

  /** The number of blanks that end `s[..e]`. */
  function BlankRun(s: string, e: nat): (n: nat)
    requires e <= |s|
    ensures n <= e && forall j :: e - n <= j < e ==> IsRegexBlank(s[j])
    ensures n < e ==> !IsRegexBlank(s[e - n - 1])
  {
    if e == 0 || !IsRegexBlank(s[e - 1]) then 0 else BlankRun(s, e - 1) + 1
  }

  /** The blanks that end `s[..e]` are at least one and follow a `{`. */
  predicate BraceBeforeBlanks(s: string, e: nat)
    requires e <= |s|
  {
    var n := BlankRun(s, e);
    0 < n < e && s[e - n - 1] == '{'
  }

  /** Only the blanks ending `s[..e]` can follow the `{`: the brace is the
      character before the whole run. */
  lemma BraceBeforeBlanksIff(s: string, e: nat)
    requires e <= |s|
    ensures BraceBeforeBlanks(s, e) <==> BraceBlanksTo(s, e)
  {
    var n := BlankRun(s, e);
    if BraceBeforeBlanks(s, e) {
      var k := e - n - 1;
      assert s[k] == '{' && forall j :: k < j < e ==> IsRegexBlank(s[j]);
    }
    if BraceBlanksTo(s, e) {
      var k :| 0 <= k && k + 1 < e && s[k] == '{' && forall j :: k < j < e ==> IsRegexBlank(s[j]);
      assert !IsRegexBlank(s[k]);
    }
  }

  /** The first pattern matches exactly when the blanks that end the input, or
      that end it before one of the line terminators `\u0085`, `\u2028` and
      `\u2029`, follow a `{`. A final `\n` or `\r` is a blank itself. */
  lemma OpeningPatternIff(s: string)
    ensures OpeningPatternMatches(s) <==> ReplaceFails(s)
  {
    BraceBeforeBlanksIff(s, |s|);
    if |s| > 0 {
      BraceBeforeBlanksIff(s, |s| - 1);
    }
    if OpeningPatternMatches(s) {
      var e :| 0 <= e <= |s| && DollarAt(s, e) && BraceBlanksTo(s, e);
      if e < |s| && IsRegexBlank(s[e]) {
        assert e + 1 == |s| || s[e + 1] == '\n';
        var k :| 0 <= k && k + 1 < e && s[k] == '{' && forall j :: k < j < e ==> IsRegexBlank(s[j]);
        assert forall j :: k < j < |s| ==> IsRegexBlank(s[j]);
        assert BraceBlanksTo(s, |s|);
      }
    }
    if ReplaceFails(s) {
      if BraceBeforeBlanks(s, |s|) {
        assert DollarAt(s, |s|);
      } else {
        assert DollarAt(s, |s| - 1);
      }
    }
  }

  /** The first replaceAll finds a match, computed from the blanks at the end. */
  predicate ReplaceFails(s: string) {
    BraceBeforeBlanks(s, |s|)
    || (|s| > 0 && IsLineTerminator(s[|s| - 1]) && !IsRegexBlank(s[|s| - 1])
        && BraceBeforeBlanks(s, |s| - 1))
  }

  /** The SmartScriptLexer constructor. Its first replaceAll has the
      replacement `{$`, whose final `$` opens a group reference with no group
      index: whenever the pattern matches, Matcher.appendReplacement throws
      IllegalArgumentException. Otherwise neither replaceAll changes the text,
      and the lexer starts in INIT with an empty buffer. */
  function NewLexer(text: string): (r: Result<Lexer, LexError>)
    ensures r.Err? <==> OpeningPatternMatches(text)
    ensures r.Err? ==> r.error == IllegalGroupReference
    ensures r.Ok? ==>
      r.value.Valid() && r.value.data == text && r.value.index == 0 && r.value.state == Init && r.value.buffer == []
  {
    OpeningPatternIff(text);
    if ReplaceFails(text) then Err(IllegalGroupReference) else Ok(Lexer(text, 0, Init, []))
  }

  /** A document that ends in `{` and blanks is refused, as is one where a
      `\u2028` follows them; blanks inside the text are harmless. */
  lemma TrailingBraceRefused()
    ensures NewLexer("a{ ").Err? && NewLexer("{\t\U{2028}").Err?
    ensures NewLexer("{ a").Ok? && NewLexer("{$ a $}").Ok?
  {
    assert OpeningPatternMatches("a{ ") by {
      assert DollarAt("a{ ", 3) && "a{ "[1] == '{';
    }
    assert OpeningPatternMatches("{\t\U{2028}") by {
      assert DollarAt("{\t\U{2028}", 2) && "{\t\U{2028}"[0] == '{';
    }
    assert BlankRun("{ a", 3) == 0 && BlankRun("{ a", 2) == 1;
    assert BlankRun("{$ a $}", 7) == 0 && BlankRun("{$ a $}", 6) == 0;
  }

  /** The character after position `i`; `'\0'` when `i` is the last position. */
  function NextChar(data: string, i: nat): char {
    if i + 1 < |data| then data[i + 1] else '\0'
  }

  predicate IsTagEntry(c: char, n: char) {
    c == '{' && n == '$'
  }

  predicate IsIgnoreTag(c: char, n: char) {
    c == '\\' && n == '{'
  }

  predicate IsTagExit(c: char, n: char) {
    c == '$' && n == '}'
  }

  predicate IsDoubleBackslash(c: char, n: char) {
    c == '\\' && n == '\\'
  }

  predicate IsUnsupportedSequence(c: char, n: char) {
    c == '\\' && n != '{' && n != '\\'
  }

  /** Turns the buffer into a token of the current mode and empties it; a TAG
      token's value is the trimmed buffer. There is no token for INIT. */
  function GenerateToken(lx: Lexer): (r: Result<(Token, Lexer), LexError>)
    ensures r.Err? <==> lx.state == Init
    ensures r.Ok? ==> r.value.1 == lx.(buffer := [])
    ensures r.Ok? && lx.state == Text ==> r.value.0 == Token(Some(lx.buffer), TextToken)
    ensures r.Ok? && lx.state == Tag ==> r.value.0 == Token(Some(Trim(lx.buffer)), TagToken)
  {
    match lx.state
    case Init => Err(TokenInInit)
    case Text => Ok((Token(Some(lx.buffer), TextToken), lx.(buffer := [])))
    case Tag => Ok((Token(Some(Trim(lx.buffer)), TagToken), lx.(buffer := [])))
  }

  /** nextToxen: scans from the current position until a token is complete.

      INIT moves to TAG past a leading `{$`, otherwise to TEXT without consuming
      anything. In TEXT, `{$` ends a non-empty buffer as a TEXT token and stays
      put, or, with an empty buffer, switches to TAG past the delimiter; `\{` and
      `\\` contribute their second character; any other backslash is an error.
      In TAG, `$}` ends a non-empty buffer as a TAG token and stays put, or, with
      an empty buffer, switches to TEXT past the delimiter; everything else is
      collected verbatim. At the end of the input a non-empty buffer becomes the
      last token and an empty one gives EOF. */
  function NextToken(lx: Lexer): (r: Result<(Token, Lexer), LexError>)
    requires lx.Valid()
    ensures r != Err(TokenInInit)
    ensures r.Ok? ==> var (t, next) := r.value;
      next.Valid() && next.data == lx.data && next.buffer == [] && lx.index <= next.index
      && (t.kind == EofToken <==> t.value.None?)
      && (t.kind == TextToken ==> t.value.Some? && t.value.value != [])
      && (t.kind == EofToken ==> lx.buffer == [] && next.index == |lx.data|)
      && (t.kind != EofToken && lx.buffer == [] ==> lx.index < next.index)
    decreases |lx.data| - lx.index, if lx.state == Init then 1 else 0
  {
    if lx.index == |lx.data| then
      if lx.buffer != [] then GenerateToken(lx) else Ok((Token(None, EofToken), lx))
    else
      var c := lx.data[lx.index];
      var n := NextChar(lx.data, lx.index);
      match lx.state
      case Init =>
        if IsTagEntry(c, n) then NextToken(lx.(state := Tag, index := lx.index + 2))
        else NextToken(lx.(state := Text))
      case Text =>
        if IsTagEntry(c, n) then
          if lx.buffer != [] then GenerateToken(lx)
          else NextToken(lx.(state := Tag, index := lx.index + 2))
        else if IsIgnoreTag(c, n) || IsDoubleBackslash(c, n) then
          NextToken(lx.(buffer := lx.buffer + [n], index := lx.index + 2))
        else if IsUnsupportedSequence(c, n) then
          Err(UnsupportedEscape)
        else
          NextToken(lx.(buffer := lx.buffer + [c], index := lx.index + 1))
      case Tag =>
        if IsTagExit(c, n) then
          if lx.buffer != [] then GenerateToken(lx)
          else NextToken(lx.(state := Text, index := lx.index + 2))
        else
          NextToken(lx.(buffer := lx.buffer + [c], index := lx.index + 1))
  }

  /** Every token up to and including EOF, or the first error. `lx` must start
      with an empty buffer, as every lexer between two calls has. */
  function Tokenize(lx: Lexer): (r: Result<seq<Token>, LexError>)
    requires lx.Valid() && lx.buffer == []
    ensures r.Ok? ==> |r.value| > 0 && r.value[|r.value| - 1].kind == EofToken
    ensures r.Ok? ==> forall i :: 0 <= i < |r.value| - 1 ==> r.value[i].kind != EofToken
    decreases |lx.data| - lx.index
  {
    var (t, next) :- NextToken(lx);
    if t.kind == EofToken then Ok([t])
    else
      var rest :- Tokenize(next);
      Ok([t] + rest)
  }

  // ---------------------------------------------------------------------------
  // Properties of the scanner

  /** Once EOF has been returned, every later call returns EOF again and leaves
      the lexer as it is. */
  lemma EofSticky(lx: Lexer)
    requires lx.Valid()
    requires NextToken(lx).Ok? && NextToken(lx).value.0.kind == EofToken
    ensures var next := NextToken(lx).value.1;
      NextToken(next) == Ok((Token(None, EofToken), next))
  {
  }

  /** One ordinary character in TEXT mode is appended to the buffer. */
  lemma TextStep(lx: Lexer)
    requires lx.Valid() && lx.state == Text && lx.index < |lx.data|
    requires lx.data[lx.index] != '\\' && !IsTagEntry(lx.data[lx.index], NextChar(lx.data, lx.index))
    ensures NextToken(lx) == NextToken(lx.(buffer := lx.buffer + [lx.data[lx.index]], index := lx.index + 1))
  {
  }

  /** In TEXT mode, `\{` and `\\` put their second character into the buffer
      and move past both. */
  lemma TextEscape(lx: Lexer)
    requires lx.Valid() && lx.state == Text && lx.index + 1 < |lx.data| && lx.data[lx.index] == '\\'
    requires lx.data[lx.index + 1] == '{' || lx.data[lx.index + 1] == '\\'
    ensures NextToken(lx) == NextToken(lx.(buffer := lx.buffer + [lx.data[lx.index + 1]], index := lx.index + 2))
  {
  }

  /** One character other than the `$}` exit in TAG mode is appended to the buffer. */
  lemma TagStep(lx: Lexer)
    requires lx.Valid() && lx.state == Tag && lx.index < |lx.data|
    requires !IsTagExit(lx.data[lx.index], NextChar(lx.data, lx.index))
    ensures NextToken(lx) == NextToken(lx.(buffer := lx.buffer + [lx.data[lx.index]], index := lx.index + 1))
  {
  }

  /** Positions i..j-1 of `data` hold plain text: no backslash and no `{$`. */
  predicate PlainSpan(data: string, i: nat, j: nat)
    requires i <= j <= |data|
  {
    forall k :: i <= k < j ==> data[k] != '\\' && !IsTagEntry(data[k], NextChar(data, k))
  }

  /** Taking one more character of a span into a buffer. */
  lemma SliceStep(data: string, i: nat, j: nat, b: string)
    requires i < j <= |data|
    ensures b + [data[i]] + data[i + 1..j] == b + data[i..j]
  {
    assert data[i..j] == [data[i]] + data[i + 1..j];
  }

  /** TEXT mode collects a plain span into the buffer verbatim. */
  lemma {:induction false} ScanPlainText(data: string, i: nat, j: nat, b: string)
    requires i <= j <= |data| && PlainSpan(data, i, j)
    ensures NextToken(Lexer(data, i, Text, b)) == NextToken(Lexer(data, j, Text, b + data[i..j]))
    decreases j - i
  {
    if i == j {
      assert b + data[i..j] == b;
    } else {
      var lx := Lexer(data, i, Text, b);
      TextStep(lx);
      assert lx.(buffer := lx.buffer + [data[i]], index := i + 1) == Lexer(data, i + 1, Text, b + [data[i]]);
      ScanPlainText(data, i + 1, j, b + [data[i]]);
      SliceStep(data, i, j, b);
    }
  }

  /** In TEXT mode, `{$` after collected text returns that text as one token and
      stays on the delimiter; on an empty buffer the delimiter is skipped and TAG
      begins. */
  lemma TextAtTagEntry(data: string, i: nat, b: string)
    requires i + 2 <= |data| && data[i] == '{' && data[i + 1] == '$'
    ensures b != [] ==>
      NextToken(Lexer(data, i, Text, b)) == Ok((Token(Some(b), TextToken), Lexer(data, i, Text, [])))
    ensures b == [] ==>
      NextToken(Lexer(data, i, Text, b)) == NextToken(Lexer(data, i + 2, Tag, []))
  {
  }

  /** In TAG mode, `$}` after collected characters returns their trimmed form as
      one TAG token and stays on the delimiter; on an empty buffer the delimiter
      is skipped and TEXT begins, so `{$$}` produces no token at all. */
  lemma TagAtTagExit(data: string, i: nat, b: string)
    requires i + 2 <= |data| && data[i] == '$' && data[i + 1] == '}'
    ensures b != [] ==>
      NextToken(Lexer(data, i, Tag, b)) == Ok((Token(Some(Trim(b)), TagToken), Lexer(data, i, Tag, [])))
    ensures b == [] ==>
      NextToken(Lexer(data, i, Tag, b)) == NextToken(Lexer(data, i + 2, Text, []))
  {
  }

  /** `{$$}` on its own lexes to EOF alone. */
  lemma EmptyTagVanishes()
    ensures NewLexer("{$$}").Ok? && Tokenize(NewLexer("{$$}").value) == Ok([Token(None, EofToken)])
  {
    assert BlankRun("{$$}", 4) == 0;
    assert NextToken(Lexer("{$$}", 4, Text, [])) == Ok((Token(None, EofToken), Lexer("{$$}", 4, Text, [])));
    assert NextToken(Lexer("{$$}", 2, Tag, [])) == NextToken(Lexer("{$$}", 4, Text, []));
  }

  /** Positions i..j-1 of `data` hold no `$}`. */
  predicate NoTagExitSpan(data: string, i: nat, j: nat)
    requires i <= j <= |data|
  {
    forall k :: i <= k < j ==> !IsTagExit(data[k], NextChar(data, k))
  }

  /** Tag content without `$}` is collected verbatim, escapes included, and the
      tag token is its trimmed form; the lexer then rests on the `$}`. */
  lemma {:induction false} ScanTagContent(data: string, i: nat, j: nat, b: string)
    requires i <= j && j + 2 <= |data| && data[j] == '$' && data[j + 1] == '}'
    requires NoTagExitSpan(data, i, j) && |b| + (j - i) > 0
    ensures NextToken(Lexer(data, i, Tag, b))
      == Ok((Token(Some(Trim(b + data[i..j])), TagToken), Lexer(data, j, Tag, [])))
    decreases j - i
  {
    if i == j {
      assert b + data[i..j] == b;
      TagAtTagExit(data, j, b);
    } else {
      var lx := Lexer(data, i, Tag, b);
      TagStep(lx);
      assert lx.(buffer := lx.buffer + [data[i]], index := i + 1) == Lexer(data, i + 1, Tag, b + [data[i]]);
      ScanTagContent(data, i + 1, j, b + [data[i]]);
      SliceStep(data, i, j, b);
    }
  }

  /** A backslash in TEXT that is followed by neither `{` nor `\` — or by nothing
      at all — is an error, after any plain text before it. */
  lemma BadEscape(data: string, i: nat, j: nat, b: string)
    requires i <= j < |data| && PlainSpan(data, i, j)
    requires data[j] == '\\' && NextChar(data, j) != '{' && NextChar(data, j) != '\\'
    ensures NextToken(Lexer(data, i, Text, b)) == Err(UnsupportedEscape)
  {
    ScanPlainText(data, i, j, b);
  }
}
