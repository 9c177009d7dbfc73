/** The SmartScript parser: splits tag bodies into chunks, classifies chunks as
    elements and builds the document tree with a scope stack. */
module Parser {
  import opened Wrappers
  import opened JString
  import opened Elements
  import opened Nodes
  import opened Lexer

  /** Why parsing failed. The parser reports every failure as one
      SmartScriptParserException; the variants record which check threw. */
  datatype ParseFailure =
    | LexerFailure(cause: LexError)  // the lexer's escape error
    | EmptyTag                       // a tag without chunks: `chunks[0]` is out of range
    | EmptyName                      // `charAt(0)` on an empty would-be variable name
    | ForArgumentCount               // a FOR with other than 3 or 4 arguments
    | ForVariable                    // a FOR whose first argument is no variable
    | ForArgumentType                // a FOR argument of the wrong kind
    | DoubleAsInteger                // a double re-read with Integer.parseInt
    | InvalidElement(text: string)   // a chunk that is no element at all
    | UnknownTag                     // none of FOR, `=` or END
    | TooManyEnds                    // END popped the document
    | UnclosedLoop                   // a FOR without END at the end of the input
    | ReplaceFailure                 // the lexer's constructor threw, outside the parser's try

  /** The failures raised while building the tree, as opposed to lexing. */
  predicate TreeFailure(e: ParseFailure) {
    !e.LexerFailure? && !e.ReplaceFailure?
  }

  // ---------------------------------------------------------------------------
  // Splitting a tag into chunks

  /** getTagChunks, one character at a time: whitespace ends the chunk being
      built unless it is a string; a `"` that starts a chunk opens a string and
      the next `"` closes it, whitespace included; the last chunk is flushed at
      the end. Empty chunks are never produced. */
  function ChunkScan(content: string, buffer: string, inString: bool): (r: seq<string>)
    requires inString ==> |buffer| > 0 && buffer[0] == '"'
    requires !inString ==> NoWhitespace(buffer)
    ensures forall k :: 0 <= k < |r| ==> |r[k]| > 0
    ensures forall k :: 0 <= k < |r| ==> r[k][0] != '"' ==> NoWhitespace(r[k])
    decreases |content|
  {
    if |content| == 0 then (if |buffer| > 0 then [buffer] else [])
    else
      var c := content[0];
      var rest := content[1..];
      if IsWhitespace(c) then
        if !inString then
          if |buffer| > 0 then [buffer] + ChunkScan(rest, [], false)
          else ChunkScan(rest, buffer, false)
        else ChunkScan(rest, buffer + [c], true)
      else
        var b := buffer + [c];
        if c == '"' then
          if inString then [b] + ChunkScan(rest, [], false)
          else if |b| == 1 then ChunkScan(rest, b, true)
          else ChunkScan(rest, b, false)
        else ChunkScan(rest, b, inString)
  }

  predicate NoWhitespace(s: string) {
    forall k :: 0 <= k < |s| ==> !IsWhitespace(s[k])
  }

  /** getTagChunks on the trimmed content of a TAG token. */
  function GetTagChunks(content: string): (r: seq<string>)
    ensures forall k :: 0 <= k < |r| ==> |r[k]| > 0
    ensures forall k :: 0 <= k < |r| ==> r[k][0] != '"' ==> NoWhitespace(r[k])
  {
    ChunkScan(content, [], false)
  }

  /** A chunk getTagChunks returns whole: a run of non-whitespace that does not
      open a string, or a quoted string with no quote inside. */
  predicate ChunkWord(w: string) {
    (|w| > 0 && NoWhitespace(w) && w[0] != '"')
    || (|w| >= 2 && w[0] == '"' && w[|w| - 1] == '"' && '"' !in w[1..|w| - 1])
  }

  /** Outside a string, characters other than whitespace extend a non-empty
      buffer, quotes included. */
  lemma {:induction false} ScanPlainRun(u: string, rest: string, b: string)
    requires |b| > 0 && NoWhitespace(b) && NoWhitespace(u)
    ensures ChunkScan(u + rest, b, false) == ChunkScan(rest, b + u, false)
    decreases |u|
  {
    if |u| == 0 {
      assert u + rest == rest;
      assert b + u == b;
    } else {
      assert (u + rest)[0] == u[0];
      assert (u + rest)[1..] == u[1..] + rest;
      ScanPlainRun(u[1..], rest, b + [u[0]]);
      assert b + [u[0]] + u[1..] == b + u;
    }
  }

  /** Inside a string, everything but a quote extends the buffer. */
  lemma {:induction false} ScanStringRun(u: string, rest: string, b: string)
    requires |b| > 0 && b[0] == '"' && '"' !in u
    ensures ChunkScan(u + rest, b, true) == ChunkScan(rest, b + u, true)
    decreases |u|
  {
    if |u| == 0 {
      assert u + rest == rest;
      assert b + u == b;
    } else {
      assert (u + rest)[0] == u[0];
      assert (u + rest)[1..] == u[1..] + rest;
      ScanStringRun(u[1..], rest, b + [u[0]]);
      assert b + [u[0]] + u[1..] == b + u;
    }
  }

  /** Outside a string, the end of the input or a space flushes the buffer. */
  lemma ScanFlush(rest: string, b: string)
    requires |b| > 0 && NoWhitespace(b)
    ensures rest == [] ==> ChunkScan(rest, b, false) == [b]
    ensures |rest| > 0 && rest[0] == ' ' ==> ChunkScan(rest, b, false) == [b] + ChunkScan(rest[1..], [], false)
  {
    if |rest| > 0 && rest[0] == ' ' {
      assert IsWhitespace(rest[0]);
    }
  }

  /** After a closed string, a space is skipped. */
  lemma ScanSpace(rest: string)
    requires |rest| > 0 && rest[0] == ' '
    ensures ChunkScan(rest, [], false) == ChunkScan(rest[1..], [], false)
  {
    assert IsWhitespace(rest[0]);
  }

  lemma ScanPlainWord(w: string, rest: string)
    requires |w| > 0 && NoWhitespace(w) && w[0] != '"'
    ensures ChunkScan(w + rest, [], false) == ChunkScan(rest, w, false)
  {
    assert (w + rest)[0] == w[0];
    assert (w + rest)[1..] == w[1..] + rest;
    assert !IsWhitespace(w[0]) && [] + [w[0]] == [w[0]];
    assert ChunkScan(w + rest, [], false) == ChunkScan(w[1..] + rest, [w[0]], false);
    assert NoWhitespace(w[1..]);
    ScanPlainRun(w[1..], rest, [w[0]]);
    assert [w[0]] + w[1..] == w;
  }

  lemma ScanQuotedWord(w: string, rest: string)
    requires |w| >= 2 && w[0] == '"' && w[|w| - 1] == '"' && '"' !in w[1..|w| - 1]
    ensures ChunkScan(w + rest, [], false) == [w] + ChunkScan(rest, [], false)
  {
    var body := w[1..|w| - 1];
    var close := [w[|w| - 1]] + rest;
    assert w + rest == [w[0]] + (body + close);
    assert [] + [w[0]] == [w[0]];
    assert ChunkScan(w + rest, [], false) == ChunkScan(body + close, [w[0]], true);
    ScanStringRun(body, close, [w[0]]);
    assert close[0] == '"' && close[1..] == rest;
    assert ChunkScan(close, [w[0]] + body, true) == [[w[0]] + body + ['"']] + ChunkScan(rest, [], false);
    assert [w[0]] + body + [w[|w| - 1]] == w;
  }

  /** A chunk word followed by the end or by a space comes out as one chunk,
      and the scan goes on after the space with an empty buffer. */
  lemma ScanWord(w: string, rest: string)
    requires ChunkWord(w)
    ensures rest == [] ==> ChunkScan(w + rest, [], false) == [w]
    ensures |rest| > 0 && rest[0] == ' ' ==>
      ChunkScan(w + rest, [], false) == [w] + ChunkScan(rest[1..], [], false)
  {
    if w[0] != '"' {
      ScanPlainWord(w, rest);
      ScanFlush(rest, w);
    } else {
      ScanQuotedWord(w, rest);
      if |rest| > 0 && rest[0] == ' ' {
        ScanSpace(rest);
      }
    }
  }

  /** Chunk words joined by single spaces split back into the same words. */
  lemma {:induction false} ChunksOfJoin(ws: seq<string>)
    requires |ws| > 0 && forall k :: 0 <= k < |ws| ==> ChunkWord(ws[k])
    ensures GetTagChunks(Join(ws, ' ')) == ws
    decreases |ws|
  {
    if |ws| == 1 {
      ScanWord(ws[0], []);
      assert ws[0] + [] == ws[0];
    } else {
      var rest := [' '] + Join(ws[1..], ' ');
      assert Join(ws, ' ') == ws[0] + rest;
      ScanWord(ws[0], rest);
      assert rest[1..] == Join(ws[1..], ' ');
      ChunksOfJoin(ws[1..]);
      assert [ws[0]] + ws[1..] == ws;
    }
  }

  // ---------------------------------------------------------------------------
  // Classifying chunks

  predicate IsInteger(s: string) {
    ParseInt32(s).Some?
  }

  /** isDouble: Double.parseDouble accepts the text, NaN and the infinities
      included. */
  predicate IsDouble(s: string) {
    ParsesAsDouble(s)
  }

  /** A letter followed by letters, digits and underscores. */
  predicate IsIdentifier(s: string) {
    |s| > 0 && IsLetter(s[0])
    && forall k :: 0 <= k < |s| ==> IsDigit(s[k]) || IsLetter(s[k]) || s[k] == '_'
  }

  /** isVariable: reads the first character before anything else, so an empty
      input fails. */
  function IsVariable(s: string): (r: Result<bool, ParseFailure>)
    ensures r.Err? <==> s == []
    ensures r.Err? ==> r.error == EmptyName
    ensures r == Ok(true) <==> IsIdentifier(s)
  {
    if |s| == 0 then Err(EmptyName)
    else if !IsLetter(s[0]) then Ok(false)
    else Ok(forall k :: 0 <= k < |s| ==> IsDigit(s[k]) || IsLetter(s[k]) || s[k] == '_')
  }

  /** isFunction: `@` and a variable name; a lone `@` fails in isVariable. */
  function IsFunction(s: string): (r: Result<bool, ParseFailure>)
    ensures r.Err? <==> s == "@"
    ensures r.Err? ==> r.error == EmptyName
    ensures r == Ok(true) <==> |s| > 1 && s[0] == '@' && IsIdentifier(s[1..])
  {
    if !StartsWith(s, "@") then Ok(false) else IsVariable(s[1..])
  }

  /** isString: starts and ends with a quote, so a lone `"` counts. */
  predicate IsString(s: string) {
    StartsWith(s, "\"") && EndsWith(s, "\"")
  }

  predicate IsOperator(s: string) {
    s == "+" || s == "-" || s == "*" || s == "/" || s == "^"
  }

  /** The text of a string literal element: the literal four characters `\r\n`
      become a line separator. */
  function StringValue(s: string): string {
    Replace(s, "\\r\\n", LineSeparator)
  }

  /** generateElement: integer, double, variable, function, string, operator,
      first match wins. A double that is no integer is converted with
      Integer.parseInt and fails, so the parser never builds a double. */
  function GenerateElement(s: string): (r: Result<Element, ParseFailure>)
    ensures r.Ok? && r.value.ConstantInteger? <==> IsInteger(s)
    ensures IsInteger(s) ==> r == Ok(ConstantInteger(ParseInt32(s).value))
    ensures !IsInteger(s) && IsDouble(s) ==> r == Err(DoubleAsInteger)
    ensures r.Ok? ==> !r.value.ConstantDouble?
    ensures r.Ok? && r.value.Variable? <==> !IsInteger(s) && !IsDouble(s) && IsIdentifier(s)
    ensures r.Ok? && (r.value.Variable? || r.value.Function? || r.value.Operator?) ==> AsText(r.value) == s
    ensures r.Ok? && r.value.Str? ==> IsString(s) && r.value.value == StringValue(s)
    ensures r.Err? && !IsDouble(s) && s != [] && s != "@" ==> r.error == InvalidElement(s)
    ensures r.Err? ==> TreeFailure(r.error)
  {
    if IsInteger(s) then Ok(ConstantInteger(ParseInt32(s).value))
    else if IsDouble(s) then Err(DoubleAsInteger)
    else
      var isVariable :- IsVariable(s);
      if isVariable then Ok(Variable(s))
      else
        var isFunction :- IsFunction(s);
        if isFunction then Ok(Function(s))
        else if IsString(s) then Ok(Str(StringValue(s)))
        else if IsOperator(s) then Ok(Operator(s))
        else Err(InvalidElement(s))
  }

  /** The elements generateElement builds back from their own text: integers in
      the int range, identifiers other than `NaN` and `Infinity` (which
      Double.parseDouble accepts), `@` and an identifier, operators, and quoted
      strings without the literal `\r\n`. */
  predicate Reparsable(e: Element) {
    match e
    case ConstantInteger(i) => MinInt <= i <= MaxInt
    case ConstantDouble(_) => false
    case Str(v) => |v| >= 2 && v[0] == '"' && v[|v| - 1] == '"' && !Contains(v, "\\r\\n")
    case Variable(n) => IsIdentifier(n) && n != "NaN" && n != "Infinity"
    case Function(n) => |n| > 1 && n[0] == '@' && IsIdentifier(n[1..])
    case Operator(o) => IsOperator(o)
  }

  /** Text that starts with neither a digit nor a point is no unsigned decimal. */
  lemma NotUnsigned(s: string)
    requires |s| > 0 && !IsDigit(s[0]) && s[0] != '.'
    ensures UnsignedDecimal(s).None?
  {
    var k := IndexOf(s, '.');
    if k == -1 {
      assert !AllDigits(s);
    } else {
      assert s[..k][0] == s[0];
      assert !AllDigits(s[..k]);
    }
  }

  /** Decimal notation needs a digit or a point first. */
  lemma NotDecimal(u: string)
    requires |u| > 0 && !IsDigit(u[0]) && u[0] != '.'
    ensures DecimalDouble(u).None?
  {
    var k := IndexOfEither(u, 'e', 'E');
    if k == -1 {
      NotUnsigned(u);
    } else if k == 0 {
      assert u[..k] == [];
      assert UnsignedDecimal([]).None?;
    } else {
      assert u[..k][0] == u[0];
      NotUnsigned(u[..k]);
    }
  }

  /** Neither notation reads a text that starts with neither a digit nor a
      point. */
  lemma NotUnsignedDouble(s: string)
    requires |s| > 0 && !IsDigit(s[0]) && s[0] != '.'
    ensures UnsignedDouble(s).None?
  {
    assert !StartsWith(s, "0x") && !StartsWith(s, "0X") by {
      assert s[0] != '0';
    }
    var u := WithoutSuffix(s);
    if |u| == 0 {
      assert IndexOfEither(u, 'e', 'E') == -1;
      assert UnsignedDecimal(u).None?;
    } else {
      assert u[0] == s[0];
      NotDecimal(u);
    }
  }

  /** Text that starts with neither a digit, a sign nor a point, and is neither
      `NaN` nor `Infinity`, is no number. */
  lemma NotNumeric(s: string)
    requires |s| > 0 && TrimStable(s)
    requires !IsDigit(s[0]) && s[0] != '-' && s[0] != '+' && s[0] != '.'
    requires s != "NaN" && s != "Infinity"
    ensures !IsInteger(s) && !IsDouble(s)
  {
    StableParse(s);
    assert Trim(s) == s;
    assert SignedDouble(s) == UnsignedDouble(s);
    NotUnsignedDouble(s);
  }

  /** `NaN` and `Infinity` read as doubles, so generateElement sends them to
      Integer.parseInt and fails rather than building variables. */
  lemma NonFiniteNames(s: string)
    requires s == "NaN" || s == "Infinity"
    ensures GenerateElement(s) == Err(DoubleAsInteger)
  {
    NonFiniteIsDouble(s);
  }

  lemma NonFiniteIsDouble(s: string)
    requires s == "NaN" || s == "Infinity"
    ensures IsDouble(s) && !IsInteger(s)
  {
    NonFiniteText(s);
    NonFiniteReads(s);
    LetterLedNotInteger(s);
  }

  lemma NonFiniteText(s: string)
    requires s == "NaN" || s == "Infinity"
    ensures NonFiniteDouble(s)
  {
    assert TrimStable(s);
    assert Trim(s) == s;
  }

  lemma NonFiniteReads(s: string)
    requires NonFiniteDouble(s)
    ensures IsDouble(s)
  {
  }

  /** Integer.parseInt refuses a text that starts with a letter. */
  lemma LetterLedNotInteger(s: string)
    requires |s| > 0 && IsLetter(s[0])
    ensures !IsInteger(s)
  {
    assert s[0] != '-' && s[0] != '+' && !IsDigit(s[0]);
  }

  /** A lone sign is no number. */
  lemma SignNotNumeric(s: string)
    requires s == "+" || s == "-"
    ensures !IsInteger(s) && !IsDouble(s)
  {
    assert s[1..] == [];
    assert !IsInteger(s);
    SignNotDouble(s);
  }

  lemma SignNotDouble(s: string)
    requires s == "+" || s == "-"
    ensures !IsDouble(s)
  {
    LoneSignNotDouble(s);
  }

  /** The same for any one-character text that is a sign, stated without a
      literal so that the parse is unfolded step by step. */
  lemma LoneSignNotDouble(s: string)
    requires |s| == 1 && (s[0] == '+' || s[0] == '-')
    ensures !IsDouble(s)
  {
    SignNotDecimal(s);
    assert TrimStable(s);
    StableParse(s);
    assert Trim(s) == s;
    assert ParseDouble(s) == None;
    assert !NonFiniteDouble(s) by {
      assert |Trim(s)| == 1;
    }
  }

  lemma SignNotDecimal(s: string)
    requires |s| == 1 && (s[0] == '+' || s[0] == '-')
    ensures SignedDouble(s) == None
  {
    assert s[1..] == [];
    assert IndexOfEither([], 'e', 'E') == -1;
    assert UnsignedDecimal([]) == None;
  }

  lemma StringRoundTrip(v: string)
    requires Reparsable(Str(v))
    ensures GenerateElement(v) == Ok(Str(v))
  {
    NotNumeric(v);
    assert !StartsWith(v, "@") by {
      assert v[..1] == ['"'];
    }
    assert IsString(v) by {
      assert v[..1] == ['"'];
      assert v[|v| - 1..] == ['"'];
    }
    assert StringValue(v) == v;
  }

  lemma VariableRoundTrip(n: string)
    requires IsIdentifier(n) && n != "NaN" && n != "Infinity"
    ensures GenerateElement(n) == Ok(Variable(n))
  {
    NotNumeric(n);
  }

  lemma FunctionRoundTrip(n: string)
    requires |n| > 1 && n[0] == '@' && IsIdentifier(n[1..])
    ensures GenerateElement(n) == Ok(Function(n))
  {
    NotNumeric(n);
    assert IsVariable(n) == Ok(false);
    assert StartsWith(n, "@") by {
      assert n[..1] == ['@'];
    }
  }

  /** An operator is no number. */
  lemma OperatorNotNumeric(o: string)
    requires IsOperator(o)
    ensures !IsInteger(o) && !IsDouble(o)
  {
    if o == "+" || o == "-" {
      SignNotNumeric(o);
    } else {
      NotNumeric(o);
    }
  }

  /** An operator is no variable, function or string. */
  lemma OperatorNotName(o: string)
    requires IsOperator(o)
    ensures IsVariable(o) == Ok(false) && IsFunction(o) == Ok(false) && !IsString(o)
  {
    assert |o| == 1 && o[..1] == o;
  }

  lemma OperatorRoundTrip(o: string)
    requires IsOperator(o)
    ensures GenerateElement(o) == Ok(Operator(o))
  {
    OperatorNotNumeric(o);
    OperatorNotName(o);
  }

  /** generateElement reads every reparsable element back from its text. */
  lemma ElementRoundTrip(e: Element)
    requires Reparsable(e)
    ensures GenerateElement(AsText(e)) == Ok(e)
  {
    match e
    case ConstantInteger(i) =>
      IntRoundTrip(i);
    case Str(v) =>
      StringRoundTrip(v);
    case Variable(n) =>
      VariableRoundTrip(n);
    case Function(n) =>
      FunctionRoundTrip(n);
    case Operator(o) =>
      OperatorRoundTrip(o);
  }

  /** generateElement on each chunk in order, stopping at the first failure. */
  function GenerateElements(chunks: seq<string>): (r: Result<seq<Element>, ParseFailure>)
    ensures r.Ok? ==> |r.value| == |chunks|
    ensures r.Ok? ==> forall k :: 0 <= k < |chunks| ==> GenerateElement(chunks[k]) == Ok(r.value[k])
    ensures r.Err? ==> exists k :: 0 <= k < |chunks| && GenerateElement(chunks[k]) == Err(r.error)
    ensures r.Err? ==> TreeFailure(r.error)
  {
    if |chunks| == 0 then Ok([])
    else
      var e :- GenerateElement(chunks[0]);
      var es :- GenerateElements(chunks[1..]);
      assert forall k :: 1 <= k < |chunks| ==> chunks[k] == chunks[1..][k - 1];
      Ok([e] + es)
  }

  // ---------------------------------------------------------------------------
  // Building the tree

  /** The scope stack as the nodes still open, the document first. Appending to
      the top changes only the top. */
  function AppendToTop(frames: seq<Node>, child: Node): (r: seq<Node>)
    requires |frames| > 0
    ensures |r| == |frames| && r[..|r| - 1] == frames[..|frames| - 1]
    ensures Children(r[|r| - 1]) == Children(frames[|frames| - 1]) + [child]
    ensures r[|r| - 1] == frames[|frames| - 1].(kids := r[|r| - 1].kids)
  {
    frames[..|frames| - 1] + [AddChild(frames[|frames| - 1], Some(child)).0]
  }

  /** The argument check of generateForLoopNode for positions 2 and up: each must
      be a string, a variable, an integer or a double. */
  function CheckForArguments(chunks: seq<string>, from: nat): (r: Result<(), ParseFailure>)
    requires from <= |chunks|
    ensures (forall k :: from <= k < |chunks| ==> |chunks[k]| > 0) ==>
      (r.Ok? <==> forall k :: from <= k < |chunks| ==> ForArgument(chunks[k]))
    ensures r.Err? && (forall k :: from <= k < |chunks| ==> |chunks[k]| > 0) ==> r.error == ForArgumentType
    decreases |chunks| - from
    ensures r.Err? ==> TreeFailure(r.error)
  {
    if from == |chunks| then Ok(())
    else
      var ok :- ArgumentKind(chunks[from]);
      ArgumentsSplit(chunks, from);
      if !ok then Err(ForArgumentType) else CheckForArguments(chunks, from + 1)
  }

  /** A condition on every argument from `from` on is the condition on the first
      of them and on every one after it. */
  lemma ArgumentsSplit(chunks: seq<string>, from: nat)
    requires from < |chunks|
    ensures (forall k :: from <= k < |chunks| ==> ForArgument(chunks[k]))
      <==> ForArgument(chunks[from]) && forall k :: from + 1 <= k < |chunks| ==> ForArgument(chunks[k])
    ensures (forall k :: from <= k < |chunks| ==> |chunks[k]| > 0)
      <==> |chunks[from]| > 0 && forall k :: from + 1 <= k < |chunks| ==> |chunks[k]| > 0
  {
  }

  /** The test of one argument: a string, else a variable (which fails on the
      empty argument), an integer or a double. */
  function ArgumentKind(c: string): (r: Result<bool, ParseFailure>)
    ensures |c| > 0 ==> r == Ok(ForArgument(c))
    ensures r.Err? <==> c == []
    ensures r.Err? ==> TreeFailure(r.error)
  {
    if IsString(c) then Ok(true)
    else
      var isVariable :- IsVariable(c);
      Ok(isVariable || IsInteger(c) || IsDouble(c))
  }

  /** An acceptable FOR argument after the variable. */
  predicate ForArgument(c: string) {
    IsString(c) || IsIdentifier(c) || IsInteger(c) || IsDouble(c)
  }

  /** generateForLoopNode: three or four arguments, a variable first, then
      strings, variables or numbers; the node has no children yet. */
  function GenerateForLoop(chunks: seq<string>): (r: Result<Node, ParseFailure>)
    requires |chunks| > 0
    requires forall k :: 0 <= k < |chunks| ==> |chunks[k]| > 0
    ensures r.Ok? ==> |chunks| == 4 || |chunks| == 5
    ensures |chunks| != 4 && |chunks| != 5 ==> r == Err(ForArgumentCount)
    ensures r.Ok? ==> (IsIdentifier(chunks[1]) && forall k :: 2 <= k < |chunks| ==> ForArgument(chunks[k]))
    ensures r.Ok? ==> (r.value.ForLoopNode? && r.value.kids == NoList
      && GenerateElement(chunks[1]) == Ok(r.value.variable)
      && GenerateElement(chunks[2]) == Ok(r.value.start)
      && GenerateElement(chunks[3]) == Ok(r.value.end)
      && (r.value.step.Some? <==> |chunks| == 5)
      && (|chunks| == 5 ==> GenerateElement(chunks[4]) == Ok(r.value.step.value)))
    ensures r.Err? ==> TreeFailure(r.error)
  {
    if |chunks| != 4 && |chunks| != 5 then Err(ForArgumentCount)
    else
      if IsVariable(chunks[1]) != Ok(true) then Err(ForVariable)
      else
        var _ :- CheckForArguments(chunks, 2);
        var variable :- GenerateElement(chunks[1]);
        var start :- GenerateElement(chunks[2]);
        var end :- GenerateElement(chunks[3]);
        if |chunks| == 5 then
          var step :- GenerateElement(chunks[4]);
          Ok(ForLoopNode(variable, start, end, Some(step), NoList))
        else Ok(ForLoopNode(variable, start, end, None, NoList))
  }

  /** generateEchoNode: `=` followed by the elements, or a lone chunk `=x` whose
      rest is the only element. */
  function GenerateEcho(chunks: seq<string>): (r: Result<Node, ParseFailure>)
    requires |chunks| > 0 && |chunks[0]| > 0
    ensures r.Ok? ==> r.value.EchoNode? && r.value.kids == NoList
    ensures |chunks| == 1 ==> (r.Ok? <==> GenerateElement(chunks[0][1..]).Ok?)
    ensures |chunks| == 1 && r.Ok? ==> r.value.elements == [GenerateElement(chunks[0][1..]).value]
    ensures |chunks| > 1 ==> (r.Ok? <==> GenerateElements(chunks[1..]).Ok?)
    ensures |chunks| > 1 && r.Ok? ==> r.value.elements == GenerateElements(chunks[1..]).value
    ensures r.Err? ==> TreeFailure(r.error)
  {
    if |chunks| == 1 then
      var e :- GenerateElement(chunks[0][1..]);
      Ok(EchoNode([e], NoList))
    else
      var es :- GenerateElements(chunks[1..]);
      Ok(EchoNode(es, NoList))
  }

  /** The kind of tag the first chunk names, as resolveTag dispatches. */
  datatype TagKind = ForTag | EchoTag | EndTag | Unknown

  function ClassifyTag(chunks: seq<string>): TagKind
    requires |chunks| > 0
  {
    if ToLower(chunks[0]) == "for" then ForTag
    else if chunks[0] == "=" || (StartsWith(chunks[0], "=") && |chunks| == 1) then EchoTag
    else if ToLower(chunks[0]) == "end" && |chunks| == 1 then EndTag
    else Unknown
  }

  /** END: the innermost scope is closed and becomes the last child of the one
      around it. */
  function CloseScope(frames: seq<Node>): (r: seq<Node>)
    requires |frames| > 1
    ensures |r| == |frames| - 1 && r[..|r| - 1] == frames[..|frames| - 2]
    ensures Children(r[|r| - 1]) == Children(frames[|frames| - 2]) + [frames[|frames| - 1]]
    ensures r[|r| - 1] == frames[|frames| - 2].(kids := r[|r| - 1].kids)
  {
    AppendToTop(frames[..|frames| - 1], frames[|frames| - 1])
  }

  /** resolveTag against the open scopes: FOR opens a scope, an echo is appended
      to the innermost scope, END closes it, and closing the document itself is
      an error. A FOR node joins its parent when its END is seen, which puts it
      where the parser put it when the FOR was read. */
  function ResolveTag(chunks: seq<string>, frames: seq<Node>): (r: Result<seq<Node>, ParseFailure>)
    requires |frames| > 0
    requires forall k :: 0 <= k < |chunks| ==> |chunks[k]| > 0
    ensures |chunks| == 0 ==> r == Err(EmptyTag)
    ensures r.Ok? ==> |r.value| > 0 && (r.value[0].DocumentNode? <==> frames[0].DocumentNode?)
    ensures |chunks| > 0 && ClassifyTag(chunks) == Unknown ==> r == Err(UnknownTag)
    ensures |chunks| > 0 && ClassifyTag(chunks) == ForTag ==>
      (r.Ok? <==> GenerateForLoop(chunks).Ok?)
      && (r.Ok? ==> r.value == frames + [GenerateForLoop(chunks).value])
    ensures |chunks| > 0 && ClassifyTag(chunks) == EchoTag ==>
      (r.Ok? <==> GenerateEcho(chunks).Ok?)
      && (r.Ok? ==> r.value == AppendToTop(frames, GenerateEcho(chunks).value))
    ensures |chunks| > 0 && ClassifyTag(chunks) == EndTag ==>
      (r.Ok? <==> |frames| > 1) && (r.Err? ==> r.error == TooManyEnds)
      && (r.Ok? ==> r.value == CloseScope(frames))
    ensures r.Err? ==> TreeFailure(r.error)
  {
    if |chunks| == 0 then Err(EmptyTag)
    else
      match ClassifyTag(chunks)
      case ForTag =>
        var node :- GenerateForLoop(chunks);
        Ok(frames + [node])
      case EchoTag =>
        var node :- GenerateEcho(chunks);
        Ok(AppendToTop(frames, node))
      case EndTag =>
        if |frames| == 1 then Err(TooManyEnds) else Ok(CloseScope(frames))
      case Unknown => Err(UnknownTag)
  }

  /** The token loop of parse: TEXT tokens become text nodes of the innermost
      scope, TAG tokens are resolved, and at EOF only the document may be open. */
  function ParseFrom(lx: Lexer, frames: seq<Node>): (r: Result<Node, ParseFailure>)
    requires lx.Valid() && lx.buffer == [] && |frames| > 0 && frames[0].DocumentNode?
    ensures r.Ok? ==> r.value.DocumentNode?
    ensures r.Ok? ==> Tokenize(lx).Ok?
    ensures r.Err? && r.error.LexerFailure? ==> Tokenize(lx) == Err(r.error.cause)
    ensures r.Err? ==> r.error != ReplaceFailure
    ensures NextToken(lx).Err? ==> r == Err(LexerFailure(NextToken(lx).error))
    ensures NextToken(lx).Ok? && NextToken(lx).value.0.kind == EofToken ==>
      r == if |frames| == 1 then Ok(frames[0]) else Err(UnclosedLoop)
    decreases |lx.data| - lx.index
  {
    match NextToken(lx)
    case Err(e) => Err(LexerFailure(e))
    case Ok((t, next)) =>
      if t.kind == EofToken then
        if |frames| != 1 then Err(UnclosedLoop) else Ok(frames[0])
      else if t.kind == TextToken then
        ParseFrom(next, AppendToTop(frames, TextNode(t.value.value, NoList)))
      else
        var f :- ResolveTag(GetTagChunks(t.value.value), frames);
        ParseFrom(next, f)
  }

  /** SmartScriptParser: the document tree of `text`, or why it is not one. The
      lexer is built before the parser's try block, so its constructor's
      failure is the one error that is not a SmartScriptParserException. */
  function Parse(text: string): (r: Result<Node, ParseFailure>)
    ensures r.Ok? ==> r.value.DocumentNode?
    ensures r == Err(ReplaceFailure) <==> OpeningPatternMatches(text)
    ensures r.Ok? ==> Tokenize(Lexer(text, 0, Init, [])).Ok?
  {
    match NewLexer(text)
    case Err(_) => Err(ReplaceFailure)
    case Ok(lx) => ParseFrom(lx, [DocumentNode(NoList)])
  }
}
