/** The script engine: a walk over the document tree that writes text nodes
    out, evaluates echo tags as postfix expressions on a stack of boxed
    values, and runs FOR loops over numeric bindings kept in a multistack.
    Everything a script writes goes out through one request context. */
module Engine {
  import opened Wrappers
  import opened JString
  import opened Elements
  import opened Nodes
  import opened ValueWrappers
  import M = Multistacks
  import R = RequestContexts

  /** What aborts a script run. */
  datatype EngineError =
    | EmptyStack           // pop or peek of an empty evaluation stack
    | UnboundVariable      // a variable with no binding on the multistack
    | NotANumber           // a text that Double.parseDouble or a wrapper refuses
    | DivisionByZero       // x / 0, which Java turns into an infinity or NaN
    | UnsupportedOperator  // an operator other than + - * /
    | UnknownFunction      // a function name found in neither table
    | NotModelled          // sin and decfmt
    | MissingStep          // a three-argument FOR reads its null step
    | BadSubstring         // a substring cut outside a too short text
    | HeaderSent           // setMimeType after the header went out
    | OutOfFuel            // the fuel bound of the model ran out

  /** The evaluation stack of an echo tag, bottom first. */
  type EvalStack = seq<Boxed>

  /** Loop variables and their numeric cells. */
  type Bindings = M.Multistack<ValueWrapper>

  // ---------------------------------------------------------------------------
  // The evaluation stack and the binary operations

  function Pop(st: EvalStack): (r: Result<(Boxed, EvalStack), EngineError>)
    ensures r.Ok? <==> |st| > 0
    ensures r.Ok? ==> st == r.value.1 + [r.value.0]
    ensures r.Err? ==> r.error == EmptyStack
  {
    if |st| == 0 then Err(EmptyStack) else Ok((st[|st| - 1], st[..|st| - 1]))
  }

  /** Double.parseDouble of a value's text. */
  function Number(b: Boxed): (r: Result<real, EngineError>)
    ensures r.Ok? <==> ToDouble(b).Some?
    ensures r.Ok? ==> ToDouble(b) == Some(r.value)
    ensures r.Err? ==> r.error == NotANumber
  {
    match ToDouble(b)
    case None => Err(NotANumber)
    case Some(x) => Ok(x)
  }

  /** transformToInteger: a whole result is pushed as an Integer (its
      intValue), any other as a Double, the same boxing getValue does. */
  function Box(x: real): Boxed {
    GetValue(ValueWrapper(x))
  }

  /** The operators the engine can evaluate. */
  predicate Evaluable(op: string) {
    op == "+" || op == "-" || op == "*" || op == "/"
  }

  /** The operation applied to the left and the right operand. */
  function Apply(op: string, a: real, b: real): (r: Result<real, EngineError>)
    requires Evaluable(op)
    ensures r.Err? <==> op == "/" && b == 0.0
    ensures r.Err? ==> r.error == DivisionByZero
  {
    if op == "+" then Ok(a + b)
    else if op == "-" then Ok(a - b)
    else if op == "*" then Ok(a * b)
    else if b == 0.0 then Err(DivisionByZero)
    else Ok(a / b)
  }

  /** BinaryNumOperationStackConsumer: the right operand is popped and parsed
      first, then the left one; the two entries are replaced by the boxed
      result of left `op` right. */
  function Binary(op: string, st: EvalStack): (r: Result<EvalStack, EngineError>)
    requires Evaluable(op)
    ensures |st| == 0 ==> r == Err(EmptyStack)
    ensures r.Ok? ==> |st| >= 2 && |r.value| == |st| - 1 && r.value[..|st| - 2] == st[..|st| - 2]
    ensures r.Ok? ==> ToDouble(st[|st| - 2]).Some? && ToDouble(st[|st| - 1]).Some?
    ensures r.Ok? ==>
      var x := Apply(op, ToDouble(st[|st| - 2]).value, ToDouble(st[|st| - 1]).value);
      x.Ok? && r.value[|st| - 2] == Box(x.value)
  {
    var right :- Pop(st);
    var b :- Number(right.0);
    var left :- Pop(right.1);
    var a :- Number(left.0);
    var x :- Apply(op, a, b);
    Ok(left.1 + [Box(x)])
  }

  // ---------------------------------------------------------------------------
  // Functions

  /** The three parameter maps a script can read. */
  datatype Scope = Request | Persistent | Temporary

  /** The map a scope names. */
  function Params(rc: R.RequestContext, scope: Scope): map<string, string> {
    match scope
    case Request => rc.parameters
    case Persistent => rc.persistentParameters
    case Temporary => rc.temporaryParameters
  }

  function Lookup(rc: R.RequestContext, scope: Scope, name: string): (r: Option<string>)
    ensures r.Some? <==> name in Params(rc, scope)
    ensures r.Some? ==> r.value == Params(rc, scope)[name]
  {
    match scope
    case Request => R.GetParameter(rc, name)
    case Persistent => R.GetPersistentParameter(rc, name)
    case Temporary => R.GetTemporaryParameter(rc, name)
  }

  /** setPersistentParameter or setTemporaryParameter. */
  function Store(rc: R.RequestContext, scope: Scope, name: string, value: string): (r: R.RequestContext)
    requires scope != Request
    ensures Params(r, scope) == Params(rc, scope)[name := value]
    ensures Steady(rc, r)
  {
    if scope == Persistent then R.SetPersistentParameter(rc, name, value)
    else R.SetTemporaryParameter(rc, name, value)
  }

  /** removePersistentParameter or removeTemporaryParameter. */
  function Remove(rc: R.RequestContext, scope: Scope, name: string): (r: R.RequestContext)
    requires scope != Request
    ensures Params(r, scope) == Params(rc, scope) - {name}
    ensures Steady(rc, r)
  {
    if scope == Persistent then R.RemovePersistentParameter(rc, name)
    else R.RemoveTemporaryParameter(rc, name)
  }

  /** The *paramGet functions: pop the default, then the name, and push the
      value stored under the name, or the default when there is none. */
  function ParamGet(scope: Scope, st: EvalStack, rc: R.RequestContext): (r: Result<EvalStack, EngineError>)
    ensures r.Ok? <==> |st| >= 2
    ensures r.Err? ==> r.error == EmptyStack
    ensures r.Ok? ==> |r.value| == |st| - 1 && r.value[..|st| - 2] == st[..|st| - 2]
    ensures r.Ok? && Lookup(rc, scope, Text(st[|st| - 2])).Some? ==>
      r.value[|st| - 2] == BoxedString(Lookup(rc, scope, Text(st[|st| - 2])).value)
    ensures r.Ok? && Lookup(rc, scope, Text(st[|st| - 2])).None? ==> r.value[|st| - 2] == st[|st| - 1]
  {
    var d :- Pop(st);
    var n :- Pop(d.1);
    var found := Lookup(rc, scope, Text(n.0));
    Ok(n.1 + [if found.Some? then BoxedString(found.value) else d.0])
  }

  /** The *paramSet functions: pop the name, then the value, and store the
      value's text under the name's text. */
  function ParamSet(scope: Scope, st: EvalStack, rc: R.RequestContext): (r: Result<(EvalStack, R.RequestContext), EngineError>)
    requires scope != Request
    ensures r.Ok? <==> |st| >= 2
    ensures r.Err? ==> r.error == EmptyStack
    ensures r.Ok? ==> r.value.0 == st[..|st| - 2]
    ensures r.Ok? ==> Lookup(r.value.1, scope, Text(st[|st| - 1])) == Some(Text(st[|st| - 2]))
    ensures r.Ok? ==> Steady(rc, r.value.1)
  {
    var n :- Pop(st);
    var v :- Pop(n.1);
    Ok((v.1, Store(rc, scope, Text(n.0), Text(v.0))))
  }

  /** The *paramDel functions: pop the name and remove what is stored under
      it. */
  function ParamDel(scope: Scope, st: EvalStack, rc: R.RequestContext): (r: Result<(EvalStack, R.RequestContext), EngineError>)
    requires scope != Request
    ensures r.Ok? <==> |st| >= 1
    ensures r.Err? ==> r.error == EmptyStack
    ensures r.Ok? ==> r.value.0 == st[..|st| - 1]
    ensures r.Ok? ==> Lookup(r.value.1, scope, Text(st[|st| - 1])) == None
    ensures r.Ok? ==> Steady(rc, r.value.1)
  {
    var n :- Pop(st);
    Ok((n.1, Remove(rc, scope, Text(n.0))))
  }

  /** A text in double quotes. */
  predicate Quoted(m: string) {
    StartsWith(m, "\"") && EndsWith(m, "\"")
  }

  /** setMimeType: pops the type; a quoted one loses its quotes, and one that
      is nothing but quotes is dropped without a change. */
  function SetMime(st: EvalStack, rc: R.RequestContext): (r: Result<(EvalStack, R.RequestContext), EngineError>)
    ensures |st| == 0 ==> r == Err(EmptyStack)
    ensures r.Ok? ==> |st| > 0 && r.value.0 == st[..|st| - 1]
    ensures |st| > 0 && Quoted(Text(st[|st| - 1])) && |Text(st[|st| - 1])| <= 2 ==> r == Ok((st[..|st| - 1], rc))
    ensures |st| > 0 && !(Quoted(Text(st[|st| - 1])) && |Text(st[|st| - 1])| <= 2) ==>
      (r.Ok? <==> !rc.headerGenerated)
    ensures r.Err? && |st| > 0 ==> r.error == HeaderSent
    ensures r.Ok? && |st| > 0 && Quoted(Text(st[|st| - 1])) && |Text(st[|st| - 1])| > 2 ==>
      "\"" + r.value.1.mimeType + "\"" == Text(st[|st| - 1])
    ensures r.Ok? && |st| > 0 && !Quoted(Text(st[|st| - 1])) ==> r.value.1.mimeType == Text(st[|st| - 1])
    ensures r.Ok? ==> r.value.1.(mimeType := rc.mimeType) == rc
    ensures r.Ok? ==> Steady(rc, r.value.1)
  {
    var p :- Pop(st);
    var m := Text(p.0);
    if Quoted(m) && |m| <= 2 then Ok((p.1, rc))
    else
      var mime := if Quoted(m) then Unquote(m) else m;
      match R.SetMimeType(rc, mime)
      case Err(_) => Err(HeaderSent)
      case Ok(rc') => Ok((p.1, rc'))
  }

  /** The text between the first and the last character. */
  function Unquote(m: string): (r: string)
    requires Quoted(m) && |m| > 2
    ensures "\"" + r + "\"" == m
  {
    assert m[0] == '"' && m[|m| - 1] == '"';
    assert m == [m[0]] + m[1..|m| - 1] + [m[|m| - 1]];
    m[1..|m| - 1]
  }

  /** The functions that are given the request context: their names start
      with "param", "pparam" or "tparam", or contain "Mime". */
  predicate UsesContext(f: string) {
    StartsWith(f, "param") || StartsWith(f, "pparam") || StartsWith(f, "tparam") || Contains(f, "Mime")
  }

  /** The table of functions that take the request context; a name it does
      not hold is a null entry. */
  function ContextFunction(f: string, st: EvalStack, rc: R.RequestContext): (r: Result<(EvalStack, R.RequestContext), EngineError>)
    ensures r.Ok? ==> Steady(rc, r.value.1)
  {
    if f == "setMimeType" then SetMime(st, rc)
    else if f == "paramGet" then WithContext(ParamGet(Request, st, rc), rc)
    else if f == "pparamGet" then WithContext(ParamGet(Persistent, st, rc), rc)
    else if f == "tparamGet" then WithContext(ParamGet(Temporary, st, rc), rc)
    else if f == "pparamSet" then ParamSet(Persistent, st, rc)
    else if f == "tparamSet" then ParamSet(Temporary, st, rc)
    else if f == "pparamDel" then ParamDel(Persistent, st, rc)
    else if f == "tparamDel" then ParamDel(Temporary, st, rc)
    else Err(UnknownFunction)
  }

  function WithContext(r: Result<EvalStack, EngineError>, rc: R.RequestContext): (q: Result<(EvalStack, R.RequestContext), EngineError>)
    ensures q.Ok? ==> q.value.1 == rc
  {
    match r
    case Err(e) => Err(e)
    case Ok(st) => Ok((st, rc))
  }

  /** The table of functions on the stack alone; it also holds the four
      operators. */
  function StackFunction(f: string, st: EvalStack): (r: Result<EvalStack, EngineError>)
    ensures Evaluable(f) ==> r == Binary(f, st)
    ensures f == "dup" ==> (r.Ok? <==> |st| >= 1) && (r.Ok? ==> r.value == st + [st[|st| - 1]])
    ensures f == "swap" ==> (r.Ok? <==> |st| >= 2)
    ensures f == "swap" && r.Ok? ==> r.value == st[..|st| - 2] + [st[|st| - 1], st[|st| - 2]]
    ensures r.Err? && !Evaluable(f) ==> r.error == (if f == "sin" || f == "decfmt" then NotModelled else if f == "dup" || f == "swap" then EmptyStack else UnknownFunction)
  {
    if Evaluable(f) then Binary(f, st)
    else if f == "dup" then
      var t :- Pop(st);
      Ok(st + [t.0])
    else if f == "swap" then
      var second :- Pop(st);
      var first :- Pop(second.1);
      Ok(first.1 + [second.0, first.0])
    else if f == "sin" || f == "decfmt" then Err(NotModelled)
    else Err(UnknownFunction)
  }

  /** A function call: the name is looked up in the context table when it
      looks like a context function, in the stack table otherwise. */
  function CallFunction(f: string, st: EvalStack, rc: R.RequestContext): (r: Result<(EvalStack, R.RequestContext), EngineError>)
    ensures r.Ok? ==> Steady(rc, r.value.1)
  {
    if UsesContext(f) then ContextFunction(f, st, rc)
    else WithContext(StackFunction(f, st), rc)
  }

  // ---------------------------------------------------------------------------
  // Echo tags

  /** The request context's changes an echo can make before it writes: the
      parameters it stores or removes, and the MIME type while the header is
      not out. */
  predicate Steady(a: R.RequestContext, b: R.RequestContext) {
    b.output == a.output && b.headerGenerated == a.headerGenerated && b.parameters == a.parameters
    && b.encoding == a.encoding && b.statusCode == a.statusCode && b.statusText == a.statusText
    && b.contentLength == a.contentLength && b.cookies == a.cookies
    && (a.headerGenerated ==> b.mimeType == a.mimeType)
  }

  /** One element of an echo: constants push their text (a string literal
      without its first and last character), a variable pushes the value of
      its top binding, a function or an operator works on the stack. */
  function Step(e: Element, b: Bindings, st: EvalStack, rc: R.RequestContext): (r: Result<(EvalStack, R.RequestContext), EngineError>)
    ensures r.Ok? ==> Steady(rc, r.value.1)
  {
    match e
    case ConstantInteger(_) => Ok((st + [BoxedString(AsText(e))], rc))
    case ConstantDouble(_) => Ok((st + [BoxedString(AsText(e))], rc))
    case Str(v) =>
      if |v| < 2 then Err(BadSubstring) else Ok((st + [BoxedString(v[1..|v| - 1])], rc))
    case Variable(n) =>
      (match M.Peek(b, Some(n))
       case Err(_) => Err(UnboundVariable)
       case Ok(w) => Ok((st + [GetValue(w)], rc)))
    case Function(n) =>
      if |n| == 0 then Err(BadSubstring) else CallFunction(n[1..], st, rc)
    case Operator(o) =>
      if !Evaluable(o) then Err(UnsupportedOperator) else WithContext(Binary(o, st), rc)
  }

  /** The elements in order, from the given stack. */
  function Evaluate(es: seq<Element>, b: Bindings, st: EvalStack, rc: R.RequestContext): (r: Result<(EvalStack, R.RequestContext), EngineError>)
    ensures r.Ok? ==> Steady(rc, r.value.1)
    decreases |es|
  {
    if |es| == 0 then Ok((st, rc))
    else
      var next :- Step(es[0], b, st, rc);
      Evaluate(es[1..], b, next.0, next.1)
  }

  /** The texts of the entries, bottom first. */
  function Texts(st: EvalStack): (r: seq<string>)
    ensures |r| == |st|
    ensures forall i :: 0 <= i < |st| ==> r[i] == Text(st[i])
  {
    if |st| == 0 then [] else [Text(st[0])] + Texts(st[1..])
  }

  function Concat(ts: seq<string>): string {
    if |ts| == 0 then "" else ts[0] + Concat(ts[1..])
  }

  /** One write per text, in order: the first write of all sends the header,
      the texts follow one after another, and nothing else changes. */
  function WriteAll(rc: R.RequestContext, ts: seq<string>): (r: R.RequestContext)
    ensures r.output == rc.output + (if |ts| > 0 && !rc.headerGenerated then R.Header(rc) else "") + Concat(ts)
    ensures r.headerGenerated <==> rc.headerGenerated || |ts| > 0
    ensures Fields(r) == Fields(rc)
    decreases |ts|
  {
    if |ts| == 0 then rc
    else
      var rc' := R.Write(rc, Some(ts[0])).value;
      WriteStep(rc, rc', ts[0]);
      var r := WriteAll(rc', ts[1..]);
      assert r.output == rc'.output + Concat(ts[1..]) by {
        assert rc'.output + "" == rc'.output;
      }
      assert Concat(ts) == ts[0] + Concat(ts[1..]);
      Associate(rc.output, if rc.headerGenerated then "" else R.Header(rc), ts[0], Concat(ts[1..]));
      r
  }

  /** Everything of a request context but its output and whether the header
      went out. */
  function Fields(rc: R.RequestContext): R.RequestContext {
    rc.(output := "", headerGenerated := false)
  }

  lemma WriteStep(rc: R.RequestContext, rc': R.RequestContext, t: string)
    requires R.Write(rc, Some(t)) == Ok(rc')
    ensures rc'.output == rc.output + (if rc.headerGenerated then "" else R.Header(rc)) + t
    ensures rc'.headerGenerated && Fields(rc') == Fields(rc)
  {
  }

  lemma Associate(a: string, b: string, c: string, d: string)
    ensures a + b + c + d == a + b + (c + d)
  {
  }

  /** The echo's last step: the whole stack is popped into an array filled
      from its end, so the texts come out bottom first and the stack is left
      empty. */
  method DrainStack(st: EvalStack) returns (texts: seq<string>, left: EvalStack)
    ensures left == []
    ensures texts == Texts(st)
  {
    var stack := st;
    var elems := new string[|st|];
    var i := |st| - 1;
    while i >= 0
      invariant -1 <= i < |st|
      invariant stack == st[..i + 1]
      invariant forall j :: i < j < |st| ==> elems[j] == Text(st[j])
      decreases i
    {
      var top := Pop(stack).value;
      elems[i] := Text(top.0);
      stack := top.1;
      i := i - 1;
    }
    texts, left := elems[..], stack;
  }

  /** visitEchoNode: the elements on a fresh stack, then the stack written
      bottom to top. */
  function Echo(es: seq<Element>, b: Bindings, rc: R.RequestContext): (r: Result<R.RequestContext, EngineError>)
    ensures r.Ok? <==> Evaluate(es, b, [], rc).Ok?
    ensures r.Ok? ==>
      var (st, rc') := Evaluate(es, b, [], rc).value;
      r.value.output == rc.output + (if |st| > 0 && !rc.headerGenerated then R.Header(rc') else "") + Concat(Texts(st))
    ensures r.Ok? ==> Extends(rc, r.value)
  {
    var done :- Evaluate(es, b, [], rc);
    SteadyThenWrite(rc, done.1, Texts(done.0));
    Ok(WriteAll(done.1, Texts(done.0)))
  }

  /** Writing after steady changes extends the context the echo started
      from. */
  lemma SteadyThenWrite(rc: R.RequestContext, rc': R.RequestContext, ts: seq<string>)
    requires Steady(rc, rc')
    ensures Extends(rc, WriteAll(rc', ts))
  {
    var r := WriteAll(rc', ts);
    assert r.output[..|rc.output|] == rc.output;
  }

  // ---------------------------------------------------------------------------
  // The tree walk

  /** What running a part of a script does to the request context: output is
      only appended, the request parameters and the header fields other than
      the MIME type stay, and once the header is out it stays out with the
      same MIME type. */
  predicate Extends(a: R.RequestContext, b: R.RequestContext) {
    StartsWith(b.output, a.output) && b.parameters == a.parameters
    && b.encoding == a.encoding && b.statusCode == a.statusCode && b.statusText == a.statusText
    && b.contentLength == a.contentLength && b.cookies == a.cookies
    && (a.headerGenerated ==> b.headerGenerated && b.mimeType == a.mimeType)
  }

  /** Bindings are never removed: every stack is at least as high as before. */
  predicate Grows(a: Bindings, b: Bindings) {
    forall k :: k in a ==> k in b && |a[k]| <= |b[k]|
  }

  datatype State = State(bindings: Bindings, rc: R.RequestContext)

  /** A FOR loop about to run its first test: the variable's name, the end
      and the step as numbers, and the state with the start pushed. A step
      that is no number is kept as None: it fails the first increment. */
  datatype Loop = Loop(name: string, end: real, step: Option<real>, state: State)

  /** What the engine's node visitor does at a text node, at an echo tag and
      at the head of a FOR loop; the walk below calls them as the nodes'
      accept methods call visitTextNode, visitEchoNode and visitForLoopNode. */
  datatype Visitor = Visitor(
    text: (string, State) -> State,
    echo: (seq<Element>, State) -> Result<State, EngineError>,
    open: (Element, Element, Element, Option<Element>, State) -> Result<Loop, EngineError>)

  /** One node visited, within `fuel` nested visits and loop passes. */
  function EvalNode(v: Visitor, n: Node, s: State, fuel: nat): (r: Result<State, EngineError>)
    decreases fuel, 0, 0
  {
    if fuel == 0 then Err(OutOfFuel)
    else
      match n
      case DocumentNode(_) => EvalChildren(v, Children(n), s, fuel - 1)
      case TextNode(t, _) => Ok(v.text(t, s))
      case EchoNode(es, _) => v.echo(es, s)
      case ForLoopNode(x, start, end, step, _) =>
        var l :- v.open(x, start, end, step, s);
        RunLoop(v, l.name, l.end, l.step, Children(n), l.state, fuel - 1)
  }

  /** The children in order. */
  function EvalChildren(v: Visitor, cs: seq<Node>, s: State, fuel: nat): (r: Result<State, EngineError>)
    decreases fuel, 1, |cs|
  {
    if |cs| == 0 then Ok(s)
    else
      var s1 :- EvalNode(v, cs[0], s, fuel);
      EvalChildren(v, cs[1..], s1, fuel)
  }

  /** The loop of visitForLoopNode: while the variable's top binding compares
      at most equal to the end, run the body and increment that binding by
      the step. */
  function RunLoop(v: Visitor, name: string, end: real, step: Option<real>, body: seq<Node>, s: State, fuel: nat): (r: Result<State, EngineError>)
    decreases fuel, 2, 1
  {
    var c :- Compare(name, end, s.bindings);
    if c > 0 then Ok(s)
    else if fuel == 0 then Err(OutOfFuel)
    else Pass(v, name, end, step, body, s, fuel)
  }

  /** One pass of the loop: the body, the increment, then the next test. */
  function Pass(v: Visitor, name: string, end: real, step: Option<real>, body: seq<Node>, s: State, fuel: nat): (r: Result<State, EngineError>)
    requires fuel > 0
    decreases fuel, 2, 0
  {
    var s1 :- EvalChildren(v, body, s, fuel);
    var b :- Advance(name, step, s1.bindings);
    RunLoop(v, name, end, step, body, s1.(bindings := b), fuel - 1)
  }

  /** The loop test: numCompare of the variable's top binding with the end. */
  function Compare(name: string, end: real, b: Bindings): (r: Result<int, EngineError>)
    ensures r.Err? <==> |M.StackOf(b, name)| == 0
    ensures r.Ok? ==> r.value == CompareWith(M.Last(M.StackOf(b, name)), end)
  {
    match M.Peek(b, Some(name))
    case Err(_) => Err(UnboundVariable)
    case Ok(w) => Ok(CompareWith(w, end))
  }

  /** The end of a pass: the variable's top binding incremented by the step,
      in place. */
  function Advance(name: string, step: Option<real>, b: Bindings): (r: Result<Bindings, EngineError>)
    ensures r.Ok? <==> |M.StackOf(b, name)| > 0 && step.Some?
    ensures r.Ok? ==> Grows(b, r.value) && (M.Valid(b) ==> M.Valid(r.value))
    ensures r.Ok? ==> M.Peek(r.value, Some(name)) == Ok(Plus(M.Last(M.StackOf(b, name)), step.value))
    ensures r.Ok? ==> forall k :: k != name ==> M.StackOf(r.value, k) == M.StackOf(b, k)
    ensures r.Ok? ==> |M.StackOf(r.value, name)| == |M.StackOf(b, name)|
  {
    match M.Peek(b, Some(name))
    case Err(_) => Err(UnboundVariable)
    case Ok(w) =>
      match step
      case None => Err(NotANumber)
      case Some(x) => Ok(M.ReplaceTop(b, name, Plus(w, x)).value)
  }

  // ---------------------------------------------------------------------------
  // The engine's visitor

  /** visitTextNode: the text written escaped, as its node prints it. */
  function VisitText(t: string, s: State): (r: State)
    ensures r.bindings == s.bindings && Extends(s.rc, r.rc) && r.rc.headerGenerated
    ensures r.rc.output == s.rc.output + (if s.rc.headerGenerated then "" else R.Header(s.rc)) + TextToString(t)
  {
    s.(rc := R.Write(s.rc, Some(TextToString(t))).value)
  }

  /** visitEchoNode. */
  function VisitEcho(es: seq<Element>, s: State): (r: Result<State, EngineError>)
    ensures r.Ok? ==> r.value.bindings == s.bindings && Extends(s.rc, r.value.rc)
  {
    var rc :- Echo(es, s.bindings, s.rc);
    Ok(s.(rc := rc))
  }

  /** visitForLoopNode up to its first test: the step's text is taken first
      (a null step fails there), the variable's new binding is built from the
      start's text and pushed, and the end and the step are read as numbers
      as every test and every increment reads them. An end that is no number
      fails the first test. */
  function OpenLoop(x: Element, start: Element, end: Element, step: Option<Element>, s: State): (r: Result<Loop, EngineError>)
    ensures Opened(x, start, end, step, s, r)
  {
    match step
    case None => Err(MissingStep)
    case Some(e) =>
      match NewWrapper(Some(BoxedString(AsText(start))))
      case Err(_) => Err(NotANumber)
      case Ok(w) =>
        var name := AsText(x);
        var pushed := M.Push(s.bindings, Some(name), w).value;
        match ToDouble(BoxedString(AsText(end)))
        case None => Err(NotANumber)
        case Some(y) => Ok(Loop(name, y, ToDouble(BoxedString(AsText(e))), s.(bindings := pushed)))
  }

  /** What opening a FOR loop gives: a missing step fails; otherwise it
      succeeds exactly when the start and the end read as numbers, and then
      the variable's stack has the start on top, the end and the step are
      read once, and the request context is untouched. */
  predicate Opened(x: Element, start: Element, end: Element, step: Option<Element>, s: State, r: Result<Loop, EngineError>) {
    && (step.None? ==> r == Err(MissingStep))
    && (r.Ok? <==>
      && step.Some?
      && ToDouble(BoxedString(AsText(start))).Some?
      && ToDouble(BoxedString(AsText(end))).Some?)
    && (r.Ok? ==>
      && r.value.name == AsText(x)
      && Some(r.value.end) == ToDouble(BoxedString(AsText(end)))
      && r.value.step == ToDouble(BoxedString(AsText(step.value)))
      && r.value.state.rc == s.rc
      && M.StackOf(r.value.state.bindings, r.value.name) == M.StackOf(s.bindings, r.value.name) + [ValueWrapper(ToDouble(BoxedString(AsText(start))).value)]
      && Grows(s.bindings, r.value.state.bindings)
      && (M.Valid(s.bindings) ==> M.Valid(r.value.state.bindings)))
  }

  /** A visitor that opens every FOR loop as the engine does. */
  ghost predicate OpensLoops(v: Visitor) {
    forall x, a, e, k, s :: Opened(x, a, e, k, s, v.open(x, a, e, k, s))
  }

  /** The visitor of SmartScriptEngine. */
  function Smart(): Visitor {
    Visitor(VisitText, VisitEcho, OpenLoop)
  }

  /** execute: the document visited with no bindings. */
  function Execute(doc: Node, rc: R.RequestContext, fuel: nat): Result<R.RequestContext, EngineError> {
    var s :- EvalNode(Smart(), doc, State(map[], rc), fuel);
    Ok(s.rc)
  }

  // ---------------------------------------------------------------------------
  // Fuel

  /** Fuel only bounds the walk: a run that did not run out of fuel gives the
      same result with any larger bound. */
  lemma {:induction false} NodeFuel(v: Visitor, n: Node, s: State, f: nat, g: nat)
    requires f <= g && EvalNode(v, n, s, f) != Err(OutOfFuel)
    ensures EvalNode(v, n, s, g) == EvalNode(v, n, s, f)
    decreases f, 0, 1
  {
    assert f > 0;
    if n.DocumentNode? {
      DocumentFuel(v, n, s, f, g);
    } else if n.ForLoopNode? {
      ForFuel(v, n, s, f, g);
    } else {
      LeafFuel(v, n, s, f, g);
    }
  }

  lemma {:induction false} DocumentFuel(v: Visitor, n: Node, s: State, f: nat, g: nat)
    requires n.DocumentNode? && 0 < f <= g && EvalNode(v, n, s, f) != Err(OutOfFuel)
    ensures EvalNode(v, n, s, g) == EvalNode(v, n, s, f)
    decreases f, 0, 0
  {
    ChildrenFuel(v, Children(n), s, f - 1, g - 1);
  }

  /** Text and echo nodes do not use the fuel past their own visit. */
  lemma LeafFuel(v: Visitor, n: Node, s: State, f: nat, g: nat)
    requires (n.TextNode? || n.EchoNode?) && f > 0 && g > 0
    ensures EvalNode(v, n, s, g) == EvalNode(v, n, s, f)
  {
  }

  lemma {:induction false} ForFuel(v: Visitor, n: Node, s: State, f: nat, g: nat)
    requires n.ForLoopNode? && 0 < f <= g && EvalNode(v, n, s, f) != Err(OutOfFuel)
    ensures EvalNode(v, n, s, g) == EvalNode(v, n, s, f)
    decreases f, 0, 0
  {
    var l := v.open(n.variable, n.start, n.end, n.step, s);
    if l.Ok? {
      var o := l.value;
      LoopFuel(v, o.name, o.end, o.step, Children(n), o.state, f - 1, g - 1);
    }
  }

  lemma {:induction false} ChildrenFuel(v: Visitor, cs: seq<Node>, s: State, f: nat, g: nat)
    requires f <= g && EvalChildren(v, cs, s, f) != Err(OutOfFuel)
    ensures EvalChildren(v, cs, s, g) == EvalChildren(v, cs, s, f)
    decreases f, 1, |cs|
  {
    if |cs| > 0 {
      NodeFuel(v, cs[0], s, f, g);
      var r1 := EvalNode(v, cs[0], s, f);
      if r1.Ok? {
        ChildrenFuel(v, cs[1..], r1.value, f, g);
      }
    }
  }

  lemma {:induction false} LoopFuel(v: Visitor, name: string, end: real, step: Option<real>, body: seq<Node>, s: State, f: nat, g: nat)
    requires f <= g && RunLoop(v, name, end, step, body, s, f) != Err(OutOfFuel)
    ensures RunLoop(v, name, end, step, body, s, g) == RunLoop(v, name, end, step, body, s, f)
    decreases f, 2, 1
  {
    var c := Compare(name, end, s.bindings);
    if c.Ok? && c.value <= 0 {
      PassFuel(v, name, end, step, body, s, f - 1, g - 1);
    }
  }

  /** A pass that is run: the body and the rest of the loop keep their
      results with more fuel. */
  lemma {:induction false} PassFuel(v: Visitor, name: string, end: real, step: Option<real>, body: seq<Node>, s: State, f: nat, g: nat)
    requires f <= g && Pass(v, name, end, step, body, s, f + 1) != Err(OutOfFuel)
    ensures Pass(v, name, end, step, body, s, g + 1) == Pass(v, name, end, step, body, s, f + 1)
    decreases f + 1, 2, 0
  {
    ChildrenFuel(v, body, s, f + 1, g + 1);
    var r1 := EvalChildren(v, body, s, f + 1);
    if r1.Ok? {
      var b := Advance(name, step, r1.value.bindings);
      if b.Ok? {
        LoopFuel(v, name, end, step, body, r1.value.(bindings := b.value), f, g);
      }
    }
  }

  // ---------------------------------------------------------------------------
  // What a run keeps

  lemma ExtendsSelf(a: R.RequestContext)
    ensures Extends(a, a)
  {
  }

  lemma ExtendsTrans(a: R.RequestContext, b: R.RequestContext, c: R.RequestContext)
    requires Extends(a, b) && Extends(b, c)
    ensures Extends(a, c)
  {
    assert c.output[..|a.output|] == c.output[..|b.output|][..|a.output|];
  }

  /** The state after a part of a script, against the state before it: the
      request context is extended, no binding is lost, and the multistack
      keeps having no empty stack. */
  predicate Keeps(a: State, b: State) {
    Extends(a.rc, b.rc) && Grows(a.bindings, b.bindings) && (M.Valid(a.bindings) ==> M.Valid(b.bindings))
  }

  lemma KeepsTrans(a: State, b: State, c: State)
    requires Keeps(a, b) && Keeps(b, c)
    ensures Keeps(a, c)
  {
    ExtendsTrans(a.rc, b.rc, c.rc);
  }

  /** A visitor each of whose visits keeps the state. */
  ghost predicate Sound(v: Visitor) {
    && (forall t, s :: Keeps(s, v.text(t, s)))
    && (forall es, s :: v.echo(es, s).Ok? ==> Keeps(s, v.echo(es, s).value))
    && (forall x, a, b, c, s :: v.open(x, a, b, c, s).Ok? ==> Keeps(s, v.open(x, a, b, c, s).value.state))
  }

  /** A walk with a sound visitor keeps the state. */
  lemma {:induction false} NodeKeeps(v: Visitor, n: Node, s: State, f: nat)
    requires Sound(v) && EvalNode(v, n, s, f).Ok?
    ensures Keeps(s, EvalNode(v, n, s, f).value)
    decreases f, 0, 0
  {
    match n
    case DocumentNode(_) => ChildrenKeeps(v, Children(n), s, f - 1);
    case ForLoopNode(x, start, end, step, _) =>
      var l := v.open(x, start, end, step, s).value;
      LoopKeeps(v, l.name, l.end, l.step, Children(n), l.state, f - 1);
      KeepsTrans(s, l.state, EvalNode(v, n, s, f).value);
    case _ =>
  }

  lemma {:induction false} ChildrenKeeps(v: Visitor, cs: seq<Node>, s: State, f: nat)
    requires Sound(v) && EvalChildren(v, cs, s, f).Ok?
    ensures Keeps(s, EvalChildren(v, cs, s, f).value)
    decreases f, 1, |cs|
  {
    if |cs| == 0 {
      ExtendsSelf(s.rc);
    } else {
      var s1 := EvalNode(v, cs[0], s, f).value;
      NodeKeeps(v, cs[0], s, f);
      ChildrenKeeps(v, cs[1..], s1, f);
      KeepsTrans(s, s1, EvalChildren(v, cs, s, f).value);
    }
  }

  lemma {:induction false} LoopKeeps(v: Visitor, name: string, end: real, step: Option<real>, body: seq<Node>, s: State, f: nat)
    requires Sound(v) && RunLoop(v, name, end, step, body, s, f).Ok?
    ensures Keeps(s, RunLoop(v, name, end, step, body, s, f).value)
    decreases f, 2, 0
  {
    var c := Compare(name, end, s.bindings).value;
    if c > 0 {
      ExtendsSelf(s.rc);
    } else {
      var s1 := EvalChildren(v, body, s, f).value;
      ChildrenKeeps(v, body, s, f);
      var s2 := s1.(bindings := Advance(name, step, s1.bindings).value);
      ExtendsSelf(s1.rc);
      KeepsTrans(s, s1, s2);
      LoopKeeps(v, name, end, step, body, s2, f - 1);
      KeepsTrans(s, s2, RunLoop(v, name, end, step, body, s, f).value);
    }
  }

  /** The engine's visitor is sound. */
  lemma SmartSound()
    ensures Sound(Smart())
  {
    forall t, s ensures Keeps(s, Smart().text(t, s)) {
    }
    forall es, s | Smart().echo(es, s).Ok? ensures Keeps(s, Smart().echo(es, s).value) {
    }
    forall x, a, b, c, s | Smart().open(x, a, b, c, s).Ok? ensures Keeps(s, Smart().open(x, a, b, c, s).value.state) {
      ExtendsSelf(s.rc);
    }
  }

  /** A script run only appends to the output, leaves the request parameters
      and the header fields other than the MIME type alone, and never takes
      back a header that went out. */
  lemma ExecuteExtends(doc: Node, rc: R.RequestContext, fuel: nat)
    requires Execute(doc, rc, fuel).Ok?
    ensures Extends(rc, Execute(doc, rc, fuel).value)
  {
    SmartSound();
    NodeKeeps(Smart(), doc, State(map[], rc), fuel);
  }

  // ---------------------------------------------------------------------------
  // Text nodes

  /** Text nodes with the given texts and no children. */
  function TextNodes(ts: seq<string>): (r: seq<Node>)
    ensures |r| == |ts|
    ensures forall i :: 0 <= i < |ts| ==> r[i] == TextNode(ts[i], NoList)
  {
    if |ts| == 0 then [] else [TextNode(ts[0], NoList)] + TextNodes(ts[1..])
  }

  /** The texts as their nodes print them. */
  function Escaped(ts: seq<string>): (r: seq<string>)
    ensures |r| == |ts|
    ensures forall i :: 0 <= i < |ts| ==> r[i] == TextToString(ts[i])
  {
    if |ts| == 0 then [] else [TextToString(ts[0])] + Escaped(ts[1..])
  }

  /** Visiting one text node is one write of its escaped text. */
  lemma TextVisit(v: Visitor, t: string, s: State, f: nat)
    requires v.text == VisitText
    ensures EvalNode(v, TextNode(t, NoList), s, f + 1) == Ok(s.(rc := R.Write(s.rc, Some(TextToString(t))).value))
  {
  }

  /** A run of text nodes writes their escaped texts one after another and
      touches nothing but the output and the header flag. */
  lemma {:induction false} TextChildren(v: Visitor, ts: seq<string>, s: State, f: nat)
    requires v.text == VisitText
    ensures EvalChildren(v, TextNodes(ts), s, f + 1) == Ok(s.(rc := WriteAll(s.rc, Escaped(ts))))
    decreases |ts|
  {
    if |ts| > 0 {
      var ns := TextNodes(ts);
      TextVisit(v, ts[0], s, f);
      var s1 := s.(rc := R.Write(s.rc, Some(TextToString(ts[0]))).value);
      assert ns[1..] == TextNodes(ts[1..]);
      assert Escaped(ts)[1..] == Escaped(ts[1..]);
      TextChildren(v, ts[1..], s1, f);
    }
  }

  /** A document node runs its children with one level of fuel less. */
  lemma DocumentVisit(v: Visitor, cs: seq<Node>, s: State, f: nat)
    ensures EvalNode(v, DocumentNode(List(cs)), s, f + 1) == EvalChildren(v, cs, s, f)
  {
  }

  /** A document of text nodes only sends the header and then the escaped
      texts in order. */
  lemma TextDocument(v: Visitor, ts: seq<string>, s: State, f: nat) returns (r: State)
    requires v.text == VisitText && |ts| > 0 && !s.rc.headerGenerated
    ensures EvalNode(v, DocumentNode(List(TextNodes(ts))), s, f + 2) == Ok(r)
    ensures r.rc.output == s.rc.output + R.Header(s.rc) + Concat(Escaped(ts))
    ensures r.bindings == s.bindings
  {
    DocumentVisit(v, TextNodes(ts), s, f + 1);
    TextChildren(v, ts, s, f);
    r := s.(rc := WriteAll(s.rc, Escaped(ts)));
  }

  // ---------------------------------------------------------------------------
  // Counting loops

  /** How many times a loop from `a` to `e` by `k` runs its body. */
  function Passes(a: int, e: int, k: int): nat
    requires k > 0
    decreases if a > e then 0 else e - a + 1
  {
    if a > e then 0 else 1 + Passes(a + k, e, k)
  }

  /** The value a counting loop leaves its variable at. */
  function Stop(a: int, e: int, k: int): int
    requires k > 0
    decreases if a > e then 0 else e - a + 1
  {
    if a > e then a else Stop(a + k, e, k)
  }

  /** The loop stops at the first value past the end: the start moved by
      the step once per pass. */
  lemma {:induction false} StopValue(a: int, e: int, k: int)
    requires k > 0
    ensures Stop(a, e, k) == a + Passes(a, e, k) * k
    ensures Stop(a, e, k) > e
    ensures a <= e ==> Stop(a, e, k) <= e + k
    decreases if a > e then 0 else e - a + 1
  {
    if a <= e {
      StopValue(a + k, e, k);
      var p := Passes(a + k, e, k);
      assert a + k + p * k == a + (p + 1) * k;
    }
  }

  /** `t` written `n` times. */
  function Repeat(t: string, n: nat): string {
    if n == 0 then "" else t + Repeat(t, n - 1)
  }

  /** On whole numbers the loop test passes exactly while the variable is at
      most the end. */
  lemma WholeTest(a: int, e: int)
    ensures CompareWith(ValueWrapper(a as real), e as real) > 0 <==> a > e
  {
  }

  /** A visitor that writes a text node's escaped text and does nothing
      else at it, as the engine's visitor does. */
  ghost predicate WritesText(v: Visitor) {
    forall t, s :: && v.text(t, s).bindings == s.bindings
                   && v.text(t, s).rc.headerGenerated
                   && v.text(t, s).rc.output == s.rc.output + (if s.rc.headerGenerated then "" else R.Header(s.rc)) + TextToString(t)
  }

  lemma SmartWritesText()
    ensures WritesText(Smart())
  {
    forall t, s ensures Smart().text(t, s) == VisitText(t, s) {
    }
  }

  /** One pass of a loop whose body is one text node: the text is written
      and the variable's top binding moves by the step. */
  lemma TextPass(v: Visitor, name: string, end: real, step: real, t: string, s: State, f: nat) returns (s': State)
    requires WritesText(v)
    requires Compare(name, end, s.bindings).Ok? && Compare(name, end, s.bindings).value <= 0
    ensures RunLoop(v, name, end, Some(step), [TextNode(t, NoList)], s, f + 1) == RunLoop(v, name, end, Some(step), [TextNode(t, NoList)], s', f)
    ensures s'.rc.output == s.rc.output + (if s.rc.headerGenerated then "" else R.Header(s.rc)) + TextToString(t)
    ensures s'.rc.headerGenerated
    ensures |M.StackOf(s'.bindings, name)| == |M.StackOf(s.bindings, name)| > 0
    ensures M.Last(M.StackOf(s'.bindings, name)) == Plus(M.Last(M.StackOf(s.bindings, name)), step)
  {
    var s1 := v.text(t, s);
    assert EvalNode(v, TextNode(t, NoList), s, f + 1) == Ok(s1);
    assert EvalChildren(v, [TextNode(t, NoList)], s, f + 1) == Ok(s1);
    s' := s1.(bindings := Advance(name, Some(step), s1.bindings).value);
  }

  /** A loop whose test fails leaves the state as it was. */
  lemma LoopExit(v: Visitor, name: string, end: real, step: Option<real>, body: seq<Node>, s: State, f: nat)
    requires Compare(name, end, s.bindings).Ok? && Compare(name, end, s.bindings).value > 0
    ensures RunLoop(v, name, end, step, body, s, f) == Ok(s)
  {
  }

  /** A loop whose variable counts from `a` to `e` by a positive whole step,
      with one text node as its body, writes the escaped text once per pass
      and leaves the variable at the first value past the end. */
  lemma {:induction false} CountingLoop(v: Visitor, name: string, a: int, e: int, k: int, t: string, s: State, fuel: nat)
    requires WritesText(v) && k > 0 && s.rc.headerGenerated
    requires |M.StackOf(s.bindings, name)| > 0 && M.Last(M.StackOf(s.bindings, name)) == ValueWrapper(a as real)
    requires fuel >= Passes(a, e, k)
    ensures RunLoop(v, name, e as real, Some(k as real), [TextNode(t, NoList)], s, fuel).Ok?
    ensures var r := RunLoop(v, name, e as real, Some(k as real), [TextNode(t, NoList)], s, fuel).value;
      && r.rc.output == s.rc.output + Repeat(TextToString(t), Passes(a, e, k))
      && M.Peek(r.bindings, Some(name)) == Ok(ValueWrapper(Stop(a, e, k) as real))
      && |M.StackOf(r.bindings, name)| == |M.StackOf(s.bindings, name)|
    decreases Passes(a, e, k), 1
  {
    WholeTest(a, e);
    if a > e {
      LoopExit(v, name, e as real, Some(k as real), [TextNode(t, NoList)], s, fuel);
      assert s.rc.output + "" == s.rc.output;
    } else {
      CountingPass(v, name, a, e, k, t, s, fuel);
    }
  }

  /** The first pass of a counting loop that runs: the text written, then
      the loop from the next value on. */
  lemma {:induction false} CountingPass(v: Visitor, name: string, a: int, e: int, k: int, t: string, s: State, fuel: nat)
    requires WritesText(v) && k > 0 && s.rc.headerGenerated && a <= e
    requires |M.StackOf(s.bindings, name)| > 0 && M.Last(M.StackOf(s.bindings, name)) == ValueWrapper(a as real)
    requires fuel >= Passes(a, e, k)
    ensures RunLoop(v, name, e as real, Some(k as real), [TextNode(t, NoList)], s, fuel).Ok?
    ensures var r := RunLoop(v, name, e as real, Some(k as real), [TextNode(t, NoList)], s, fuel).value;
      && r.rc.output == s.rc.output + Repeat(TextToString(t), Passes(a, e, k))
      && M.Peek(r.bindings, Some(name)) == Ok(ValueWrapper(Stop(a, e, k) as real))
      && |M.StackOf(r.bindings, name)| == |M.StackOf(s.bindings, name)|
    decreases Passes(a, e, k), 0
  {
    WholeTest(a, e);
    var tt, p := TextToString(t), Passes(a + k, e, k);
    assert Passes(a, e, k) == p + 1 && Stop(a, e, k) == Stop(a + k, e, k);
    var s' := TextPass(v, name, e as real, k as real, t, s, fuel - 1);
    CountingLoop(v, name, a + k, e, k, t, s', fuel - 1);
    assert s'.rc.output == s.rc.output + tt by {
      assert s.rc.output + "" == s.rc.output;
    }
    assert Repeat(tt, p + 1) == tt + Repeat(tt, p);
    AppendAssoc(s.rc.output, tt, Repeat(tt, p));
  }

  lemma AppendAssoc(a: string, b: string, c: string)
    ensures a + b + c == a + (b + c)
  {
  }

  /** With a step of zero the variable never moves, so a loop whose test
      passes once runs until the fuel runs out, however much there is. */
  lemma {:induction false} ZeroStepDiverges(v: Visitor, name: string, end: real, t: string, s: State, fuel: nat)
    requires WritesText(v)
    requires Compare(name, end, s.bindings).Ok? && Compare(name, end, s.bindings).value <= 0
    ensures RunLoop(v, name, end, Some(0.0), [TextNode(t, NoList)], s, fuel) == Err(OutOfFuel)
    decreases fuel
  {
    if fuel > 0 {
      var s' := TextPass(v, name, end, 0.0, t, s, fuel - 1);
      ZeroStepDiverges(v, name, end, t, s', fuel - 1);
    }
  }

  // ---------------------------------------------------------------------------
  // FOR nodes

  /** A FOR node whose head opens runs its loop from the opened state. */
  lemma ForVisit(v: Visitor, x: Element, a: Element, e: Element, k: Option<Element>, kids: ChildList, s: State, f: nat)
    requires v.open(x, a, e, k, s).Ok?
    ensures var l := v.open(x, a, e, k, s).value;
      EvalNode(v, ForLoopNode(x, a, e, k, kids), s, f + 1) == RunLoop(v, l.name, l.end, l.step, Children(ForLoopNode(x, a, e, k, kids)), l.state, f)
  {
  }

  /** A FOR loop with no step fails as soon as it is visited, whatever its
      body. */
  lemma MissingStepFails(x: Element, a: Element, e: Element, kids: ChildList, s: State, f: nat)
    ensures EvalNode(Smart(), ForLoopNode(x, a, e, None, kids), s, f + 1) == Err(MissingStep)
  {
  }

  /** A whole constant reads as its own value. */
  lemma ReadsWhole(i: int)
    ensures ToDouble(BoxedString(AsText(ConstantInteger(i)))) == Some(i as real)
  {
    IntParsesAsDouble(i);
  }

  /** Opening FOR x a e k with whole constants binds the variable to the
      start on top of what it was bound to and reads the end and the step as
      their own values. */
  lemma OpenedWhole(x: string, a: int, e: int, k: int, s: State, r: Result<Loop, EngineError>)
    requires Opened(Variable(x), ConstantInteger(a), ConstantInteger(e), Some(ConstantInteger(k)), s, r)
    ensures r.Ok? && r.value.name == x && r.value.end == e as real && r.value.step == Some(k as real)
    ensures r.value.state.rc == s.rc
    ensures M.StackOf(r.value.state.bindings, x) == M.StackOf(s.bindings, x) + [ValueWrapper(a as real)]
  {
    ReadsWhole(a);
    ReadsWhole(e);
    ReadsWhole(k);
    VariableText(x);
  }

  lemma VariableText(x: string)
    ensures AsText(Variable(x)) == x
  {
  }

  /** FOR x a e k over one text node, with whole constants and a positive
      step, visited by a visitor that opens loops as the engine does and
      writes text: the text is written once per pass, and afterwards the
      variable stays bound, one level higher than before, to the first value
      past the end. */
  lemma CountingFor(v: Visitor, x: string, a: int, e: int, k: int, t: string, s: State, fuel: nat) returns (r: State)
    requires WritesText(v) && OpensLoops(v)
    requires k > 0 && s.rc.headerGenerated && fuel >= Passes(a, e, k)
    ensures EvalNode(v, ForLoopNode(Variable(x), ConstantInteger(a), ConstantInteger(e), Some(ConstantInteger(k)), List([TextNode(t, NoList)])), s, fuel + 1) == Ok(r)
    ensures r.rc.output == s.rc.output + Repeat(TextToString(t), Passes(a, e, k))
    ensures M.Peek(r.bindings, Some(x)) == Ok(ValueWrapper(Stop(a, e, k) as real))
    ensures |M.StackOf(r.bindings, x)| == |M.StackOf(s.bindings, x)| + 1
  {
    var l := ForHead(v, x, a, e, k, s);
    r := CountingRun(v, x, a, e, k, t, s, l, fuel);
  }

  /** The head of a FOR loop over whole constants, opened as the engine does. */
  lemma ForHead(v: Visitor, x: string, a: int, e: int, k: int, s: State) returns (l: Loop)
    requires OpensLoops(v)
    ensures v.open(Variable(x), ConstantInteger(a), ConstantInteger(e), Some(ConstantInteger(k)), s) == Ok(l)
    ensures l.name == x && l.end == e as real && l.step == Some(k as real) && l.state.rc == s.rc
    ensures M.StackOf(l.state.bindings, x) == M.StackOf(s.bindings, x) + [ValueWrapper(a as real)]
  {
    var o := v.open(Variable(x), ConstantInteger(a), ConstantInteger(e), Some(ConstantInteger(k)), s);
    OpenedWhole(x, a, e, k, s, o);
    l := o.value;
  }

  /** CountingFor once the head is open. */
  lemma CountingRun(v: Visitor, x: string, a: int, e: int, k: int, t: string, s: State, l: Loop, fuel: nat) returns (r: State)
    requires WritesText(v) && k > 0 && s.rc.headerGenerated && fuel >= Passes(a, e, k)
    requires v.open(Variable(x), ConstantInteger(a), ConstantInteger(e), Some(ConstantInteger(k)), s) == Ok(l)
    requires l.name == x && l.end == e as real && l.step == Some(k as real) && l.state.rc == s.rc
    requires M.StackOf(l.state.bindings, x) == M.StackOf(s.bindings, x) + [ValueWrapper(a as real)]
    ensures EvalNode(v, ForLoopNode(Variable(x), ConstantInteger(a), ConstantInteger(e), Some(ConstantInteger(k)), List([TextNode(t, NoList)])), s, fuel + 1) == Ok(r)
    ensures r.rc.output == s.rc.output + Repeat(TextToString(t), Passes(a, e, k))
    ensures M.Peek(r.bindings, Some(x)) == Ok(ValueWrapper(Stop(a, e, k) as real))
    ensures |M.StackOf(r.bindings, x)| == |M.StackOf(s.bindings, x)| + 1
  {
    ForVisit(v, Variable(x), ConstantInteger(a), ConstantInteger(e), Some(ConstantInteger(k)), List([TextNode(t, NoList)]), s, fuel);
    CountingLoop(v, x, a, e, k, t, l.state, fuel);
    r := RunLoop(v, x, e as real, Some(k as real), [TextNode(t, NoList)], l.state, fuel).value;
  }

  /** The engine's visitor is one the lemmas on text nodes and counting
      loops speak about. */
  lemma SmartVisitor()
    ensures Smart().text == VisitText && WritesText(Smart()) && OpensLoops(Smart())
  {
    SmartWritesText();
    forall x, a, e, k, s ensures Opened(x, a, e, k, s, Smart().open(x, a, e, k, s)) {
      assert Smart().open(x, a, e, k, s) == OpenLoop(x, a, e, k, s);
    }
  }

  // ---------------------------------------------------------------------------
  // Echo tags

  /** An operator replaces the two top entries by one: the one below the
      top is the left operand and the top the right one, so `a b -` is a
      minus b and `a b /` is a divided by b. */
  lemma OperandOrder(op: string, st: EvalStack, x: real, y: real)
    requires Evaluable(op) && (op == "/" ==> y != 0.0)
    requires |st| >= 2 && ToDouble(st[|st| - 2]) == Some(x) && ToDouble(st[|st| - 1]) == Some(y)
    ensures Binary(op, st) == Ok(st[..|st| - 2] + [Box(Apply(op, x, y).value)])
  {
    BinaryReads(op, st, x, y);
  }

  /** A division by zero fails instead of pushing an infinity. */
  lemma DivideByZero(st: EvalStack)
    requires |st| >= 2 && ToDouble(st[|st| - 2]).Some? && ToDouble(st[|st| - 1]) == Some(0.0)
    ensures Binary("/", st) == Err(DivisionByZero)
  {
    BinaryReads("/", st, ToDouble(st[|st| - 2]).value, 0.0);
  }

  /** Two operands that read as numbers are popped and combined. */
  lemma BinaryReads(op: string, st: EvalStack, x: real, y: real)
    requires Evaluable(op)
    requires |st| >= 2 && ToDouble(st[|st| - 2]) == Some(x) && ToDouble(st[|st| - 1]) == Some(y)
    ensures Apply(op, x, y).Err? ==> Binary(op, st) == Err(Apply(op, x, y).error)
    ensures Apply(op, x, y).Ok? ==> Binary(op, st) == Ok(st[..|st| - 2] + [Box(Apply(op, x, y).value)])
  {
    var rest := st[..|st| - 1];
    assert Pop(st) == Ok((st[|st| - 1], rest));
    assert Number(st[|st| - 1]) == Ok(y);
    assert rest[|rest| - 1] == st[|st| - 2] && rest[..|rest| - 1] == st[..|st| - 2];
    assert Pop(rest) == Ok((st[|st| - 2], st[..|st| - 2]));
    assert Number(st[|st| - 2]) == Ok(x);
  }

  /** swap twice leaves the stack as it was. */
  lemma SwapSwap(st: EvalStack)
    requires |st| >= 2
    ensures StackFunction("swap", st).Ok?
    ensures StackFunction("swap", StackFunction("swap", st).value) == Ok(st)
  {
    var s1 := StackFunction("swap", st).value;
    assert s1[..|s1| - 2] == st[..|st| - 2];
    assert st == st[..|st| - 2] + [st[|st| - 2], st[|st| - 1]];
  }

  /** A value stored with a *paramSet is what the matching *paramGet reads
      back under the same name: `v n pparamSet n d pparamGet` leaves the text
      of v. */
  lemma ParamSetGet(scope: Scope, st: EvalStack, v: Boxed, n: Boxed, d: Boxed, rc: R.RequestContext)
    requires scope != Request
    ensures ParamSet(scope, st + [v, n], rc).Ok?
    ensures var (st1, rc1) := ParamSet(scope, st + [v, n], rc).value;
      ParamGet(scope, st1 + [n, d], rc1) == Ok(st + [BoxedString(Text(v))])
  {
    var (st1, rc1) := ParamSet(scope, st + [v, n], rc).value;
    assert (st + [v, n])[..|st|] == st;
    var r := ParamGet(scope, st1 + [n, d], rc1).value;
    assert (st1 + [n, d])[|st1| + 2 - 2] == n;
    assert r[..|st|] == st;
  }

  /** After a *paramDel the matching *paramGet finds nothing and leaves its
      default: `n pparamDel n d pparamGet` leaves d. */
  lemma ParamDelGet(scope: Scope, st: EvalStack, n: Boxed, d: Boxed, rc: R.RequestContext)
    requires scope != Request
    ensures ParamDel(scope, st + [n], rc).Ok?
    ensures var (st1, rc1) := ParamDel(scope, st + [n], rc).value;
      ParamGet(scope, st1 + [n, d], rc1) == Ok(st + [d])
  {
    var (st1, rc1) := ParamDel(scope, st + [n], rc).value;
    assert (st + [n])[..|st|] == st;
    var r := ParamGet(scope, st1 + [n, d], rc1).value;
    assert (st1 + [n, d])[|st1| + 2 - 2] == n;
    assert r[..|st|] == st;
  }

  /** The request parameters can be read but not written: paramSet is in
      neither table. */
  lemma NoParamSet(st: EvalStack, rc: R.RequestContext)
    ensures CallFunction("paramSet", st, rc) == Err(UnknownFunction)
  {
  }

  /** Only the four arithmetic operators can be evaluated. */
  lemma OnlyFourOperators(o: string, b: Bindings, st: EvalStack, rc: R.RequestContext)
    requires o !in {"+", "-", "*", "/"}
    ensures Step(Operator(o), b, st, rc) == Err(UnsupportedOperator)
  {
  }
}
