# SmartHttpServer core in Dafny

This project models the core of SmartHttpServer, a small Java web server with
its own template language, SmartScript. It covers:

- the SmartScript pipeline:
  - the three-state lexer (INIT, TEXT, TAG) with its `\{` and `\\` escapes;
  - the parser, which splits tags into chunks, classifies the chunks as
    elements and builds the node tree on a scope stack;
  - the node printers;
  - the engine, which walks the tree, writes text, evaluates echo tags as
    postfix expressions and runs FOR loops over ValueWrapper cells kept in an
    ObjectMultistack;
- the hand-written containers ArrayIndexedCollection, Collection and
  ObjectStack;
- RequestContext, with its header-generated guard, header text and
  parameter maps;
- the pure helpers of the server's client worker: query-string parsing,
  the request-line checks, the header reader's byte state machine with line
  unfolding, and session ids.

Everything is a value. Java objects become datatypes and mutating methods
become functions that return the new value. Exceptions become `Result`
errors. The array of ArrayIndexedCollection is a `seq<Option<T>>` whose
length is the capacity, and the methods on it copy the Java loops with their
invariants. Output streams are strings that writes append to.

Modules, one per file:

- `Wrappers`: Option and Result.
- `JString`: the parts of java.lang.String, Integer and Double the core uses.
- `Elements`: elements and `asText`.
- `Nodes`: nodes, the child list and the printers.
- `Lexer`: the scanner.
- `Parser`: chunks, elements and the tree.
- `Collections`: ArrayIndexedCollection, Collection and ObjectStack.
- `Multistacks`: ObjectMultistack.
- `ValueWrappers`: boxed values and ValueWrapper.
- `RequestContexts`: RequestContext.
- `Engine`: SmartScriptEngine.
- `HttpServer`: the client worker helpers.
- `RoundTrip` and `TreeRoundTrip`: the proof that a printed document parses
  back into the same tree.

The engine's walk takes a `Visitor` of three callbacks (text, echo, opening a
loop), like the Java `INodeVisitor`. `Engine.Smart()` is SmartScriptEngine's
visitor. The lemmas about the walk hold for any visitor meeting a stated
predicate, and `Engine.SmartSound` and `Engine.SmartVisitor` show that the
engine's visitor meets them.

The walk is bounded by a fuel parameter: one unit per nested visit and per
loop pass. Running out gives the model-only error `OutOfFuel`.
`Engine.NodeFuel` shows that a run which does not run out gives the same
result with any larger fuel.

Paths below are relative to the repository root.

## Model

| member | source | states |
|---|---|---|
| Lexer.NewLexer | src/hr/fer/zemris/java/custom/scripting/lexer/SmartScriptLexer.java:34-40 | The constructor's first replaceAll throws (an illegal group reference in the replacement `{$`) exactly when its pattern matches, and then there is no lexer. Otherwise the lexer is at position 0 in INIT with an empty buffer over the unchanged text |
| Lexer.OpeningPatternIff | src/hr/fer/zemris/java/custom/scripting/lexer/SmartScriptLexer.java:35 | The first pattern matches exactly when `{` and a run of blanks end the text, or end it before one final line terminator that is not itself a blank |
| Lexer.ClosingPatternNeverMatches | src/hr/fer/zemris/java/custom/scripting/lexer/SmartScriptLexer.java:36 | The second pattern can never match: after the blanks that follow a place where `$` matches there is no `}`, so the second replaceAll changes nothing |
| Lexer.TrailingBraceRefused | src/hr/fer/zemris/java/custom/scripting/lexer/SmartScriptLexer.java:34-36 | `a{ ` and `{`, a tab and U+2028 are refused by the constructor; `{ a` and a closed tag `{$ a $}` are not |
| Lexer.IsTagEntry | src/hr/fer/zemris/java/custom/scripting/lexer/SmartScriptLexer.java:86-88 | Definition: `{` followed by `$`. Lexer.TextAtTagEntry and Lexer.NextToken state what it triggers |
| Lexer.IsIgnoreTag | src/hr/fer/zemris/java/custom/scripting/lexer/SmartScriptLexer.java:98-100 | Definition: a backslash followed by `{`. Lexer.TextEscape states the step it triggers |
| Lexer.IsTagExit | src/hr/fer/zemris/java/custom/scripting/lexer/SmartScriptLexer.java:109-111 | Definition: `$` followed by `}`. Lexer.TagAtTagExit and Lexer.TagStep state what it triggers |
| Lexer.IsDoubleBackslash | src/hr/fer/zemris/java/custom/scripting/lexer/SmartScriptLexer.java:121-123 | Definition: two backslashes. Lexer.TextEscape states the step it triggers |
| Lexer.IsUnsupportedSequence | src/hr/fer/zemris/java/custom/scripting/lexer/SmartScriptLexer.java:132-134 | Definition: a backslash followed by anything but `{` or a backslash. Lexer.BadEscape states that it fails |
| Lexer.GenerateToken | src/hr/fer/zemris/java/custom/scripting/lexer/SmartScriptLexer.java:47-66 | INIT cannot produce a token. TEXT gives the buffer as it is. TAG gives the buffer trimmed. The buffer is empty afterwards |
| Lexer.NextToken | src/hr/fer/zemris/java/custom/scripting/lexer/SmartScriptLexer.java:150-228 | Never fails with the INIT error. EOF exactly when the value is null, and only at the end of the input with an empty buffer. A TEXT token is never empty. A token read from an empty buffer consumes input. The position never moves back |
| Lexer.Tokenize | src/hr/fer/zemris/java/custom/scripting/parser/SmartScriptParser.java:230-241 | The tokens the parse loop reads end in exactly one EOF, the last token |
| Lexer.EofSticky | src/hr/fer/zemris/java/custom/scripting/lexer/SmartScriptLexer.java:218-224 | Once EOF has been returned, every later call returns EOF again and leaves the lexer as it is |
| Lexer.TextStep | src/hr/fer/zemris/java/custom/scripting/lexer/SmartScriptLexer.java:192-194 | In TEXT, a character that is neither a backslash nor the start of `{$` is appended to the buffer |
| Lexer.TagStep | src/hr/fer/zemris/java/custom/scripting/lexer/SmartScriptLexer.java:206-208 | In TAG, every character other than the `$}` exit is appended verbatim, backslashes included |
| Lexer.ScanPlainText | src/hr/fer/zemris/java/custom/scripting/lexer/SmartScriptLexer.java:175-196 | A TEXT span with no backslash and no `{$` goes into the buffer unchanged |
| Lexer.TextEscape | src/hr/fer/zemris/java/custom/scripting/lexer/SmartScriptLexer.java:184-187 | In TEXT, `\{` and `\\` put their second character into the buffer and move past both |
| Lexer.TextAtTagEntry | src/hr/fer/zemris/java/custom/scripting/lexer/SmartScriptLexer.java:176-183 | In TEXT, `{$` with collected text returns that text as a TEXT token and stays on the delimiter. With an empty buffer it switches to TAG past both characters |
| Lexer.TagAtTagExit | src/hr/fer/zemris/java/custom/scripting/lexer/SmartScriptLexer.java:198-206 | In TAG, `$}` with collected text returns the trimmed text as a TAG token and stays on the delimiter. With an empty buffer it switches to TEXT past both characters |
| Lexer.EmptyTagVanishes | src/hr/fer/zemris/java/custom/scripting/lexer/SmartScriptLexer.java:199-205 | `{$$}` lexes to EOF alone, without a token |
| Lexer.ScanTagContent | src/hr/fer/zemris/java/custom/scripting/lexer/SmartScriptLexer.java:198-208 | Tag content without `$}` becomes one TAG token: the collected text, trimmed |
| Lexer.BadEscape | src/hr/fer/zemris/java/custom/scripting/lexer/SmartScriptLexer.java:189-190 | A backslash in TEXT followed by neither `{` nor `\`, or by nothing, is the unsupported-escape error |
| Parser.ChunkScan | src/hr/fer/zemris/java/custom/scripting/parser/SmartScriptParser.java:181-211 | No chunk is empty, and a chunk that does not start with a quote holds no whitespace |
| Parser.GetTagChunks | src/hr/fer/zemris/java/custom/scripting/parser/SmartScriptParser.java:176-219 | The chunks of a tag: none is empty, and only a chunk starting with a quote can hold whitespace |
| Parser.ScanFlush | src/hr/fer/zemris/java/custom/scripting/parser/SmartScriptParser.java:184-190 | Outside a string, whitespace or the end of the tag closes the chunk being collected |
| Parser.ScanQuotedWord | src/hr/fer/zemris/java/custom/scripting/parser/SmartScriptParser.java:194-204 | A chunk that opens with a quote runs to the next quote, inner spaces included, and is closed there |
| Parser.ScanWord | src/hr/fer/zemris/java/custom/scripting/parser/SmartScriptParser.java:181-211 | A chunk word followed by a space or the end comes out as one chunk |
| Parser.ChunksOfJoin | src/hr/fer/zemris/java/custom/scripting/parser/SmartScriptParser.java:176-219 | Chunk words joined by single spaces split back into exactly those words |
| Parser.IsVariable | src/hr/fer/zemris/java/custom/scripting/parser/SmartScriptParser.java:309-321 | An empty name fails, because the first character is read before anything else. Otherwise the answer is true exactly for a letter followed by letters, digits and underscores |
| Parser.IsFunction | src/hr/fer/zemris/java/custom/scripting/parser/SmartScriptParser.java:329-331 | True exactly for `@` followed by a variable name. A lone `@` fails inside isVariable |
| Parser.GenerateElement | src/hr/fer/zemris/java/custom/scripting/parser/SmartScriptParser.java:255-271 | The classification order is integer, double, variable, function, string, operator. A text Double.parseDouble accepts, `NaN` and `Infinity` included, that is no integer is an error, because it is re-read with Integer.parseInt. No double element is ever built. A variable is an identifier that is no number. Any other chunk is an invalid element |
| Parser.StringValue | src/hr/fer/zemris/java/custom/scripting/parser/SmartScriptParser.java:265 | Definition: the four characters `\r\n` in a string literal become the line separator. Parser.StringRoundTrip states that a text without them is kept exactly as written |
| Parser.NotNumeric | src/hr/fer/zemris/java/custom/scripting/parser/SmartScriptParser.java:279-301 | Text that starts with no digit, sign or point, and is neither `NaN` nor `Infinity`, is neither an integer nor a double |
| Parser.NotUnsignedDouble | src/hr/fer/zemris/java/custom/scripting/parser/SmartScriptParser.java:294-301 | Neither the decimal nor the hexadecimal form of Double.parseDouble reads a text that starts with neither a digit nor a point |
| Parser.NonFiniteNames | src/hr/fer/zemris/java/custom/scripting/parser/SmartScriptParser.java:255-261 | `NaN` and `Infinity` are accepted by Double.parseDouble, so they fail as doubles re-read by Integer.parseInt and never become variables |
| Parser.OperatorNotNumeric | src/hr/fer/zemris/java/custom/scripting/parser/SmartScriptParser.java:279-301 | None of the five operators reads as an integer or a double, so the operator branch is reached |
| Parser.SignNotNumeric | src/hr/fer/zemris/java/custom/scripting/parser/SmartScriptParser.java:279-301 | A lone `+` or `-` is neither an integer nor a double, so it reaches the operator test |
| Parser.OperatorNotName | src/hr/fer/zemris/java/custom/scripting/parser/SmartScriptParser.java:309-341 | An operator symbol is no variable, no function and no string |
| Parser.OperatorRoundTrip | src/hr/fer/zemris/java/custom/scripting/parser/SmartScriptParser.java:349-352 | Each of `+ - * / ^` is classified as that operator |
| Parser.VariableRoundTrip | src/hr/fer/zemris/java/custom/scripting/parser/SmartScriptParser.java:260-261 | An identifier other than `NaN` and `Infinity` is classified as a variable of that name |
| Parser.FunctionRoundTrip | src/hr/fer/zemris/java/custom/scripting/parser/SmartScriptParser.java:262-263 | `@` and an identifier is classified as that function |
| Parser.StringRoundTrip | src/hr/fer/zemris/java/custom/scripting/parser/SmartScriptParser.java:264-265 | A quoted text without `\r\n` escapes is classified as a string holding that text |
| Parser.ElementRoundTrip | src/hr/fer/zemris/java/custom/scripting/parser/SmartScriptParser.java:255-271 | Every element that can be printed and re-read is classified back from its `asText` as itself. A variable named `NaN` or `Infinity` is not re-readable, and neither is a double |
| Parser.GenerateElements | src/hr/fer/zemris/java/custom/scripting/parser/SmartScriptParser.java:122-124 | On success there is one element per chunk, each the classification of its chunk. A failure is the failure of some chunk |
| Parser.AppendToTop | src/hr/fer/zemris/java/custom/scripting/parser/SmartScriptParser.java:56-59 | The node on top of the scope stack gains the child at the end, and every other scope is unchanged |
| Parser.CheckForArguments | src/hr/fer/zemris/java/custom/scripting/parser/SmartScriptParser.java:76-81 | Succeeds exactly when each argument after the variable is a string, a variable, an integer or a double |
| Parser.ArgumentKind | src/hr/fer/zemris/java/custom/scripting/parser/SmartScriptParser.java:77-78 | The test of one FOR argument. It fails only on an empty chunk, inside isVariable |
| Parser.GenerateForLoop | src/hr/fer/zemris/java/custom/scripting/parser/SmartScriptParser.java:66-95 | Only 3 or 4 arguments are accepted, with a variable first and arguments of the allowed kinds. The node holds the classified variable, start, end and step. The step is present exactly in the 4-argument form. There are no children yet |
| Parser.GenerateEcho | src/hr/fer/zemris/java/custom/scripting/parser/SmartScriptParser.java:113-127 | A lone chunk `=x` gives an echo of the element `x`. Otherwise the echo holds the elements of all chunks after the first, in order. It fails exactly when some element fails |
| Parser.CloseScope | src/hr/fer/zemris/java/custom/scripting/parser/SmartScriptParser.java:142-148 | END removes the innermost scope and makes it, as it then stands, the last child of the scope below, leaving the scopes further down alone. Java attaches the loop when it is opened and fills it in place; with nodes as values the loop is attached when it is closed, which gives the same tree |
| Parser.ClassifyTag | src/hr/fer/zemris/java/custom/scripting/parser/SmartScriptParser.java:155-168 | Definition of the dispatch in resolveTag; Parser.ResolveTag states each branch's outcome |
| Parser.ResolveTag | src/hr/fer/zemris/java/custom/scripting/parser/SmartScriptParser.java:155-168 | "for" in any case opens a loop scope. `=`, or a lone chunk starting with `=`, appends an echo to the top scope. A lone "end" closes a scope, and closing the document is an error. Anything else is an unknown tag |
| Parser.Parse | src/hr/fer/zemris/java/custom/scripting/parser/SmartScriptParser.java:36-49 | The lexer constructor's failure, which the parser does not catch, happens exactly when its first pattern matches. A successful parse yields a document node, and the whole input lexes without error. The round trip below says which document |
| Parser.ParseFrom | src/hr/fer/zemris/java/custom/scripting/parser/SmartScriptParser.java:227-246 | The parse loop: a lexer error at the next token is the parse's error. At EOF the result is the document when only it is open and UnclosedLoop otherwise. Any lexer failure is the one tokenizing reports, and a success means the rest of the input lexes |
| Parser.IsInteger | src/hr/fer/zemris/java/custom/scripting/parser/SmartScriptParser.java:279-286 | Definition: Integer.parseInt accepts the text. JString.ParseInt32 states which texts those are |
| Parser.IsDouble | src/hr/fer/zemris/java/custom/scripting/parser/SmartScriptParser.java:294-301 | Definition: Double.parseDouble accepts the text, NaN and the infinities included. JString.ParseDouble and JString.ExponentForm state which finite texts those are |
| Parser.IsString | src/hr/fer/zemris/java/custom/scripting/parser/SmartScriptParser.java:339-341 | Definition: starts and ends with a quote, so a lone quote counts. Parser.StringRoundTrip states the round trip |
| Parser.IsOperator | src/hr/fer/zemris/java/custom/scripting/parser/SmartScriptParser.java:349-352 | Definition: one of `+ - * / ^`. Parser.OperatorNotNumeric and Parser.OperatorNotName show no earlier branch takes an operator |
| Nodes.NumberOfChildren | src/hr/fer/zemris/java/custom/scripting/nodes/Node.java:37-43 | 0 before the first child is added, otherwise the number of children |
| Nodes.AddChild | src/hr/fer/zemris/java/custom/scripting/nodes/Node.java:24-30 | The first child creates the list. A child is appended at the end. A null child is refused by the collection and changes nothing. The node is otherwise unchanged |
| Nodes.GetChild | src/hr/fer/zemris/java/custom/scripting/nodes/Node.java:52-54 | Returns the child added at that position. A node with no list fails with a null pointer. An index outside 0..n-1 fails with IndexOutOfBounds |
| Nodes.AddChildrenInOrder | src/hr/fer/zemris/java/custom/scripting/nodes/Node.java:24-30 | Children added one after another keep their order |
| Nodes.AddedChildrenFound | src/hr/fer/zemris/java/custom/scripting/nodes/Node.java:52-54 | After adding `cs`, getChild finds `cs[i]` at position n + i |
| Nodes.TextToStringLength | src/hr/fer/zemris/java/custom/scripting/nodes/TextNode.java:26-28 | The printed length is the text's length plus the number of `{$` in it. A text without `{$` prints unchanged |
| Nodes.TextToString | src/hr/fer/zemris/java/custom/scripting/nodes/TextNode.java:26-28 | Definition: every `{$` gets a backslash in front. Nodes.TextToStringLength states its length and RoundTrip.TextNodeLexes that it lexes back |
| Elements.AsText | src/hr/fer/zemris/java/custom/scripting/elems/ElementConstantInteger.java:26-29 | Definition: an integer prints as Integer.toString, a double as the model's double text, and every other element as the text it was built from. Parser.ElementRoundTrip states that the parser classifies that text back as the same element |
| Nodes.EchoToString | src/hr/fer/zemris/java/custom/scripting/nodes/EchoNode.java:41-52 | Definition: `{$= `, each element's text and a space, `$}`. RoundTrip.EchoResolves states that it parses back |
| Nodes.ForHeader | src/hr/fer/zemris/java/custom/scripting/nodes/ForLoopNode.java:84-97 | Definition of the opening tag. Nodes.ForLoopShape and RoundTrip.ForResolves state its shape and that it parses back |
| Nodes.NodeToString | src/hr/fer/zemris/java/custom/scripting/nodes/ForLoopNode.java:84-109 | Definition of toString for every node. TreeRoundTrip.DocumentRoundTrip states that a printed document parses back |
| Nodes.CloseLoop | src/hr/fer/zemris/java/custom/scripting/nodes/ForLoopNode.java:101-107 | Definition of the loop's end. Nodes.CloseLoopShape states its shape |
| Nodes.ForLoopShape | src/hr/fer/zemris/java/custom/scripting/nodes/ForLoopNode.java:83-109 | A printed loop starts with its header and ends with `{$END$}`. A loop with no children is the header, the line separator and `{$END$}` |
| Nodes.CloseLoopShape | src/hr/fer/zemris/java/custom/scripting/nodes/ForLoopNode.java:102-106 | The line separator goes in before `{$END$}` only when the text so far does not end in a newline. It always goes in after a bare header |
| RoundTrip.TextNodeLexes | src/hr/fer/zemris/java/custom/scripting/nodes/TextNode.java:26-28 | A text without backslashes, printed escaped and followed by a tag or the end, lexes back as one TEXT token holding exactly the original text |
| RoundTrip.EchoResolves | src/hr/fer/zemris/java/custom/scripting/nodes/EchoNode.java:41-52 | The printed content of an echo tag chunks and resolves back into an echo of the same elements, appended to the top scope |
| RoundTrip.ForResolves | src/hr/fer/zemris/java/custom/scripting/nodes/ForLoopNode.java:87-96 | The printed header of a loop resolves back into a loop with the same variable, start, end and step, opened as a new scope |
| RoundTrip.EndResolves | src/hr/fer/zemris/java/custom/scripting/nodes/ForLoopNode.java:106 | The printed `{$END$}` closes the innermost scope |
| TreeRoundTrip.DocumentRoundTrip | src/hr/fer/zemris/java/custom/scripting/demo/TreeWriter.java:14-17 | A document of the shape the parser builds, printed node by node, parses back into the same document |
| Collections.New | src/hr/fer/zemris/java/custom/collections/ArrayIndexedCollection.java:61-67 | A capacity below 1 is refused. Otherwise the collection is empty with exactly that capacity |
| Collections.DoubleUpCapacity | src/hr/fer/zemris/java/custom/collections/ArrayIndexedCollection.java:77-86 | The new array is twice as long and holds the same values |
| Collections.Add | src/hr/fer/zemris/java/custom/collections/ArrayIndexedCollection.java:95-107 | A null value is refused. Otherwise the value is appended, and the capacity doubles exactly when the array was full |
| Collections.Get | src/hr/fer/zemris/java/custom/collections/ArrayIndexedCollection.java:116-122 | Returns the value at the index. An index outside 0..size-1 gives IndexOutOfBounds |
| Collections.Clear | src/hr/fer/zemris/java/custom/collections/ArrayIndexedCollection.java:124-131 | No values are left, and the capacity is kept |
| Collections.Insert | src/hr/fer/zemris/java/custom/collections/ArrayIndexedCollection.java:141-165 | A null value or a position outside 0..size is refused. Otherwise the values become old[..p] + [v] + old[p..] |
| Collections.ShiftRightAndStore | src/hr/fer/zemris/java/custom/collections/ArrayIndexedCollection.java:157-163 | The shift loop moves the slots from the position on one place right, then stores the value at the position |
| Collections.IndexOf | src/hr/fer/zemris/java/custom/collections/ArrayIndexedCollection.java:174-186 | The first position holding the value. -1 exactly when the value is null or absent |
| Collections.Contains | src/hr/fer/zemris/java/custom/collections/ArrayIndexedCollection.java:211-218 | True exactly when a non-null value is stored |
| Collections.RemoveAt | src/hr/fer/zemris/java/custom/collections/ArrayIndexedCollection.java:194-204 | Remove as written. An index outside 0..size-1 gives IndexOutOfBounds and no change. Below capacity the values become old[..i] + old[i+1..]. On a full array the shift reads past the end: ArrayIndexOutOfBounds, with the slots already shifted and the last value still in place |
| Collections.RemoveAtFixed | src/hr/fer/zemris/java/custom/collections/ArrayIndexedCollection.java:194-204 | Remove as intended: the values become old[..i] + old[i+1..] for every valid index, full array included |
| Collections.RemoveValue | src/hr/fer/zemris/java/custom/collections/ArrayIndexedCollection.java:220-229 | An absent or null value gives false and no change. A present value is removed at its first occurrence, and the removal fails the same way remove(int) does on a full array: ArrayIndexOutOfBounds, with the values after it shifted left and the last value still in place |
| Collections.RemoveValueFixed | src/hr/fer/zemris/java/custom/collections/ArrayIndexedCollection.java:220-229 | Over the corrected remove: true exactly when the value is present, and then its first occurrence is gone. Otherwise there is no change |
| Collections.ToArray | src/hr/fer/zemris/java/custom/collections/ArrayIndexedCollection.java:231-241 | Exactly the stored values, in order |
| Collections.Size | src/hr/fer/zemris/java/custom/collections/Collection.java:34-36 | The number of values forEach visits: 0 in the base class |
| Collections.ForEachOrder | src/hr/fer/zemris/java/custom/collections/ArrayIndexedCollection.java:244-251 | Definition: the values forEach hands to its processor, in index order, and none for the base class. Collections.Size, IsEmpty, CollectionToArray, CollectionContains and AddAll state their results in these terms |
| Collections.IsEmpty | src/hr/fer/zemris/java/custom/collections/Collection.java:25-27 | True exactly when forEach visits nothing |
| Collections.CollectionToArray | src/hr/fer/zemris/java/custom/collections/Collection.java:73-75 | The base class refuses with UnsupportedOperation. A subclass gives its values |
| Collections.CollectionContains | src/hr/fer/zemris/java/custom/collections/Collection.java:53-55 | True exactly when a non-null value is among the visited values, so always false in the base class |
| Collections.CollectionRemove | src/hr/fer/zemris/java/custom/collections/Collection.java:63-65 | The base class answers false and changes nothing. True only for a present value. False means no change |
| Collections.CollectionAdd | src/hr/fer/zemris/java/custom/collections/Collection.java:43-45 | The base class ignores the value. A subclass appends it, and a null value is refused |
| Collections.AddAll | src/hr/fer/zemris/java/custom/collections/Collection.java:93-112 | Every value of the other collection, in its forEach order, is added after this collection's own values. The base class stays empty |
| Collections.NewFrom | src/hr/fer/zemris/java/custom/collections/ArrayIndexedCollection.java:61-72 | A capacity below 1 is refused. Otherwise the new collection holds the other collection's values in forEach order, or nothing for null |
| Collections.NewStack | src/hr/fer/zemris/java/custom/collections/ObjectStack.java:23-25 | A new stack is empty, on a collection of the default capacity 16 |
| Collections.StackSize | src/hr/fer/zemris/java/custom/collections/ObjectStack.java:41-43 | The number of stacked values |
| Collections.StackIsEmpty | src/hr/fer/zemris/java/custom/collections/ObjectStack.java:32-34 | True exactly when nothing is stacked |
| Collections.Push | src/hr/fer/zemris/java/custom/collections/ObjectStack.java:50-52 | A null value is refused. Otherwise the value goes on top |
| Collections.Peek | src/hr/fer/zemris/java/custom/collections/ObjectStack.java:77-83 | The top value. An empty stack gives EmptyStack |
| Collections.Pop | src/hr/fer/zemris/java/custom/collections/ObjectStack.java:60-69 | Pop as written. An empty stack gives EmptyStack. Below capacity it returns the top and removes it. On a full backing array the remove fails, and the value is lost to the exception |
| Collections.PopFixed | src/hr/fer/zemris/java/custom/collections/ObjectStack.java:60-69 | Pop over the corrected remove. It returns and removes the top exactly when the stack is not empty |
| Collections.StackClear | src/hr/fer/zemris/java/custom/collections/ObjectStack.java:88-90 | The stack is empty afterwards |
| Collections.PushThenPop | src/hr/fer/zemris/java/custom/collections/ObjectStack.java:50-69 | With the corrected pop, a push followed by a pop returns the pushed value and restores the stack |
| Collections.SixteenPushesThenPop | src/hr/fer/zemris/java/custom/collections/ObjectStack.java:60-69 | As written, a pop after sixteen pushes onto a new stack fails with ArrayIndexOutOfBounds |
| Multistacks.Push | src/hr/fer/zemris/java/custom/scripting/exec/ObjectMultistack.java:65-79 | A null name is refused. Otherwise the value goes on top of that name's stack, and every other name's stack is unchanged |
| Multistacks.Pop | src/hr/fer/zemris/java/custom/scripting/exec/ObjectMultistack.java:89-113 | A null name is refused and an empty stack gives EmptyStack. Otherwise it returns the top and removes it, a stack left empty is removed from the map, and other names are unchanged |
| Multistacks.Peek | src/hr/fer/zemris/java/custom/scripting/exec/ObjectMultistack.java:124-136 | A null name is refused and an empty stack gives EmptyStack. Otherwise it returns the top of that name's stack |
| Multistacks.IsEmpty | src/hr/fer/zemris/java/custom/scripting/exec/ObjectMultistack.java:144-150 | A null name is refused. True exactly when the name is absent from the map, which is exactly when peek fails |
| Multistacks.ReplaceTop | src/hr/fer/zemris/java/custom/scripting/exec/ObjectMultistack.java:124-136 | Updating the wrapper peek hands out changes the top of that stack only |
| Multistacks.WalkToTop | src/hr/fer/zemris/java/custom/scripting/exec/ObjectMultistack.java:76 | The walk along the links ends at the last entry, after one step per link |
| Multistacks.CutTop | src/hr/fer/zemris/java/custom/scripting/exec/ObjectMultistack.java:108-110 | The walk stops at the next-to-last entry, and cutting its link splits off the top |
| Multistacks.ChainPush | src/hr/fer/zemris/java/custom/scripting/exec/ObjectMultistack.java:65-79 | Pushing on the linked chain (a new one-entry chain, or a walk to the top and a new link) gives exactly Multistacks.Push |
| Multistacks.ChainPop | src/hr/fer/zemris/java/custom/scripting/exec/ObjectMultistack.java:89-113 | Popping on the linked chain (removing a one-entry chain, or cutting the link after the next-to-last entry) gives exactly Multistacks.Pop |
| Multistacks.ChainPeek | src/hr/fer/zemris/java/custom/scripting/exec/ObjectMultistack.java:124-136 | Peeking by walking the chain to its top gives exactly Multistacks.Peek |
| Multistacks.PushPeek | src/hr/fer/zemris/java/custom/scripting/exec/ObjectMultistack.java:65-79 | After push(name, v), peek(name) returns v |
| Multistacks.PushPop | src/hr/fer/zemris/java/custom/scripting/exec/ObjectMultistack.java:89-113 | Pop right after push returns the pushed value and gives back the map as it was |
| Multistacks.PopPush | src/hr/fer/zemris/java/custom/scripting/exec/ObjectMultistack.java:65-113 | Pushing back what pop returned restores the map |
| Multistacks.PopLastEmpties | src/hr/fer/zemris/java/custom/scripting/exec/ObjectMultistack.java:101-105 | Popping the only value of a name makes isEmpty(name) true |
| Multistacks.PushReplace | src/hr/fer/zemris/java/custom/scripting/exec/ObjectMultistack.java:65-79 | Pushing v and then overwriting the top with w is the same as pushing w |
| ValueWrappers.ToDoubleParses | src/hr/fer/zemris/java/custom/scripting/exec/ValueWrapper.java:222-232 | The number a value converts to is what Double.parseDouble reads from the value's toString text, for Integers, Doubles and Strings alike; the model takes an Integer's value directly, and this lemma shows that equals reading its decimal text |
| ValueWrappers.Operand | src/hr/fer/zemris/java/custom/scripting/exec/ValueWrapper.java:75-84 | An update operand is 0 for null, and otherwise the finite value Double.parseDouble reads from its text: decimal, exponent, hexadecimal and type-suffix forms |
| ValueWrappers.NewWrapper | src/hr/fer/zemris/java/custom/scripting/exec/ValueWrapper.java:55-66 | Null stores 0. A value whose text Double.parseDouble reads as a finite number stores that number. Anything else is IllegalArgument |
| ValueWrappers.SetValue | src/hr/fer/zemris/java/custom/scripting/exec/ValueWrapper.java:177-188 | Like the constructor; the previous value plays no part |
| ValueWrappers.Increment | src/hr/fer/zemris/java/custom/scripting/exec/ValueWrapper.java:75-87 | Fails exactly when the operand does not parse. Otherwise the stored value grows by the operand |
| ValueWrappers.Decrement | src/hr/fer/zemris/java/custom/scripting/exec/ValueWrapper.java:96-108 | Fails exactly when the operand does not parse. Otherwise the stored value shrinks by the operand |
| ValueWrappers.Multiply | src/hr/fer/zemris/java/custom/scripting/exec/ValueWrapper.java:117-129 | Fails exactly when the operand does not parse. Otherwise the stored value is scaled by the operand |
| ValueWrappers.Divide | src/hr/fer/zemris/java/custom/scripting/exec/ValueWrapper.java:139-155 | A null divisor is an Arithmetic error, and an unparsable one is IllegalArgument. It succeeds exactly when the divisor parses with magnitude above 1e-10, and, over exact reals, the result times the divisor is the old value |
| ValueWrappers.GetValue | src/hr/fer/zemris/java/custom/scripting/exec/ValueWrapper.java:162-169 | A whole number comes out as an Integer, via intValue with its clamp to the int range. Any other number comes out as the Double |
| ValueWrappers.IntValue | src/hr/fer/zemris/java/custom/scripting/exec/ValueWrapper.java:248 | Double.intValue: truncation toward zero inside the int range, clamped to the nearer bound outside it |
| ValueWrappers.Truncate | src/hr/fer/zemris/java/custom/scripting/exec/ValueWrapper.java:248 | The integer part rounds toward zero, for negative numbers too |
| ValueWrappers.NumCompare | src/hr/fer/zemris/java/custom/scripting/exec/ValueWrapper.java:201-213 | An unparsable operand fails with a null pointer. Otherwise a negative result means less, a positive one greater, and 0 means the two differ by less than 1 |
| ValueWrappers.CompareWith | src/hr/fer/zemris/java/custom/scripting/exec/ValueWrapper.java:212 | The sign of the truncated difference agrees with the order, and 0 means a difference below 1 |
| ValueWrappers.WholeValueRoundTrip | src/hr/fer/zemris/java/custom/scripting/exec/ValueWrapper.java:162-169 | A whole value in the int range, taken out by getValue and put into a new wrapper, gives the same wrapper |
| ValueWrappers.IncrementDecrement | src/hr/fer/zemris/java/custom/scripting/exec/ValueWrapper.java:75-108 | Over exact reals, decrementing by what was just added restores the value |
| ValueWrappers.MultiplyDivide | src/hr/fer/zemris/java/custom/scripting/exec/ValueWrapper.java:117-155 | Over exact reals, dividing by a non-zero factor just multiplied in restores the value |
| ValueWrappers.RepeatedIncrement | src/hr/fer/zemris/java/custom/scripting/exec/ValueWrapper.java:75-87 | k increments by an Integer step from an Integer start give start + k * step |
| ValueWrappers.NumCompareOrder | src/hr/fer/zemris/java/custom/scripting/exec/ValueWrapper.java:201-213 | Against an Integer, a whole value compares ≤ 0 exactly when it is ≤ that integer. Values at least 1 apart always compare by their order |
| Engine.Pop | src/hr/fer/zemris/java/custom/collections/ObjectStack.java:60-69 | The evaluation stack gives up its top, and an empty one gives EmptyStack. This is the corrected pop, without the overrun at a full array |
| Engine.Number | src/hr/fer/zemris/java/custom/scripting/exec/SmartScriptEngine.java:248-249 | The finite value Double.parseDouble reads from an entry's text, and NotANumber when there is none |
| Engine.Apply | src/hr/fer/zemris/java/custom/scripting/exec/SmartScriptEngine.java:67-70 | Addition, subtraction and multiplication always succeed; division fails with DivisionByZero exactly on a zero divisor, where Java's double division gives an infinity or NaN |
| Engine.Binary | src/hr/fer/zemris/java/custom/scripting/exec/SmartScriptEngine.java:247-255 | Both operands must parse. The right operand is the top and the left is the one below. The two are replaced by one result, boxed as an Integer when whole, and the entries below are untouched |
| Engine.OperandOrder | src/hr/fer/zemris/java/custom/scripting/exec/SmartScriptEngine.java:247-255 | With operands x below y, the stack ends with the boxed x op y in their place |
| Engine.DivideByZero | src/hr/fer/zemris/java/custom/scripting/exec/SmartScriptEngine.java:70 | Dividing by an operand that reads as 0 is DivisionByZero, the model's stand-in for Java's infinite or NaN quotient |
| Engine.StackFunction | src/hr/fer/zemris/java/custom/scripting/exec/SmartScriptEngine.java:91-107 | `dup` pushes the top again and `swap` exchanges the top two; each needs enough entries. The operators are the binary operation. sin and decfmt are not modelled. Any other name is unknown |
| Engine.SwapSwap | src/hr/fer/zemris/java/custom/scripting/exec/SmartScriptEngine.java:98-107 | Two swaps leave the stack as it was |
| Engine.Lookup | src/hr/fer/zemris/java/webserver/RequestContext.java:298-357 | Reads the request, persistent or temporary map, giving nothing for an absent name |
| Engine.Store | src/hr/fer/zemris/java/webserver/RequestContext.java:336-376 | Exactly the persistent or temporary map gains the entry, and nothing visible in the header changes |
| Engine.Remove | src/hr/fer/zemris/java/webserver/RequestContext.java:345-385 | Exactly the persistent or temporary map loses the name, and nothing visible in the header changes |
| Engine.ParamGet | src/hr/fer/zemris/java/custom/scripting/exec/SmartScriptEngine.java:129-143 | Pops the default and then the name. It pushes the stored value when the name is found, and otherwise the default. Needs two entries |
| Engine.ParamSet | src/hr/fer/zemris/java/custom/scripting/exec/SmartScriptEngine.java:159-169 | Pops the name and then the value, and stores the value's text under the name's text. Needs two entries |
| Engine.ParamDel | src/hr/fer/zemris/java/custom/scripting/exec/SmartScriptEngine.java:171-180 | Pops the name and removes it from the map. Needs one entry |
| Engine.ParamSetGet | src/hr/fer/zemris/java/custom/scripting/exec/SmartScriptEngine.java:146-169 | What a *paramSet stored, the matching *paramGet reads back instead of the default |
| Engine.ParamDelGet | src/hr/fer/zemris/java/custom/scripting/exec/SmartScriptEngine.java:146-180 | After a *paramDel, the matching *paramGet pushes the default |
| Engine.NoParamSet | src/hr/fer/zemris/java/custom/scripting/exec/SmartScriptEngine.java:108-212 | The request parameters can be read but not written: paramSet is in no table |
| Engine.SetMime | src/hr/fer/zemris/java/custom/scripting/exec/SmartScriptEngine.java:111-126 | Pops the type. A quoted type loses its quotes. A bare `""` or `"` is dropped without a change. Once the header is out the setter refuses |
| Engine.Unquote | src/hr/fer/zemris/java/custom/scripting/exec/SmartScriptEngine.java:118-119 | The text between the quotes, which put back around it gives the original |
| Engine.ContextFunction | src/hr/fer/zemris/java/custom/scripting/exec/SmartScriptEngine.java:108-205 | A function given the request context changes at most the parameter maps and, before the header, the MIME type |
| Engine.CallFunction | src/hr/fer/zemris/java/custom/scripting/exec/SmartScriptEngine.java:320-327 | A call writes nothing and changes at most the parameter maps and, before the header, the MIME type |
| Engine.OnlyFourOperators | src/hr/fer/zemris/java/custom/scripting/exec/SmartScriptEngine.java:328-335 | Any operator other than + - * / is unsupported |
| Engine.Texts | src/hr/fer/zemris/java/custom/scripting/exec/SmartScriptEngine.java:339-342 | The entries' texts, one per entry, bottom first |
| Engine.DrainStack | src/hr/fer/zemris/java/custom/scripting/exec/SmartScriptEngine.java:339-342 | Popping from the top into the array from the back leaves the array bottom-first and the stack empty |
| Engine.WriteAll | src/hr/fer/zemris/java/custom/scripting/exec/SmartScriptEngine.java:344-348 | One write per text, in order. The first write of all sends the header, and nothing else in the context changes |
| Engine.Echo | src/hr/fer/zemris/java/custom/scripting/exec/SmartScriptEngine.java:305-349 | Fails exactly when an element fails. Otherwise the output grows by the header, if not yet sent, and by the final stack's texts bottom-first |
| Engine.Step | src/hr/fer/zemris/java/custom/scripting/exec/SmartScriptEngine.java:309-336 | One element of an echo tag: it never writes, and it changes the context's MIME type only before the header went out |
| Engine.Evaluate | src/hr/fer/zemris/java/custom/scripting/exec/SmartScriptEngine.java:307-337 | The whole element list: the output and every header field but the MIME type stay as they were |
| Engine.VisitText | src/hr/fer/zemris/java/custom/scripting/exec/SmartScriptEngine.java:282-286 | A text node writes its escaped form, after the header if that is not out yet |
| Engine.VisitEcho | src/hr/fer/zemris/java/custom/scripting/exec/SmartScriptEngine.java:305-349 | An echo leaves the bindings alone and only extends the context |
| Engine.OpenLoop | src/hr/fer/zemris/java/custom/scripting/exec/SmartScriptEngine.java:289-295 | A null step fails at once. Otherwise it succeeds exactly when start and end parse. Then the start is pushed on the variable's stack and the context is untouched |
| Engine.MissingStepFails | src/hr/fer/zemris/java/custom/scripting/exec/SmartScriptEngine.java:291-292 | A 3-argument FOR fails as soon as it is visited, whatever its body |
| Engine.Compare | src/hr/fer/zemris/java/custom/scripting/exec/SmartScriptEngine.java:295 | The loop test is numCompare of the variable's top binding with the end, and it fails on an unbound name |
| Engine.Advance | src/hr/fer/zemris/java/custom/scripting/exec/SmartScriptEngine.java:299 | Increments the top binding by the step in place. No binding is pushed or popped, and other names are untouched |
| Engine.LoopExit | src/hr/fer/zemris/java/custom/scripting/exec/SmartScriptEngine.java:295 | A loop whose first test fails leaves the state as it was |
| Engine.TextPass | src/hr/fer/zemris/java/custom/scripting/exec/SmartScriptEngine.java:295-300 | One pass over a text body writes the escaped text and moves the variable on by the step |
| Engine.CountingLoop | src/hr/fer/zemris/java/custom/scripting/exec/SmartScriptEngine.java:295-300 | From a to e by a positive whole step k, the body text is written once per value a, a+k, … ≤ e. The variable ends at the first value past e |
| Engine.CountingFor | src/hr/fer/zemris/java/custom/scripting/exec/SmartScriptEngine.java:289-302 | A FOR x a e k over one text node writes the escaped text once per pass. It leaves x bound to its stop value, one binding higher than before, because the binding is never popped |
| Engine.StopValue | src/hr/fer/zemris/java/custom/scripting/exec/SmartScriptEngine.java:295-300 | The loop stops at a + passes · k, the first value past e and at most e + k |
| Engine.WholeTest | src/hr/fer/zemris/java/custom/scripting/exec/SmartScriptEngine.java:295 | On whole numbers the test passes exactly while the variable is at most the end |
| Engine.ZeroStepDiverges | src/hr/fer/zemris/java/custom/scripting/exec/SmartScriptEngine.java:295-300 | With a step of 0 a loop whose test passes never stops |
| Engine.TextVisit | src/hr/fer/zemris/java/custom/scripting/exec/SmartScriptEngine.java:282-286 | Visiting a text node is one write of `TextNode.toString`, the escaped text |
| Engine.TextChildren | src/hr/fer/zemris/java/custom/scripting/exec/SmartScriptEngine.java:407-411 | Text children are visited in index order, and each writes its escaped text |
| Engine.TextDocument | src/hr/fer/zemris/java/custom/scripting/exec/SmartScriptEngine.java:407-411 | A document of text nodes sends the header and then the escaped texts in order |
| Engine.ExecuteExtends | src/hr/fer/zemris/java/custom/scripting/exec/SmartScriptEngine.java:433-435 | A script run only appends to the output, keeps the request parameters and status, and changes the MIME type only before the header is out |
| Engine.NodeKeeps | src/hr/fer/zemris/java/custom/scripting/exec/SmartScriptEngine.java:289-302 | Bindings are never popped, so a walk only grows every stack, and the context is only extended |
| Engine.SmartSound | src/hr/fer/zemris/java/custom/scripting/exec/SmartScriptEngine.java:280-350 | Each of the engine's visits keeps the state in that sense |
| Engine.NodeFuel | src/hr/fer/zemris/java/custom/scripting/exec/SmartScriptEngine.java:282-302 | A walk that does not run out of fuel gives the same result with any larger fuel |
| Engine.EvalNode | src/hr/fer/zemris/java/custom/scripting/exec/SmartScriptEngine.java:279-412 | Definition of the walk: accept dispatches to the visitor. Engine.NodeKeeps and Engine.NodeFuel state what it keeps and that fuel only cuts it short |
| Engine.EvalChildren | src/hr/fer/zemris/java/custom/scripting/exec/SmartScriptEngine.java:407-411 | Definition: the children in order. Engine.ChildrenKeeps and Engine.ChildrenFuel state its properties |
| Engine.RunLoop | src/hr/fer/zemris/java/custom/scripting/exec/SmartScriptEngine.java:289-303 | Definition of the loop: test, body, step, until the test fails. Engine.LoopKeeps, Engine.LoopFuel and Engine.CountingLoop state its properties |
| Engine.Pass | src/hr/fer/zemris/java/custom/scripting/exec/SmartScriptEngine.java:297-301 | Definition of one pass of the loop body followed by the step. Engine.TextPass states what a pass over text writes |
| Engine.Smart | src/hr/fer/zemris/java/custom/scripting/exec/SmartScriptEngine.java:279-412 | Definition of SmartScriptEngine's visitor. Engine.SmartSound states that it keeps the state |
| Engine.Execute | src/hr/fer/zemris/java/custom/scripting/exec/SmartScriptEngine.java:433-435 | Definition: the document walked with SmartScriptEngine's visitor. Engine.ExecuteExtends states what a run may change |
| Engine.ChildrenKeeps | src/hr/fer/zemris/java/custom/scripting/exec/SmartScriptEngine.java:407-411 | With a visitor that keeps the state, walking the children keeps it |
| Engine.LoopKeeps | src/hr/fer/zemris/java/custom/scripting/exec/SmartScriptEngine.java:289-303 | With a visitor that keeps the state, a loop keeps it |
| RequestContexts.NewContext | src/hr/fer/zemris/java/webserver/RequestContext.java:198-210 | A null stream is refused. The defaults are UTF-8, 200 OK, text/html and no length. The maps and cookies are the ones given, and no temporary parameters or header yet |
| RequestContexts.SetEncoding | src/hr/fer/zemris/java/webserver/RequestContext.java:220-226 | Refused exactly once the header is out. Otherwise only the encoding changes |
| RequestContexts.SetStatusCode | src/hr/fer/zemris/java/webserver/RequestContext.java:236-242 | Refused exactly once the header is out. Otherwise only the code changes |
| RequestContexts.SetStatusText | src/hr/fer/zemris/java/webserver/RequestContext.java:252-258 | Refused exactly once the header is out. Otherwise only the text changes |
| RequestContexts.SetMimeType | src/hr/fer/zemris/java/webserver/RequestContext.java:268-274 | Refused exactly once the header is out. Otherwise only the type changes |
| RequestContexts.SetContentLength | src/hr/fer/zemris/java/webserver/RequestContext.java:283-290 | Refused exactly for a negative length, header or not. Otherwise only the length changes |
| RequestContexts.AddCookie | src/hr/fer/zemris/java/webserver/RequestContext.java:393-397 | A null cookie is refused. Otherwise it goes after the others |
| RequestContexts.GetParameter | src/hr/fer/zemris/java/webserver/RequestContext.java:298-300 | The request map's value, or null for an absent name |
| RequestContexts.GetPersistentParameter | src/hr/fer/zemris/java/webserver/RequestContext.java:317-319 | The persistent map's value, or null for an absent name |
| RequestContexts.GetTemporaryParameter | src/hr/fer/zemris/java/webserver/RequestContext.java:355-357 | The temporary map's value, or null for an absent name |
| RequestContexts.SetPersistentParameter | src/hr/fer/zemris/java/webserver/RequestContext.java:336-338 | Get after set returns the value, and other names read as before |
| RequestContexts.RemovePersistentParameter | src/hr/fer/zemris/java/webserver/RequestContext.java:345-347 | Get after remove returns null, and other names read as before |
| RequestContexts.SetTemporaryParameter | src/hr/fer/zemris/java/webserver/RequestContext.java:374-376 | Get after set returns the value, and other names read as before |
| RequestContexts.RemoveTemporaryParameter | src/hr/fer/zemris/java/webserver/RequestContext.java:383-385 | Get after remove returns null, and other names read as before |
| RequestContexts.Write | src/hr/fer/zemris/java/webserver/RequestContext.java:425-434 | A null text is refused. The output becomes the old output, then the header if it has not been sent, then the text; the header is marked sent. Nothing else changes |
| RequestContexts.CookieLineSafe | src/hr/fer/zemris/java/webserver/RequestContext.java:452-465 | A cookie line built from fields without line breaks is one header line |
| RequestContexts.HeaderLinesSafe | src/hr/fer/zemris/java/webserver/RequestContext.java:439-468 | With fields free of line breaks, every header line is non-empty and unbroken and starts with no blank |
| RequestContexts.HeaderShape | src/hr/fer/zemris/java/webserver/RequestContext.java:442-468 | The header starts with the status line `HTTP/1.1 code text` and ends with an empty line |
| RequestContexts.HeaderLinesShape | src/hr/fer/zemris/java/webserver/RequestContext.java:439-468 | For every context: the status line, the content type, a Content-Length line exactly when a length was set, then one Set-Cookie line per cookie in the order they were added |
| RequestContexts.StatusLine | src/hr/fer/zemris/java/webserver/RequestContext.java:442-443 | Definition: `HTTP/1.1`, the code and the text. RequestContexts.HeaderLinesShape places it first |
| RequestContexts.CookieLine | src/hr/fer/zemris/java/webserver/RequestContext.java:453-465 | Definition: name=value and the optional Domain, Path and Max-Age. RequestContexts.HeaderLinesShape places one per cookie |
| RequestContexts.Header | src/hr/fer/zemris/java/webserver/RequestContext.java:439-468 | Definition: the lines, each ending in CR LF, then an empty line. RequestContexts.HeaderShape states how it starts and ends |
| RequestContexts.WriteTwice | src/hr/fer/zemris/java/webserver/RequestContext.java:425-434 | Two writes send the header once, before both texts |
| RequestContexts.FrozenAfterWrite | tests/RequestContext/hr/fer/zemris/java/webserver/RequestContextTests.java:117-152 | After a write the encoding, status code, status text and MIME type setters all refuse, while setContentLength still works and writes nothing |
| RequestContexts.PlainTextHeader | tests/RequestContext/hr/fer/zemris/java/webserver/RequestContextTests.java:78-93 | A default context set to text/plain writes the exact header the test expects, then "Filip" |
| RequestContexts.CookieHeader | tests/RequestContext/hr/fer/zemris/java/webserver/RequestContextTests.java:96-114 | With a cookie and a length of 5, the header holds the Content-Length and Set-Cookie lines in that order, exactly as the test expects |
| HttpServer.NewSid | src/hr/fer/zemris/java/webserver/SmartHttpServer.java:569-576 | Twenty characters, each 'A' moved on by its draw, so all in 'A'..'Z' |
| HttpServer.ParamPair | src/hr/fer/zemris/java/webserver/SmartHttpServer.java:590-594 | A piece is accepted only as two non-empty parts around one `=` |
| HttpServer.StorePieces | src/hr/fer/zemris/java/webserver/SmartHttpServer.java:589-598 | True exactly when every piece is a pair. No name already stored is lost, and every name added comes from an accepted piece |
| HttpServer.ParseParameters | src/hr/fer/zemris/java/webserver/SmartHttpServer.java:584-599 | False and no change for null or empty input. For a non-empty query, true exactly when every `&`-piece is a pair |
| HttpServer.PairRoundTrip | src/hr/fer/zemris/java/webserver/SmartHttpServer.java:590-596 | name=value is read back as that name and value |
| HttpServer.QueryRoundTrip | src/hr/fer/zemris/java/webserver/SmartHttpServer.java:584-599 | A query written from safe pairs parses back into exactly those assignments, in order |
| HttpServer.TrailingAmpersand | src/hr/fer/zemris/java/webserver/SmartHttpServer.java:589 | A trailing `&` is harmless, because split drops the trailing empty piece |
| HttpServer.PartialStore | src/hr/fer/zemris/java/webserver/SmartHttpServer.java:589-598 | For any run of well-formed pairs followed by a malformed piece and anything after it, the answer is false and exactly those pairs are stored, in order; nothing after the malformed piece is stored |
| HttpServer.SplitTarget | src/hr/fer/zemris/java/webserver/SmartHttpServer.java:403-411 | The path and query split at the first `?`. With no `?` the path is the whole target and there is no query |
| HttpServer.CheckRequest | src/hr/fer/zemris/java/webserver/SmartHttpServer.java:384-423 | Accepted only for a first line of exactly three space-separated parts, GET, and HTTP/1.0 or HTTP/1.1. The path has no `?`, and parameters are only ever added. Every refusal is 400 |
| HttpServer.ReadTarget | src/hr/fer/zemris/java/webserver/SmartHttpServer.java:403-416 | A target with no `?` keeps the parameters. With a query it is accepted exactly when parseParameters accepts the query |
| HttpServer.AcceptPath | src/hr/fer/zemris/java/webserver/SmartHttpServer.java:384-423 | A GET of a plain path in a known version is accepted with the parameters unchanged |
| HttpServer.AcceptQuery | src/hr/fer/zemris/java/webserver/SmartHttpServer.java:403-423 | A GET with a query is accepted exactly when the query parses, and then with the parsed parameters |
| HttpServer.RefuseOthers | src/hr/fer/zemris/java/webserver/SmartHttpServer.java:418-423 | Any method but GET, or any other version, is a bad request |
| HttpServer.Scan | src/hr/fer/zemris/java/webserver/SmartHttpServer.java:635-666 | The kept bytes hold no CR, end in LF, and are never more than were read |
| HttpServer.Next | src/hr/fer/zemris/java/webserver/SmartHttpServer.java:648-664 | The head ends exactly at an LF that follows CR LF CR or a lone LF; any byte other than CR and LF returns to the plain state |
| HttpServer.ScanStep | src/hr/fer/zemris/java/webserver/SmartHttpServer.java:646-664 | One byte read moves the machine to the next state and keeps the byte unless it is a CR |
| HttpServer.ScanEnd | src/hr/fer/zemris/java/webserver/SmartHttpServer.java:657-658 | CR LF read right after a CR LF ends the head |
| HttpServer.Fold | src/hr/fer/zemris/java/webserver/SmartHttpServer.java:671-682 | The unfolding loop. The pending line is null exactly when no line was ever started, and non-empty lines stay non-empty |
| HttpServer.Unfold | src/hr/fer/zemris/java/webserver/SmartHttpServer.java:668-688 | Fails on a null pending line, which happens when there is no piece or the first is empty. Otherwise it gives at least one line, none of them empty |
| HttpServer.ReadRequest | src/hr/fer/zemris/java/webserver/SmartHttpServer.java:633-689 | End of stream before the head ends gives null. Otherwise the lines are non-empty and free of CR |
| HttpServer.ReadRoundTrip | src/hr/fer/zemris/java/webserver/SmartHttpServer.java:633-689 | Header lines sent with CR LF and closed by an empty line are read back as exactly those lines |
| HttpServer.HeaderReadBack | src/hr/fer/zemris/java/webserver/SmartHttpServer.java:633-689 | The header a RequestContext writes is read back by the server as its header lines |
| HttpServer.FoldedLine | src/hr/fer/zemris/java/webserver/SmartHttpServer.java:676-677 | A line starting with a space is glued to the line before it |
| HttpServer.LeadingContinuation | src/hr/fer/zemris/java/webserver/SmartHttpServer.java:676-677 | A continuation with no line before it is glued to the text "null" |
| HttpServer.EmptyHeadFails | src/hr/fer/zemris/java/webserver/SmartHttpServer.java:684-686 | An empty head (CR LF CR LF) gives no line, and the final isEmpty check dereferences null |
| JString.Trim | src/hr/fer/zemris/java/custom/scripting/lexer/SmartScriptLexer.java:60 | String.trim: the result starts and ends with no character ≤ space, is the input for a trim-stable input, and is empty for blank input |
| JString.TrimPadded | src/hr/fer/zemris/java/custom/scripting/lexer/SmartScriptLexer.java:60 | Trimming removes exactly the blank padding around a trim-stable word |
| JString.Split | src/hr/fer/zemris/java/webserver/SmartHttpServer.java:589 | String.split on one character: no field holds the separator, and trailing empty fields are dropped |
| JString.SplitJoin | src/hr/fer/zemris/java/webserver/SmartHttpServer.java:589-590 | Splitting undoes a join whose last field is not empty |
| JString.IndexOf | src/hr/fer/zemris/java/webserver/SmartHttpServer.java:403 | String.indexOf(char): the first position of the character, or -1 exactly when it is absent |
| JString.ToLower | src/hr/fer/zemris/java/custom/scripting/parser/SmartScriptParser.java:158 | toLowerCase on ASCII: same length, and only capital letters change, each to its small letter |
| JString.ParseInt32 | src/hr/fer/zemris/java/custom/scripting/parser/SmartScriptParser.java:279-286 | Integer.parseInt: an optional sign and digits, accepted only within the int range |
| JString.ParseDouble | src/hr/fer/zemris/java/custom/scripting/parser/SmartScriptParser.java:294-301 | Double.parseDouble after trimming: only a non-blank text has a value. JString.ExponentForm and JString.SuffixIgnored state what exponent and suffix forms read as |
| JString.ExponentForm | src/hr/fer/zemris/java/custom/scripting/parser/SmartScriptParser.java:294-301 | Decimal digits, `e` and an integer read as the digits' value times ten to that integer |
| JString.SuffixIgnored | src/hr/fer/zemris/java/custom/scripting/parser/SmartScriptParser.java:294-301 | A type suffix `f`, `F`, `d` or `D` after a decimal does not change its value |
| JString.FormatDouble | src/hr/fer/zemris/java/custom/scripting/exec/SmartScriptEngine.java:339-342 | A double's text always has a point, as Double.toString's does |
| JString.IntRoundTrip | src/hr/fer/zemris/java/custom/scripting/parser/SmartScriptParser.java:256-257 | An int printed and parsed back is the same int |
| JString.IntToString | src/hr/fer/zemris/java/custom/scripting/elems/ElementConstantInteger.java:26-29 | Definition: Integer.toString, a minus for negatives, then the digits with no leading zero. JString.IntRoundTrip states that Integer.parseInt reads it back as the same int, and JString.IntParsesAsDouble that Double.parseDouble does |
| JString.Replace | src/hr/fer/zemris/java/custom/scripting/nodes/TextNode.java:27 | String.replace, left to right and without overlaps: a text that does not contain the pattern comes back unchanged. Nodes.TextToStringLength states that replacing `{$` adds one character per occurrence |
| JString.IntParsesAsDouble | src/hr/fer/zemris/java/custom/scripting/exec/ValueWrapper.java:222-232 | The decimal form of an int parses as a double of the same value |

## Left out

- Engine.Pop: the evaluation stack pops like ObjectStack with a corrected `remove(int)`. Java's pop overruns once the 16-slot backing array is exactly full; see Findings. The corrected stack also serves the parser's scopes and every member below.
- Engine.Binary: pops the corrected stack, so a 16-entry stack succeeds where Java throws. Division by zero is an error, as under Engine.Apply.
- Engine.OperandOrder: holds on every stack of two or more entries, 16 included, because the stack is the corrected one.
- Engine.StackFunction: `dup` and `swap` pop the corrected stack. `sin` and `decfmt` give NotModelled, because they need Math.sin and DecimalFormat, which have no real-number counterpart here.
- Engine.SwapSwap: holds on 16-entry stacks too, because the stack is the corrected one.
- Engine.ParamGet: pops the corrected stack.
- Engine.ParamSet: pops the corrected stack.
- Engine.ParamDel: pops the corrected stack.
- Engine.ParamSetGet: ranges over stacks that may reach 16 entries, where Java's pop would throw.
- Engine.ParamDelGet: ranges over stacks that may reach 16 entries, where Java's pop would throw.
- Engine.SetMime: pops the corrected stack.
- Engine.DrainStack: drains the corrected stack, so 16 entries drain where Java throws on the first pop.
- Engine.Echo: fails exactly when an element fails; the drain never fails, because the stack is the corrected one.
- Parser.CloseScope: closes a scope on the corrected stack, so the document plus 15 loops can be closed where Java's pop throws.
- Parser.ResolveTag: END pops the corrected stack.
- Parser.Parse: the scopes sit on the corrected stack, so 15 nested loops parse where Java throws.
- RoundTrip.EndResolves: holds for every depth, 16 scopes included, because the stack is the corrected one.
- TreeRoundTrip.DocumentRoundTrip: covers documents nested 15 deep, which Java cannot re-parse because its pop overruns.
- Engine.Apply: numbers are exact reals, not IEEE doubles, so there is no rounding, overflow or NaN. Division by zero is the model's DivisionByZero error where Java's double division yields an infinity or NaN.
- Engine.DivideByZero: states the model's DivisionByZero; Java pushes an infinity or NaN instead.
- Engine.Number: reads the finite values Double.parseDouble accepts. `NaN` and `Infinity` have no real value and give NotANumber, where Java gets NaN or an infinity.
- Engine.Texts: a non-whole number prints through JString.FormatDouble in plain decimal notation with at most 16 fraction digits, not through Double.toString's shortest-repr and `E` notation.
- ValueWrappers.Operand: same reading as Engine.Number: no NaN or infinities, and exact reals instead of doubles.
- ValueWrappers.NewWrapper: same reading as Engine.Number: `NaN` and `Infinity` are refused where Java stores them.
- JString.ParseDouble: reads exact reals, with no rounding to the nearest double and no overflow to an infinity. NaN and the infinities are recognised by JString.NonFiniteDouble but have no value.
- JString.ParseInt32: digits are ASCII `0`-`9`, while Integer.parseInt also accepts other Unicode decimal digits; the model has no Unicode character database.
- Parser.IsVariable: letters and digits are ASCII, while Character.isLetter and Character.isDigit also accept other Unicode letters and digits; the model has no Unicode character database.
- Parser.IsFunction: inherits the ASCII letters of Parser.IsVariable.
- Parser.ChunkScan: whitespace is Character.isWhitespace on ASCII (HT, LF, VT, FF, CR, FS, GS, RS, US and space); the Unicode space separators and U+2028/U+2029, which Character.isWhitespace also accepts, do not split chunks here.
- Parser.GetTagChunks: the same ASCII-only Character.isWhitespace as Parser.ChunkScan.
- Nodes.ForLoopShape: System.lineSeparator() is fixed as `\n`.
- Parser.StringValue: `\r\n` in a string literal becomes the fixed line separator `\n`.
- Collections.AddAll: the collection added is a separate value, so adding a collection to itself just doubles its contents. In Java, `c.addAll(c)` on a non-empty ArrayIndexedCollection never ends, because forEach re-reads `size` as add grows it; that case is not represented.
- RequestContexts.NewContext: the parameter maps and the cookie list cannot be null, while Java's constructor accepts null for all three. With a null cookie list the header is still generated (no cookie lines), but addRCCookie throws NullPointerException; with a null map getParameter or getPersistentParameter throws it. Null header strings (such as setMimeType(null), which makes the next write throw) are not representable either.
- Engine.Execute: a run that fails returns only the error. In Java, the header and every text written before the exception have already gone out on the stream, and parameter changes have already been made; that partial state is not represented. Engine.ExecuteExtends speaks only of runs that complete.
- Engine.EvalNode: the same as Engine.Execute: a failure anywhere in the walk drops the state reached before it.
- ValueWrappers.Divide: "the result times the divisor is the old value" holds over exact reals; a Java double quotient is rounded and can overflow to Infinity (1e308 / 1e-5), where it fails.
- ValueWrappers.IncrementDecrement: holds over exact reals; with Java's rounded doubles, 0.1 incremented and then decremented by 0.2 gives 0.10000000000000003.
- ValueWrappers.MultiplyDivide: holds over exact reals; a Java double product is rounded and can overflow to Infinity (1e308 times 10), so dividing back need not restore the value.
- Engine fuel: the walk is bounded by fuel and fails with OutOfFuel when the fuel is spent. This is a model artefact; a Java loop that never ends has no result here.
- RequestContext: character-set encoding of the output, the IOException paths of the output stream, and checkSession are not modelled. Output is text, appended as it is written.
- Server: sockets, threads, the worker pool, configuration files, static files, sendError and the random draw in getNewSID are not modelled. The SID draw is a parameter of HttpServer.NewSid.

## Findings

| source | as written | input that shows it | evidently intended | confidence | as-written member | corrected member |
|---|---|---|---|---|---|---|
| src/hr/fer/zemris/java/custom/collections/ArrayIndexedCollection.java:194-204 | `remove(int)` shifts with `elements[i] = elements[i+1]` for `i` up to `size - 1`, so its last read is `elements[size]` | a collection of capacity 16 holding 16 values, `remove(0)` | the shift stops at the last stored value and the freed slot is nulled, so any valid index can be removed | not executed | Collections.RemoveAt | Collections.RemoveAtFixed |
| src/hr/fer/zemris/java/custom/collections/ObjectStack.java:60-69 | `pop` is `get(size - 1)` then `remove(size - 1)`, which reads past a full array | sixteen pushes onto a new stack, then `pop()` | pop returns the top of any non-empty stack | not executed | Collections.SixteenPushesThenPop | Collections.PushThenPop |
