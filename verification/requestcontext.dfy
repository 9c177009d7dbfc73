/** The per-request state a worker or a script writes its answer through: the
    header fields, three parameter maps, the cookies to set, and the stream the
    header and the body go to. The header is produced once, just before the
    first write, and the header fields are frozen from then on. */
module RequestContexts {
  import opened Wrappers
  import opened JString

  const CRLF: string := "\r\n"

  /** A cookie to send back; the absent parts are left out of its line. */
  datatype Cookie = Cookie(name: string, value: string, maxAge: Option<int>, domain: Option<string>, path: Option<string>)

  /** `output` is everything written to the stream so far, header included. */
  datatype RequestContext = RequestContext(
    encoding: string,
    statusCode: int,
    statusText: string,
    mimeType: string,
    contentLength: int,
    parameters: map<string, string>,
    temporaryParameters: map<string, string>,
    persistentParameters: map<string, string>,
    cookies: seq<Cookie>,
    headerGenerated: bool,
    output: string)

  datatype ContextError =
    | NullPointer       // a null stream, cookie or text
    | HeaderGenerated   // a header field set after the header went out
    | IllegalArgument   // a negative content length

  /** The constructor: a non-null stream, the given maps and cookies, no
      temporary parameters, and the default header fields (UTF-8, 200 OK,
      text/html, no content length). */
  function NewContext(stream: Option<string>, parameters: map<string, string>,
                      persistentParameters: map<string, string>, cookies: seq<Cookie>): (r: Result<RequestContext, ContextError>)
    ensures r.Err? <==> stream.None?
    ensures r.Err? ==> r.error == NullPointer
    ensures r.Ok? ==> !r.value.headerGenerated && r.value.output == stream.value
    ensures r.Ok? ==> r.value.parameters == parameters && r.value.persistentParameters == persistentParameters
    ensures r.Ok? ==> r.value.temporaryParameters == map[] && r.value.cookies == cookies
    ensures r.Ok? ==> r.value.encoding == "UTF-8" && r.value.mimeType == "text/html"
    ensures r.Ok? ==> r.value.statusCode == 200 && r.value.statusText == "OK" && r.value.contentLength == -1
  {
    match stream
    case None => Err(NullPointer)
    case Some(s) =>
      Ok(RequestContext("UTF-8", 200, "OK", "text/html", -1, parameters, map[], persistentParameters,
                        cookies, false, s))
  }

  // ---------------------------------------------------------------------------
  // Header fields

  function SetEncoding(rc: RequestContext, encoding: string): (r: Result<RequestContext, ContextError>)
    ensures r.Err? <==> rc.headerGenerated
    ensures r.Err? ==> r.error == HeaderGenerated
    ensures r.Ok? ==> r.value.encoding == encoding && r.value.(encoding := rc.encoding) == rc
  {
    if rc.headerGenerated then Err(HeaderGenerated) else Ok(rc.(encoding := encoding))
  }

  function SetStatusCode(rc: RequestContext, code: int): (r: Result<RequestContext, ContextError>)
    ensures r.Err? <==> rc.headerGenerated
    ensures r.Err? ==> r.error == HeaderGenerated
    ensures r.Ok? ==> r.value.statusCode == code && r.value.(statusCode := rc.statusCode) == rc
  {
    if rc.headerGenerated then Err(HeaderGenerated) else Ok(rc.(statusCode := code))
  }

  function SetStatusText(rc: RequestContext, text: string): (r: Result<RequestContext, ContextError>)
    ensures r.Err? <==> rc.headerGenerated
    ensures r.Err? ==> r.error == HeaderGenerated
    ensures r.Ok? ==> r.value.statusText == text && r.value.(statusText := rc.statusText) == rc
  {
    if rc.headerGenerated then Err(HeaderGenerated) else Ok(rc.(statusText := text))
  }

  function SetMimeType(rc: RequestContext, mime: string): (r: Result<RequestContext, ContextError>)
    ensures r.Err? <==> rc.headerGenerated
    ensures r.Err? ==> r.error == HeaderGenerated
    ensures r.Ok? ==> r.value.mimeType == mime && r.value.(mimeType := rc.mimeType) == rc
  {
    if rc.headerGenerated then Err(HeaderGenerated) else Ok(rc.(mimeType := mime))
  }

  /** setContentLength refuses a negative length, and, unlike the other header
      fields, is not guarded against a header already sent. */
  function SetContentLength(rc: RequestContext, length: int): (r: Result<RequestContext, ContextError>)
    ensures r.Err? <==> length < 0
    ensures r.Err? ==> r.error == IllegalArgument
    ensures r.Ok? ==> r.value.contentLength == length && r.value.(contentLength := rc.contentLength) == rc
  {
    if length < 0 then Err(IllegalArgument) else Ok(rc.(contentLength := length))
  }

  /** addRCCookie: a null cookie is refused; otherwise it goes after the others. */
  function AddCookie(rc: RequestContext, c: Option<Cookie>): (r: Result<RequestContext, ContextError>)
    ensures r.Err? <==> c.None?
    ensures r.Err? ==> r.error == NullPointer
    ensures r.Ok? ==> r.value.cookies == rc.cookies + [c.value] && r.value.(cookies := rc.cookies) == rc
  {
    match c
    case None => Err(NullPointer)
    case Some(cookie) => Ok(rc.(cookies := rc.cookies + [cookie]))
  }

  // ---------------------------------------------------------------------------
  // Parameters

  function Lookup(m: map<string, string>, name: string): Option<string> {
    if name in m then Some(m[name]) else None
  }

  function GetParameter(rc: RequestContext, name: string): (r: Option<string>)
    ensures r.Some? <==> name in rc.parameters
    ensures r.Some? ==> r.value == rc.parameters[name]
  {
    Lookup(rc.parameters, name)
  }

  function GetPersistentParameter(rc: RequestContext, name: string): (r: Option<string>)
    ensures r.Some? <==> name in rc.persistentParameters
    ensures r.Some? ==> r.value == rc.persistentParameters[name]
  {
    Lookup(rc.persistentParameters, name)
  }

  function GetTemporaryParameter(rc: RequestContext, name: string): (r: Option<string>)
    ensures r.Some? <==> name in rc.temporaryParameters
    ensures r.Some? ==> r.value == rc.temporaryParameters[name]
  {
    Lookup(rc.temporaryParameters, name)
  }

  function SetPersistentParameter(rc: RequestContext, name: string, value: string): (r: RequestContext)
    ensures GetPersistentParameter(r, name) == Some(value)
    ensures forall k :: k != name ==> GetPersistentParameter(r, k) == GetPersistentParameter(rc, k)
    ensures r.(persistentParameters := rc.persistentParameters) == rc
  {
    rc.(persistentParameters := rc.persistentParameters[name := value])
  }

  function RemovePersistentParameter(rc: RequestContext, name: string): (r: RequestContext)
    ensures GetPersistentParameter(r, name) == None
    ensures forall k :: k != name ==> GetPersistentParameter(r, k) == GetPersistentParameter(rc, k)
    ensures r.(persistentParameters := rc.persistentParameters) == rc
  {
    rc.(persistentParameters := rc.persistentParameters - {name})
  }

  function SetTemporaryParameter(rc: RequestContext, name: string, value: string): (r: RequestContext)
    ensures GetTemporaryParameter(r, name) == Some(value)
    ensures forall k :: k != name ==> GetTemporaryParameter(r, k) == GetTemporaryParameter(rc, k)
    ensures r.(temporaryParameters := rc.temporaryParameters) == rc
  {
    rc.(temporaryParameters := rc.temporaryParameters[name := value])
  }

  function RemoveTemporaryParameter(rc: RequestContext, name: string): (r: RequestContext)
    ensures GetTemporaryParameter(r, name) == None
    ensures forall k :: k != name ==> GetTemporaryParameter(r, k) == GetTemporaryParameter(rc, k)
    ensures r.(temporaryParameters := rc.temporaryParameters) == rc
  {
    rc.(temporaryParameters := rc.temporaryParameters - {name})
  }

  // ---------------------------------------------------------------------------
  // The header

  function StatusLine(rc: RequestContext): string {
    "HTTP/1.1 " + IntToString(rc.statusCode) + " " + rc.statusText
  }

  /** A textual type names its character set. */
  function ContentTypeLine(rc: RequestContext): string {
    "Content-Type: " + rc.mimeType + (if StartsWith(rc.mimeType, "text/") then "; charset= " + rc.encoding else "")
  }

  /** A content length goes out only once one was set. */
  function ContentLengthLines(rc: RequestContext): seq<string> {
    if rc.contentLength > -1 then ["Content-Length: " + IntToString(rc.contentLength)] else []
  }

  function CookieLine(c: Cookie): string {
    "Set-Cookie: " + c.name + "=" + c.value
      + (match c.domain case Some(d) => "; Domain=" + d case None => "")
      + (match c.path case Some(p) => "; Path=" + p case None => "")
      + (match c.maxAge case Some(a) => "; Max-Age=" + IntToString(a) case None => "")
  }

  function CookieLines(cs: seq<Cookie>): (r: seq<string>)
    ensures |r| == |cs|
    ensures forall i :: 0 <= i < |cs| ==> r[i] == CookieLine(cs[i])
  {
    if |cs| == 0 then [] else [CookieLine(cs[0])] + CookieLines(cs[1..])
  }

  /** The header's lines in the order they are sent. */
  function HeaderLines(rc: RequestContext): seq<string> {
    [StatusLine(rc), ContentTypeLine(rc)] + ContentLengthLines(rc) + CookieLines(rc.cookies)
  }

  /** Each line followed by CR LF. */
  function Lines(ls: seq<string>): string {
    if |ls| == 0 then "" else ls[0] + CRLF + Lines(ls[1..])
  }

  /** The header: its lines, then an empty line. */
  function Header(rc: RequestContext): string {
    Lines(HeaderLines(rc)) + CRLF
  }

  /** write: the first write sends the header first; a null text is refused. */
  function Write(rc: RequestContext, text: Option<string>): (r: Result<RequestContext, ContextError>)
    ensures r.Err? <==> text.None?
    ensures r.Err? ==> r.error == NullPointer
    ensures r.Ok? ==> r.value.headerGenerated
    ensures r.Ok? ==> r.value.output == rc.output + (if rc.headerGenerated then "" else Header(rc)) + text.value
    ensures r.Ok? ==> StartsWith(r.value.output, rc.output) && EndsWith(r.value.output, text.value)
    ensures r.Ok? && rc.headerGenerated ==> |r.value.output| == |rc.output| + |text.value|
    ensures r.Ok? && !rc.headerGenerated ==> |r.value.output| == |rc.output| + |Header(rc)| + |text.value|
    ensures r.Ok? ==> r.value.(output := rc.output, headerGenerated := rc.headerGenerated) == rc
  {
    match text
    case None => Err(NullPointer)
    case Some(t) =>
      var head := if rc.headerGenerated then "" else Header(rc);
      var out := rc.output + head + t;
      assert out[..|rc.output|] == rc.output;
      assert out[|out| - |t|..] == t;
      Ok(rc.(output := out, headerGenerated := true))
  }

  // ---------------------------------------------------------------------------
  // Properties

  /** A line is safe inside a header when it holds no line break, and does not
      start with a blank that a reader would take for a folded continuation. */
  predicate HeaderSafe(l: string) {
    |l| > 0 && '\r' !in l && '\n' !in l && l[0] != ' ' && l[0] != '\t'
  }

  predicate NoBreak(s: string) {
    '\r' !in s && '\n' !in s
  }

  /** The fields the header is made of hold no line break. */
  predicate PlainFields(rc: RequestContext) {
    NoBreak(rc.statusText) && NoBreak(rc.mimeType) && NoBreak(rc.encoding)
    && forall c :: c in rc.cookies ==> PlainCookie(c)
  }

  predicate PlainCookie(c: Cookie) {
    NoBreak(c.name) && NoBreak(c.value)
    && (c.domain.Some? ==> NoBreak(c.domain.value)) && (c.path.Some? ==> NoBreak(c.path.value))
  }

  /** Decimal text holds no line break. */
  lemma DigitsNoBreak(i: int)
    ensures NoBreak(IntToString(i))
  {
    var n: nat := if i < 0 then -i else i;
    var d := NatToString(n);
    assert forall k :: 0 <= k < |d| ==> IsDigit(d[k]);
    if i < 0 {
      assert IntToString(i) == "-" + d;
    }
  }

  lemma ConcatNoBreak(a: string, b: string)
    requires NoBreak(a) && NoBreak(b)
    ensures NoBreak(a + b)
  {
  }

  /** `l` is safe when it starts with a letter and holds no line break. */
  lemma SafeByLetter(l: string)
    requires |l| > 0 && IsLetter(l[0]) && NoBreak(l)
    ensures HeaderSafe(l)
  {
  }

  lemma CookieLineSafe(c: Cookie)
    requires PlainCookie(c)
    ensures HeaderSafe(CookieLine(c))
  {
    var base := "Set-Cookie: " + c.name + "=" + c.value;
    ConcatNoBreak("Set-Cookie: ", c.name);
    ConcatNoBreak("Set-Cookie: " + c.name, "=");
    ConcatNoBreak("Set-Cookie: " + c.name + "=", c.value);
    var dom := match c.domain case Some(d) => "; Domain=" + d case None => "";
    if c.domain.Some? { ConcatNoBreak("; Domain=", c.domain.value); }
    var pth := match c.path case Some(p) => "; Path=" + p case None => "";
    if c.path.Some? { ConcatNoBreak("; Path=", c.path.value); }
    var age := match c.maxAge case Some(a) => "; Max-Age=" + IntToString(a) case None => "";
    if c.maxAge.Some? {
      DigitsNoBreak(c.maxAge.value);
      ConcatNoBreak("; Max-Age=", IntToString(c.maxAge.value));
    }
    ConcatNoBreak(base, dom);
    ConcatNoBreak(base + dom, pth);
    ConcatNoBreak(base + dom + pth, age);
    assert CookieLine(c) == base + dom + pth + age;
    assert CookieLine(c)[0] == 'S';
  }

  lemma StatusLineSafe(rc: RequestContext)
    requires NoBreak(rc.statusText)
    ensures HeaderSafe(StatusLine(rc))
  {
    DigitsNoBreak(rc.statusCode);
    var code := IntToString(rc.statusCode);
    assert StatusLine(rc) == "HTTP/1.1 " + (code + (" " + rc.statusText));
    assert StatusLine(rc)[0] == 'H';
  }

  lemma ContentTypeLineSafe(rc: RequestContext)
    requires NoBreak(rc.mimeType) && NoBreak(rc.encoding)
    ensures HeaderSafe(ContentTypeLine(rc))
  {
    var cs := if StartsWith(rc.mimeType, "text/") then "; charset= " + rc.encoding else "";
    assert ContentTypeLine(rc) == "Content-Type: " + (rc.mimeType + cs);
    assert ContentTypeLine(rc)[0] == 'C';
  }

  lemma ContentLengthSafe(rc: RequestContext)
    ensures forall l :: l in ContentLengthLines(rc) ==> HeaderSafe(l)
  {
    if rc.contentLength > -1 {
      DigitsNoBreak(rc.contentLength);
      var l := "Content-Length: " + IntToString(rc.contentLength);
      assert l[0] == 'C';
      assert ContentLengthLines(rc) == [l];
    }
  }

  /** With plain fields every header line is safe: none is empty, none holds a
      line break, none looks like a continuation. */
  lemma HeaderLinesSafe(rc: RequestContext)
    requires PlainFields(rc)
    ensures forall i :: 0 <= i < |HeaderLines(rc)| ==> HeaderSafe(HeaderLines(rc)[i])
  {
    StatusLineSafe(rc);
    ContentTypeLineSafe(rc);
    ContentLengthSafe(rc);
    var ls := HeaderLines(rc);
    var fixed := [StatusLine(rc), ContentTypeLine(rc)] + ContentLengthLines(rc);
    var cl := CookieLines(rc.cookies);
    assert ls == fixed + cl;
    forall i | 0 <= i < |ls|
      ensures HeaderSafe(ls[i])
    {
      if i >= |fixed| {
        var c := rc.cookies[i - |fixed|];
        assert ls[i] == cl[i - |fixed|] == CookieLine(c);
        assert c in rc.cookies;
        CookieLineSafe(c);
      } else if i >= 2 {
        assert ls[i] == fixed[i] == ContentLengthLines(rc)[i - 2];
        assert ls[i] in ContentLengthLines(rc);
      }
    }
  }

  /** The header's lines for every context: the status line, the content type,
      a Content-Length line exactly when a length was set, then one Set-Cookie
      line per cookie in the order they were added. */
  lemma HeaderLinesShape(rc: RequestContext)
    ensures var ls := HeaderLines(rc);
      var n := if rc.contentLength > -1 then 3 else 2;
      |ls| == n + |rc.cookies| && ls[0] == StatusLine(rc) && ls[1] == ContentTypeLine(rc)
      && (rc.contentLength > -1 ==> ls[2] == "Content-Length: " + IntToString(rc.contentLength))
      && forall k :: 0 <= k < |rc.cookies| ==> ls[n + k] == CookieLine(rc.cookies[k])
    ensures (exists i :: 0 <= i < |HeaderLines(rc)| && StartsWith(HeaderLines(rc)[i], "Content-Length: "))
      <==> rc.contentLength > -1
  {
    var ls := HeaderLines(rc);
    var n := if rc.contentLength > -1 then 3 else 2;
    var p := "Content-Length: ";
    var cl := CookieLines(rc.cookies);
    assert ls == [StatusLine(rc), ContentTypeLine(rc)] + ContentLengthLines(rc) + cl;
    assert forall k :: 0 <= k < |rc.cookies| ==> ls[n + k] == cl[k];
    if rc.contentLength > -1 {
      assert StartsWith(ls[2], p) by {
        assert ls[2] == p + IntToString(rc.contentLength);
        assert ls[2][..|p|] == p;
      }
    } else {
      forall i | 0 <= i < |ls|
        ensures !StartsWith(ls[i], p)
      {
        NotContentLength(rc, i);
      }
    }
  }

  /** Without a content length no header line starts like a Content-Length
      line: the others begin `HTTP/`, `Content-Type: ` or `Set-Cookie: `. */
  lemma NotContentLength(rc: RequestContext, i: nat)
    requires rc.contentLength <= -1 && i < |HeaderLines(rc)|
    ensures !StartsWith(HeaderLines(rc)[i], "Content-Length: ")
  {
    var line := HeaderLines(rc)[i];
    if i == 0 {
      assert line[0] == 'H';
    } else if i == 1 {
      assert line[8] == 'T';
    } else {
      assert line == CookieLine(rc.cookies[i - 2]);
      assert line[0] == 'S';
    }
  }

  /** A header always starts with the status line and ends with an empty line. */
  lemma HeaderShape(rc: RequestContext)
    ensures StartsWith(Header(rc), "HTTP/1.1 " + IntToString(rc.statusCode) + " " + rc.statusText + CRLF)
    ensures EndsWith(Header(rc), CRLF + CRLF)
  {
    var ls := HeaderLines(rc);
    var first := StatusLine(rc) + CRLF;
    assert Lines(ls) == first + Lines(ls[1..]);
    assert Header(rc) == first + (Lines(ls[1..]) + CRLF);
    assert Header(rc)[..|first|] == first;
    LinesEnd(ls);
    var h := Lines(ls);
    assert h[|h| - 2..] == CRLF;
    assert Header(rc)[|Header(rc)| - 4..] == h[|h| - 2..] + CRLF;
  }

  /** A non-empty run of lines ends in CR LF. */
  lemma {:induction false} LinesEnd(ls: seq<string>)
    requires |ls| > 0
    ensures |Lines(ls)| >= 2 && Lines(ls)[|Lines(ls)| - 2..] == CRLF
  {
    if |ls| > 1 {
      LinesEnd(ls[1..]);
      var t := Lines(ls[1..]);
      assert Lines(ls) == ls[0] + CRLF + t;
      assert Lines(ls)[|Lines(ls)| - 2..] == t[|t| - 2..];
    } else {
      assert Lines(ls) == ls[0] + CRLF;
    }
  }

  /** The header goes out with the first write only: two writes send the header
      once, then both texts. */
  lemma WriteTwice(rc: RequestContext, a: string, b: string)
    requires !rc.headerGenerated
    ensures Write(rc, Some(a)).Ok?
    ensures Write(Write(rc, Some(a)).value, Some(b)).Ok?
    ensures Write(Write(rc, Some(a)).value, Some(b)).value.output == rc.output + Header(rc) + a + b
  {
  }

  /** Once something has been written, encoding, status and type are frozen,
      while the content length can still be changed, to no effect on what was
      sent. */
  lemma FrozenAfterWrite(rc: RequestContext, t: string, n: nat)
    ensures Write(rc, Some(t)).Ok?
    ensures var w := Write(rc, Some(t)).value;
      SetEncoding(w, "UTF-16") == Err(HeaderGenerated)
      && SetStatusCode(w, 1950) == Err(HeaderGenerated)
      && SetStatusText(w, "something") == Err(HeaderGenerated)
      && SetMimeType(w, "text/html") == Err(HeaderGenerated)
      && SetContentLength(w, n).Ok?
      && SetContentLength(w, n).value.output == w.output
  {
  }

  /** The default context with a mime type of text/plain writes the header the
      tests expect in front of the text. */
  lemma PlainTextHeader(rc: RequestContext, m: RequestContext, w: RequestContext)
    requires NewContext(Some(""), map[], map[], []) == Ok(rc)
    requires SetMimeType(rc, "text/plain") == Ok(m)
    requires Write(m, Some("Filip")) == Ok(w)
    ensures w.output == "HTTP/1.1 200 OK" + CRLF + "Content-Type: text/plain; charset= UTF-8" + CRLF + CRLF + "Filip"
  {
    PlainTextLines(m);
    TwoLines("HTTP/1.1 200 OK", "Content-Type: text/plain; charset= UTF-8");
    assert w.output == "" + Header(m) + "Filip";
  }

  /** The status and type lines of a 200 OK text/plain context in UTF-8. */
  lemma PlainTextLines(m: RequestContext)
    requires m.statusCode == 200 && m.statusText == "OK"
    requires m.mimeType == "text/plain" && m.encoding == "UTF-8"
    ensures StatusLine(m) == "HTTP/1.1 200 OK"
    ensures ContentTypeLine(m) == "Content-Type: text/plain; charset= UTF-8"
    ensures m.contentLength == -1 && m.cookies == [] ==>
      HeaderLines(m) == ["HTTP/1.1 200 OK", "Content-Type: text/plain; charset= UTF-8"]
  {
    StatusOk(m);
    assert StartsWith(m.mimeType, "text/") by {
      assert m.mimeType[..5] == "text/";
    }
  }

  lemma TwoLines(a: string, b: string)
    ensures Lines([a, b]) == a + CRLF + b + CRLF
  {
    OneLine(b);
    assert [a, b][1..] == [b];
    assert Lines([a, b]) == a + CRLF + (b + CRLF);
  }

  lemma OneLine(a: string)
    ensures Lines([a]) == a + CRLF
  {
    assert [a][1..] == [];
    assert Lines([a]) == a + CRLF + "";
  }

  /** With a cookie for localhost and a length of 5, the header carries the
      length and the cookie line the tests expect. */
  lemma CookieHeader(rc: RequestContext, k: RequestContext, t: RequestContext, m: RequestContext, w: RequestContext)
    requires NewContext(Some(""), map[], map[], []) == Ok(rc)
    requires AddCookie(rc, Some(Cookie("Filip", "ja", None, Some("localhost"), Some("/")))) == Ok(k)
    requires SetMimeType(k, "text/plain") == Ok(t)
    requires SetContentLength(t, 5) == Ok(m)
    requires Write(m, Some("Filip")) == Ok(w)
    ensures w.output == "HTTP/1.1 200 OK" + CRLF + "Content-Type: text/plain; charset= UTF-8" + CRLF
      + "Content-Length: 5" + CRLF + "Set-Cookie: Filip=ja; Domain=localhost; Path=/" + CRLF + CRLF + "Filip"
  {
    CookieContextLines(rc, k, t, m);
    FirstWrite(m, w, "HTTP/1.1 200 OK", "Content-Type: text/plain; charset= UTF-8", "Content-Length: 5",
      "Set-Cookie: Filip=ja; Domain=localhost; Path=/", "Filip");
  }

  /** The first write into an empty output: four header lines, the blank
      line, then the text. */
  lemma FirstWrite(m: RequestContext, w: RequestContext, a: string, b: string, c: string, d: string, text: string)
    requires m.output == "" && !m.headerGenerated && HeaderLines(m) == [a, b] + [c] + [d]
    requires Write(m, Some(text)) == Ok(w)
    ensures w.output == a + CRLF + b + CRLF + c + CRLF + d + CRLF + CRLF + text
  {
    FourLines(a, b, c, d);
    assert w.output == "" + Header(m) + text;
  }

  /** The header lines of that context, before anything is written. */
  lemma CookieContextLines(rc: RequestContext, k: RequestContext, t: RequestContext, m: RequestContext)
    requires NewContext(Some(""), map[], map[], []) == Ok(rc)
    requires AddCookie(rc, Some(Cookie("Filip", "ja", None, Some("localhost"), Some("/")))) == Ok(k)
    requires SetMimeType(k, "text/plain") == Ok(t)
    requires SetContentLength(t, 5) == Ok(m)
    ensures m.output == "" && !m.headerGenerated
    ensures HeaderLines(m) == ["HTTP/1.1 200 OK", "Content-Type: text/plain; charset= UTF-8"]
      + ["Content-Length: 5"] + ["Set-Cookie: Filip=ja; Domain=localhost; Path=/"]
  {
    var c := Cookie("Filip", "ja", None, Some("localhost"), Some("/"));
    PlainTextLines(m);
    LengthFive(m);
    FilipCookie();
    assert m.cookies == [c];
    assert CookieLines(m.cookies) == ["Set-Cookie: Filip=ja; Domain=localhost; Path=/"];
  }

  lemma LengthFive(m: RequestContext)
    requires m.contentLength == 5
    ensures ContentLengthLines(m) == ["Content-Length: 5"]
  {
    assert NatToString(5) == "5";
    assert IntToString(5) == "5";
    assert ContentLengthLines(m) == ["Content-Length: " + "5"];
    var l := "Content-Length: " + "5";
    assert |l| == 17 && forall i :: 0 <= i < 17 ==> l[i] == "Content-Length: 5"[i];
    assert l == "Content-Length: 5";
  }

  lemma FilipCookie()
    ensures CookieLine(Cookie("Filip", "ja", None, Some("localhost"), Some("/")))
      == "Set-Cookie: Filip=ja; Domain=localhost; Path=/"
  {
  }

  lemma FourLines(a: string, b: string, c: string, d: string)
    ensures Lines([a, b] + [c] + [d]) == a + CRLF + b + CRLF + c + CRLF + d + CRLF
  {
    var ls := [a, b] + [c] + [d];
    OneLine(d);
    assert [c, d][1..] == [d];
    assert Lines([c, d]) == c + CRLF + (d + CRLF);
    assert [b, c, d][1..] == [c, d];
    assert Lines([b, c, d]) == b + CRLF + (c + CRLF + d + CRLF);
    assert ls == [a, b, c, d] && ls[1..] == [b, c, d];
    assert Lines(ls) == a + CRLF + (b + CRLF + c + CRLF + d + CRLF);
  }

  /** The status line of a context still at 200 OK. */
  lemma StatusOk(rc: RequestContext)
    requires rc.statusCode == 200 && rc.statusText == "OK"
    ensures StatusLine(rc) == "HTTP/1.1 200 OK"
  {
    assert NatToString(2) == "2";
    assert NatToString(20) == "20";
    assert NatToString(200) == "200";
  }
}
