/** The pure helpers of the server's client worker: reading the request head
    off the connection, unfolding it into header lines, checking the request
    line, parsing the query string, and drawing a session id. */
module HttpServer {
  import opened Wrappers
  import opened JString
  import opened RequestContexts

  // ---------------------------------------------------------------------------
  // Session ids

  const SidLength: nat := 20

  /** getNewSID: twenty letters, the i-th being 'A' moved on by the i-th draw
      of the random generator; the draws are given, each in 0..25. */
  method NewSid(draws: seq<nat>) returns (sid: string)
    requires |draws| >= SidLength
    requires forall i :: 0 <= i < SidLength ==> draws[i] < 26
    ensures |sid| == SidLength
    ensures forall i :: 0 <= i < |sid| ==> 'A' <= sid[i] <= 'Z'
    ensures forall i :: 0 <= i < |sid| ==> sid[i] as int == 'A' as int + draws[i]
  {
    sid := "";
    var i := 0;
    while i < SidLength
      invariant 0 <= i <= SidLength
      invariant |sid| == i
      invariant forall k :: 0 <= k < i ==> sid[k] as int == 'A' as int + draws[k]
    {
      sid := sid + [(65 + draws[i]) as char];
      i := i + 1;
    }
  }

  // ---------------------------------------------------------------------------
  // Query strings

  /** One `&`-separated piece as a name and a value: it must split on `=` into
      exactly two parts, neither empty. */
  function ParamPair(piece: string): (r: Option<(string, string)>)
    ensures r.Some? ==> r.value.0 != "" && r.value.1 != ""
    ensures r.Some? ==> '=' !in r.value.0 && '=' !in r.value.1
  {
    var parts := Split(piece, '=');
    if |parts| != 2 || parts[0] == "" || parts[1] == "" then None else Some((parts[0], parts[1]))
  }

  /** The pieces stored one after another; the first malformed piece stops the
      run with false, keeping what was stored before it. */
  function StorePieces(params: map<string, string>, pieces: seq<string>): (r: (bool, map<string, string>))
    ensures r.0 <==> forall i :: 0 <= i < |pieces| ==> ParamPair(pieces[i]).Some?
    ensures params.Keys <= r.1.Keys
    ensures forall k :: k in r.1 && k !in params ==> exists i :: 0 <= i < |pieces| && ParamPair(pieces[i]).Some? && ParamPair(pieces[i]).value.0 == k
    decreases |pieces|
  {
    if |pieces| == 0 then (true, params)
    else
      match ParamPair(pieces[0])
      case None => (false, params)
      case Some((k, v)) =>
        var r := StorePieces(params[k := v], pieces[1..]);
        assert forall i :: 0 <= i < |pieces| - 1 ==> pieces[1..][i] == pieces[i + 1];
        r
  }

  /** parseParameters: false for a null or empty string; otherwise every
      `&`-separated piece is stored as a name and a value. */
  function ParseParameters(params: map<string, string>, query: Option<string>): (r: (bool, map<string, string>))
    ensures query.None? || query.value == "" ==> r == (false, params)
    ensures params.Keys <= r.1.Keys
    ensures r.0 ==> query.Some? && forall piece :: piece in Split(query.value, '&') ==> ParamPair(piece).Some?
    ensures query.Some? && query.value != "" ==>
      (r.0 <==> forall piece :: piece in Split(query.value, '&') ==> ParamPair(piece).Some?)
  {
    match query
    case None => (false, params)
    case Some(q) => if q == "" then (false, params) else StorePieces(params, Split(q, '&'))
  }

  /** The pairs written as a query string. */
  function Query(pairs: seq<(string, string)>): string
    requires |pairs| >= 1
  {
    Join(PairTexts(pairs), '&')
  }

  function PairTexts(pairs: seq<(string, string)>): (r: seq<string>)
    ensures |r| == |pairs|
    ensures forall i :: 0 <= i < |pairs| ==> r[i] == pairs[i].0 + "=" + pairs[i].1
  {
    if |pairs| == 0 then [] else [pairs[0].0 + "=" + pairs[0].1] + PairTexts(pairs[1..])
  }

  /** `params` updated with every pair in order. */
  function Assign(params: map<string, string>, pairs: seq<(string, string)>): map<string, string>
    decreases |pairs|
  {
    if |pairs| == 0 then params else Assign(params[pairs[0].0 := pairs[0].1], pairs[1..])
  }

  /** A name or value that survives a query string: not empty, no `&`, no `=`. */
  predicate QuerySafe(s: string) {
    s != "" && '&' !in s && '=' !in s
  }

  predicate SafePairs(pairs: seq<(string, string)>) {
    forall i :: 0 <= i < |pairs| ==> QuerySafe(pairs[i].0) && QuerySafe(pairs[i].1)
  }

  /** A piece written as name=value is read back as that name and value. */
  lemma PairRoundTrip(k: string, v: string)
    requires QuerySafe(k) && QuerySafe(v)
    ensures ParamPair(k + "=" + v) == Some((k, v))
  {
    assert Join([k, v], '=') == k + "=" + v by {
      assert [k, v][1..] == [v];
    }
    SplitJoin([k, v], '=');
  }

  lemma {:induction false} StoreRoundTrip(params: map<string, string>, pairs: seq<(string, string)>)
    requires SafePairs(pairs)
    ensures StorePieces(params, PairTexts(pairs)) == (true, Assign(params, pairs))
    decreases |pairs|
  {
    if |pairs| > 0 {
      PairRoundTrip(pairs[0].0, pairs[0].1);
      StoreRoundTrip(params[pairs[0].0 := pairs[0].1], pairs[1..]);
      assert PairTexts(pairs)[1..] == PairTexts(pairs[1..]);
    }
  }

  /** A query string written from safe pairs parses back into exactly those
      assignments. */
  lemma QueryRoundTrip(params: map<string, string>, pairs: seq<(string, string)>)
    requires |pairs| >= 1 && SafePairs(pairs)
    ensures ParseParameters(params, Some(Query(pairs))) == (true, Assign(params, pairs))
  {
    var ts := PairTexts(pairs);
    PieceSafe(pairs);
    SplitJoin(ts, '&');
    StoreRoundTrip(params, pairs);
    assert Query(pairs) != "" by {
      assert ts[0] == pairs[0].0 + "=" + pairs[0].1;
      JoinStarts(ts, '&');
    }
  }

  /** A trailing `&` is harmless: the empty piece after it is dropped by the
      split. */
  lemma TrailingAmpersand(params: map<string, string>, pairs: seq<(string, string)>)
    requires |pairs| >= 1 && SafePairs(pairs)
    ensures ParseParameters(params, Some(Query(pairs) + "&")) == (true, Assign(params, pairs))
  {
    var ts := PairTexts(pairs);
    PieceSafe(pairs);
    JoinEmptyLast(ts, '&');
    FieldsJoin(ts + [""], '&');
    assert '&' in Query(pairs) + "&" by {
      assert (Query(pairs) + "&")[|Query(pairs)|] == '&';
    }
    assert (ts + [""])[..|ts|] == ts;
    StoreRoundTrip(params, pairs);
  }

  /** Pieces stored before a malformed one stay stored, although the result is
      false. */
  lemma {:induction false} PartialStore(params: map<string, string>, pairs: seq<(string, string)>, bad: string, rest: seq<string>)
    requires SafePairs(pairs) && ParamPair(bad).None?
    ensures StorePieces(params, PairTexts(pairs) + [bad] + rest) == (false, Assign(params, pairs))
    decreases |pairs|
  {
    if |pairs| == 0 {
      StoreStops(params, bad, rest);
    } else {
      SafeTail(pairs);
      PartialStore(params[pairs[0].0 := pairs[0].1], pairs[1..], bad, rest);
      PartialStep(params, pairs, bad, rest);
    }
  }

  lemma SafeTail(pairs: seq<(string, string)>)
    requires |pairs| > 0 && SafePairs(pairs)
    ensures QuerySafe(pairs[0].0) && QuerySafe(pairs[0].1) && SafePairs(pairs[1..])
  {
    assert forall i :: 0 <= i < |pairs| - 1 ==> pairs[1..][i] == pairs[i + 1];
  }

  /** One stored pair in front of a run that stops at a malformed piece. */
  lemma PartialStep(params: map<string, string>, pairs: seq<(string, string)>, bad: string, rest: seq<string>)
    requires |pairs| > 0 && QuerySafe(pairs[0].0) && QuerySafe(pairs[0].1)
    requires StorePieces(params[pairs[0].0 := pairs[0].1], PairTexts(pairs[1..]) + [bad] + rest)
      == (false, Assign(params[pairs[0].0 := pairs[0].1], pairs[1..]))
    ensures StorePieces(params, PairTexts(pairs) + [bad] + rest) == (false, Assign(params, pairs))
  {
    var (k, v) := pairs[0];
    var tail := PairTexts(pairs[1..]) + [bad] + rest;
    PairRoundTrip(k, v);
    StoreGoes(params, k + "=" + v, tail, k, v);
    ConsRegroup(PairTexts(pairs), k + "=" + v, PairTexts(pairs[1..]), bad, rest);
  }

  lemma ConsRegroup(ps: seq<string>, a: string, xs: seq<string>, b: string, rest: seq<string>)
    requires ps == [a] + xs
    ensures ps + [b] + rest == [a] + (xs + [b] + rest)
  {
  }

  /** A malformed first piece stops the loop with nothing stored. */
  lemma StoreStops(params: map<string, string>, bad: string, rest: seq<string>)
    requires ParamPair(bad).None?
    ensures StorePieces(params, [] + [bad] + rest) == (false, params)
  {
    assert ([] + [bad] + rest)[0] == bad;
  }

  /** A well-formed first piece is stored before the rest are read. */
  lemma StoreGoes(params: map<string, string>, piece: string, tail: seq<string>, k: string, v: string)
    requires ParamPair(piece) == Some((k, v))
    ensures StorePieces(params, [piece] + tail) == StorePieces(params[k := v], tail)
  {
    assert ([piece] + tail)[1..] == tail;
  }

  lemma PieceSafe(pairs: seq<(string, string)>)
    requires SafePairs(pairs)
    ensures forall i :: 0 <= i < |pairs| ==> '&' !in PairTexts(pairs)[i]
    ensures |pairs| > 0 ==> PairTexts(pairs)[|pairs| - 1] != ""
  {
  }

  lemma JoinStarts(fs: seq<string>, sep: char)
    requires |fs| >= 1
    ensures |Join(fs, sep)| >= |fs[0]|
  {
  }

  lemma {:induction false} JoinEmptyLast(fs: seq<string>, sep: char)
    requires |fs| >= 1
    ensures Join(fs + [""], sep) == Join(fs, sep) + [sep]
    decreases |fs|
  {
    if |fs| == 1 {
      assert (fs + [""])[1..] == [""];
    } else {
      JoinEmptyLast(fs[1..], sep);
      assert (fs + [""])[1..] == fs[1..] + [""];
    }
  }

  // ---------------------------------------------------------------------------
  // The request line

  /** The request after the checks: the path without its query, and the
      parameters it carried. */
  datatype Accepted = Accepted(verb: string, target: string, version: string, path: string, params: map<string, string>)

  const BadRequest: nat := 400

  /** The requested path split at its first `?` into the path and the query. */
  function SplitTarget(target: string): (r: (string, Option<string>))
    ensures '?' !in r.0
    ensures r.1.None? <==> '?' !in target
    ensures r.1.None? ==> r.0 == target
    ensures r.1.Some? ==> target == r.0 + "?" + r.1.value
  {
    var q := IndexOf(target, '?');
    if q == -1 then (target, None)
    else
      assert target == target[..q] + "?" + target[q + 1..];
      (target[..q], Some(target[q + 1..]))
  }

  /** The checks of the first request line: three space-separated parts, a
      well-formed query if there is one, then GET with HTTP/1.0 or HTTP/1.1.
      Every failure answers 400. */
  function CheckRequest(request: seq<string>, params: map<string, string>): (r: Result<Accepted, nat>)
    ensures r.Err? ==> r.error == BadRequest
    ensures r.Ok? ==> |request| >= 1 && Split(request[0], ' ') == [r.value.verb, r.value.target, r.value.version]
    ensures r.Ok? ==> r.value.verb == "GET" && (r.value.version == "HTTP/1.0" || r.value.version == "HTTP/1.1")
    ensures r.Ok? ==> '?' !in r.value.path && StartsWith(r.value.target, r.value.path)
    ensures r.Ok? ==> params.Keys <= r.value.params.Keys
    ensures r.Ok? && '?' !in r.value.target ==> r.value.params == params
  {
    if |request| < 1 then Err(BadRequest) else CheckParts(Split(request[0], ' '), params)
  }

  /** The checks on the parts of the request line. */
  function CheckParts(parts: seq<string>, params: map<string, string>): (r: Result<Accepted, nat>)
    ensures r.Err? ==> r.error == BadRequest
    ensures r.Ok? ==> parts == [r.value.verb, r.value.target, r.value.version]
    ensures r.Ok? ==> r.value.verb == "GET" && (r.value.version == "HTTP/1.0" || r.value.version == "HTTP/1.1")
    ensures r.Ok? ==> '?' !in r.value.path && StartsWith(r.value.target, r.value.path)
    ensures r.Ok? ==> params.Keys <= r.value.params.Keys
    ensures r.Ok? && '?' !in r.value.target ==> r.value.params == params
  {
    if |parts| != 3 then Err(BadRequest)
    else
      match ReadTarget(parts[1], params)
      case None => Err(BadRequest)
      case Some((path, ps)) =>
        if parts[0] != "GET" || (parts[2] != "HTTP/1.0" && parts[2] != "HTTP/1.1") then Err(BadRequest)
        else Ok(Accepted(parts[0], parts[1], parts[2], path, ps))
  }

  /** The target split into the path and the parameters its query adds;
      nothing when there is a query that does not parse. */
  function ReadTarget(target: string, params: map<string, string>): (r: Option<(string, map<string, string>)>)
    ensures r.Some? ==> '?' !in r.value.0 && StartsWith(target, r.value.0)
    ensures r.Some? ==> params.Keys <= r.value.1.Keys
    ensures '?' !in target ==> r == Some((target, params))
    ensures '?' in target ==> var (path, query) := SplitTarget(target);
      r == if ParseParameters(params, query).0 then Some((path, ParseParameters(params, query).1)) else None
  {
    var (path, query) := SplitTarget(target);
    var (ok, ps) := ParseParameters(params, query);
    if query.Some? && !ok then None
    else
      assert StartsWith(target, path) by {
        if query.Some? {
          assert target[..|path|] == path;
        }
      }
      Some((path, if query.Some? then ps else params))
  }

  /** The request line of a version and a target, space-separated. */
  function RequestLine(target: string, version: string): string {
    "GET " + target + " " + version
  }

  predicate KnownVersion(version: string) {
    version == "HTTP/1.0" || version == "HTTP/1.1"
  }

  lemma RequestLineParts(target: string, version: string)
    requires ' ' !in target && ' ' !in version && version != ""
    ensures Split(RequestLine(target, version), ' ') == ["GET", target, version]
  {
    var fs := ["GET", target, version];
    JoinThree("GET", target, version, ' ');
    assert "GET " == "GET" + [' '];
    SplitJoin(fs, ' ');
  }

  /** A GET of a path without a query, in a known version, is accepted as it
      is and passes no parameters. */
  lemma AcceptPath(path: string, version: string, rest: seq<string>, params: map<string, string>)
    requires ' ' !in path && '?' !in path && KnownVersion(version)
    ensures CheckRequest([RequestLine(path, version)] + rest, params) == Ok(Accepted("GET", path, version, path, params))
  {
    RequestLineParts(path, version);
  }

  /** A GET of a path and a query is accepted exactly when the query parses,
      and then carries what the query assigned. */
  lemma AcceptQuery(path: string, query: string, version: string, rest: seq<string>, params: map<string, string>)
    requires ' ' !in path && '?' !in path && ' ' !in query && KnownVersion(version)
    ensures var target := path + "?" + query;
      CheckRequest([RequestLine(target, version)] + rest, params)
        == if ParseParameters(params, Some(query)).0
           then Ok(Accepted("GET", target, version, path, ParseParameters(params, Some(query)).1))
           else Err(BadRequest)
  {
    var target := path + "?" + query;
    RequestLineParts(target, version);
    TargetWithQuery(path, query);
  }

  /** A target is split at its first question mark. */
  lemma TargetWithQuery(path: string, query: string)
    requires '?' !in path
    ensures SplitTarget(path + "?" + query) == (path, Some(query))
  {
    var target := path + "?" + query;
    assert target[|path|] == '?';
    assert IndexOf(target, '?') == |path| by {
      assert target[..|path|] == path;
    }
    assert target[..|path|] == path && target[|path| + 1..] == query;
  }

  /** Anything but GET, or an unknown version, is a bad request. */
  lemma RefuseOthers(m: string, target: string, version: string, rest: seq<string>, params: map<string, string>)
    requires m != "" && ' ' !in m && ' ' !in target && ' ' !in version && version != ""
    requires m != "GET" || !KnownVersion(version)
    ensures CheckRequest([m + " " + target + " " + version] + rest, params) == Err(BadRequest)
  {
    var fs := [m, target, version];
    JoinThree(m, target, version, ' ');
    SplitJoin(fs, ' ');
  }

  lemma JoinThree(a: string, b: string, c: string, sep: char)
    ensures Join([a, b, c], sep) == a + [sep] + b + [sep] + c
  {
    var fs := [a, b, c];
    assert fs[1..] == [b, c] && fs[1..][1..] == [c];
    assert Join([b, c], sep) == b + [sep] + c;
    assert Join(fs, sep) == a + [sep] + (b + [sep] + c);
  }

  // ---------------------------------------------------------------------------
  // Reading the request head

  /** The five states of the reader: nothing special seen, CR, CR LF,
      CR LF CR, and a lone LF. */
  datatype ScanState = Plain | SawCR | SawCRLF | SawCRLFCR | SawLF

  /** The state after byte `b`, or None when `b` ends the head: the head ends
      exactly at an LF that follows CR LF CR or a lone LF. */
  function Next(st: ScanState, b: char): (r: Option<ScanState>)
    ensures r.None? <==> b == '\n' && (st == SawCRLFCR || st == SawLF)
    ensures b != '\r' && b != '\n' ==> r == Some(Plain)
  {
    match st
    case Plain => Some(if b == '\r' then SawCR else if b == '\n' then SawLF else Plain)
    case SawCR => Some(if b == '\n' then SawCRLF else Plain)
    case SawCRLF => Some(if b == '\r' then SawCRLFCR else Plain)
    case SawCRLFCR => if b == '\n' then None else Some(Plain)
    case SawLF => if b == '\n' then None else Some(Plain)
  }

  /** Bytes read from `input` in state `st` until the head ends, with every CR
      left out; None when the input ends first. */
  function Scan(input: string, st: ScanState): (r: Option<string>)
    ensures r.Some? ==> '\r' !in r.value
    ensures r.Some? ==> |r.value| > 0 && r.value[|r.value| - 1] == '\n'
    ensures r.Some? ==> |r.value| <= |input|
    decreases |input|
  {
    if |input| == 0 then None
    else
      var kept := if input[0] == '\r' then "" else [input[0]];
      match Next(st, input[0])
      case None => Some(kept)
      case Some(st') =>
        match Scan(input[1..], st')
        case None => None
        case Some(t) => Some(kept + t)
  }

  /** How the reading of a request can fail. */
  datatype ReadError =
    | EndOfStream  // the connection closed before the head ended
    | NullLine     // no header line at all, so the current line is still null

  /** A null line grown by concatenation reads as "null" followed by the text. */
  function Grow(cur: Option<string>, s: string): string {
    match cur
    case None => "null" + s
    case Some(c) => c + s
  }

  /** The unfolding loop: a piece starting with a tab or a space continues the
      current line; any other piece starts a new one; an empty piece stops. */
  function Fold(pieces: seq<string>, cur: Option<string>, acc: seq<string>): (r: (seq<string>, Option<string>))
    ensures r.1.None? <==> cur.None? && (|pieces| == 0 || pieces[0] == "")
    ensures (forall i :: 0 <= i < |acc| ==> acc[i] != "") && (cur.Some? ==> cur.value != "") ==>
      (forall i :: 0 <= i < |r.0| ==> r.0[i] != "") && (r.1.Some? ==> r.1.value != "")
    decreases |pieces|
  {
    if |pieces| == 0 || pieces[0] == "" then (acc, cur)
    else
      var s := pieces[0];
      if s[0] == '\t' || s[0] == ' ' then Fold(pieces[1..], Some(Grow(cur, s)), acc)
      else Fold(pieces[1..], Some(s), acc + Pending(cur))
  }

  /** The header lines of the pieces; with no line at all the current line is
      still null when it is tested, which fails. */
  function Unfold(pieces: seq<string>): (r: Result<seq<string>, ReadError>)
    ensures r.Err? <==> |pieces| == 0 || pieces[0] == ""
    ensures r.Err? ==> r.error == NullLine
    ensures r.Ok? ==> |r.value| >= 1 && forall i :: 0 <= i < |r.value| ==> r.value[i] != ""
  {
    var (acc, cur) := Fold(pieces, None, []);
    match cur
    case None => Err(NullLine)
    case Some(c) => Ok(if c != "" then acc + [c] else acc)
  }

  /** readRequest: the head up to the empty line, split at LF and unfolded. */
  function ReadRequest(input: string): (r: Result<seq<string>, ReadError>)
    ensures r.Err? && r.error == EndOfStream <==> Scan(input, Plain).None?
    ensures r.Ok? ==> |r.value| >= 1 && forall i :: 0 <= i < |r.value| ==> r.value[i] != "" && '\r' !in r.value[i]
  {
    match Scan(input, Plain)
    case None => Err(EndOfStream)
    case Some(str) =>
      var u := Unfold(Split(str, '\n'));
      assert u.Ok? ==> forall i :: 0 <= i < |u.value| ==> '\r' !in u.value[i] by {
        if u.Ok? {
          SplitAvoid(str, '\n', '\r');
          UnfoldFrom(Split(str, '\n'), '\r');
        }
      }
      u
  }

  /** No line Unfold produces holds a character absent from the pieces, when
      that character is not in "null" either. */
  lemma UnfoldFrom(pieces: seq<string>, c: char)
    requires c !in "null"
    requires forall i :: 0 <= i < |pieces| ==> c !in pieces[i]
    requires Unfold(pieces).Ok?
    ensures forall i :: 0 <= i < |Unfold(pieces).value| ==> c !in Unfold(pieces).value[i]
  {
    FoldFrom(pieces, None, [], c);
  }

  lemma {:induction false} FoldFrom(pieces: seq<string>, cur: Option<string>, acc: seq<string>, c: char)
    requires c !in "null"
    requires forall i :: 0 <= i < |pieces| ==> c !in pieces[i]
    requires forall i :: 0 <= i < |acc| ==> c !in acc[i]
    requires cur.Some? ==> c !in cur.value
    ensures forall i :: 0 <= i < |Fold(pieces, cur, acc).0| ==> c !in Fold(pieces, cur, acc).0[i]
    ensures Fold(pieces, cur, acc).1.Some? ==> c !in Fold(pieces, cur, acc).1.value
    decreases |pieces|
  {
    if |pieces| > 0 && pieces[0] != "" {
      var s := pieces[0];
      assert c !in s;
      if s[0] == '\t' || s[0] == ' ' {
        FoldFrom(pieces[1..], Some(Grow(cur, s)), acc, c);
      } else {
        FoldFrom(pieces[1..], Some(s), acc + Pending(cur), c);
      }
    }
  }

  // ---------------------------------------------------------------------------
  // Reading back what was written

  /** Each line followed by LF: what the reader keeps of lines sent with CR LF. */
  function LfLines(ls: seq<string>): string {
    if |ls| == 0 then "" else ls[0] + "\n" + LfLines(ls[1..])
  }

  /** `p` in front of the result, if there is one. */
  function Prefixed(p: string, o: Option<string>): Option<string> {
    match o
    case None => None
    case Some(t) => Some(p + t)
  }

  /** What the reader keeps of byte `b`. */
  function Kept(b: char): string {
    if b == '\r' then "" else [b]
  }

  /** One byte read and the reader moving on. */
  lemma ScanStep(input: string, st: ScanState, st': ScanState)
    requires |input| > 0 && Next(st, input[0]) == Some(st')
    ensures Scan(input, st) == Prefixed(Kept(input[0]), Scan(input[1..], st'))
  {
  }

  lemma PrefixedTwice(p: string, q: string, o: Option<string>)
    ensures Prefixed(p, Prefixed(q, o)) == Prefixed(p + q, o)
  {
    if o.Some? {
      assert p + (q + o.value) == p + q + o.value;
    }
  }

  lemma PrefixedNothing(o: Option<string>)
    ensures Prefixed("", o) == o
  {
    if o.Some? {
      assert "" + o.value == o.value;
    }
  }

  /** Text with no line break is kept as it is and leaves the reader in its
      plain state. */
  lemma {:induction false} ScanPlain(w: string, tail: string)
    requires NoBreak(w)
    ensures Scan(w + tail, Plain) == Prefixed(w, Scan(tail, Plain))
    decreases |w|
  {
    if |w| > 0 {
      var input := w + tail;
      assert input[0] == w[0];
      assert input[1..] == w[1..] + tail;
      ScanStep(input, Plain, Plain);
      ScanPlain(w[1..], tail);
      PrefixedTwice([w[0]], w[1..], Scan(tail, Plain));
      assert [w[0]] + w[1..] == w;
    } else {
      assert w + tail == tail;
      PrefixedNothing(Scan(tail, Plain));
    }
  }

  /** A CR LF in the plain state is kept as LF and leaves the reader after
      CR LF. */
  lemma ScanCRLF(tail: string)
    ensures Scan(CRLF + tail, Plain) == Prefixed("\n", Scan(tail, SawCRLF))
  {
    var input := CRLF + tail;
    assert input[0] == '\r' && input[1..] == "\n" + tail;
    ScanStep(input, Plain, SawCR);
    var rest := "\n" + tail;
    assert rest[0] == '\n' && rest[1..] == tail;
    ScanStep(rest, SawCR, SawCRLF);
    PrefixedNothing(Scan(rest, SawCR));
  }

  /** A header line followed by CR LF, read from the plain state or right after
      a CR LF, is kept with an LF, leaving the reader after CR LF. */
  lemma ScanLine(l: string, tail: string, st: ScanState)
    requires HeaderSafe(l)
    requires st == Plain || st == SawCRLF
    ensures Scan(l + CRLF + tail, st) == Prefixed(l + "\n", Scan(tail, SawCRLF))
  {
    var input := l + CRLF + tail;
    var after := CRLF + tail;
    assert input[0] == l[0];
    assert input[1..] == l[1..] + after;
    assert NoBreak(l[1..]) by {
      assert forall c :: c in l[1..] ==> c in l;
    }
    ScanStep(input, st, Plain);
    ScanPlain(l[1..], after);
    ScanCRLF(tail);
    var o := Scan(tail, SawCRLF);
    PrefixedTwice(l[1..], "\n", o);
    PrefixedTwice([l[0]], l[1..] + "\n", o);
    HeadThenRest(l, "\n");
  }

  lemma HeadThenRest(l: string, t: string)
    requires |l| > 0
    ensures [l[0]] + (l[1..] + t) == l + t
  {
    assert [l[0]] + l[1..] == l;
  }

  /** The empty line after a CR LF ends the head. */
  lemma ScanEnd(rest: string)
    ensures Scan(CRLF + rest, SawCRLF) == Some("\n")
  {
    var input := CRLF + rest;
    assert input[0] == '\r' && input[1..] == "\n" + rest;
    ScanStep(input, SawCRLF, SawCRLFCR);
    var t := "\n" + rest;
    assert t[0] == '\n';
    PrefixedNothing(Scan(t, SawCRLFCR));
  }

  /** Lines sent with CR LF and closed by an empty line are read as the same
      lines with LF, and the empty line as one more LF. */
  lemma {:induction false} ScanLines(ls: seq<string>, rest: string, st: ScanState)
    requires |ls| >= 1 && forall i :: 0 <= i < |ls| ==> HeaderSafe(ls[i])
    requires st == Plain || st == SawCRLF
    ensures Scan(Lines(ls) + CRLF + rest, st) == Some(LfLines(ls) + "\n")
    decreases |ls|
  {
    if |ls| == 1 {
      ScanOneLine(ls, rest, st);
    } else {
      assert forall i :: 0 <= i < |ls| - 1 ==> ls[1..][i] == ls[i + 1];
      ScanLines(ls[1..], rest, SawCRLF);
      ScanMoreLines(ls, rest, st);
    }
  }

  lemma ScanOneLine(ls: seq<string>, rest: string, st: ScanState)
    requires |ls| == 1 && HeaderSafe(ls[0])
    requires st == Plain || st == SawCRLF
    ensures Scan(Lines(ls) + CRLF + rest, st) == Some(LfLines(ls) + "\n")
  {
    var tail := CRLF + rest;
    assert Lines(ls[1..]) == "";
    assert Lines(ls) + CRLF + rest == ls[0] + CRLF + tail;
    ScanLine(ls[0], tail, st);
    ScanEnd(rest);
    assert LfLines(ls) == ls[0] + "\n" + "";
    assert LfLines(ls) == ls[0] + "\n";
  }

  lemma ScanMoreLines(ls: seq<string>, rest: string, st: ScanState)
    requires |ls| >= 2 && HeaderSafe(ls[0])
    requires st == Plain || st == SawCRLF
    requires Scan(Lines(ls[1..]) + CRLF + rest, SawCRLF) == Some(LfLines(ls[1..]) + "\n")
    ensures Scan(Lines(ls) + CRLF + rest, st) == Some(LfLines(ls) + "\n")
  {
    var tail := Lines(ls[1..]) + CRLF + rest;
    assert Lines(ls) + CRLF + rest == ls[0] + CRLF + tail;
    ScanLine(ls[0], tail, st);
    assert ls[0] + "\n" + (LfLines(ls[1..]) + "\n") == LfLines(ls) + "\n";
  }

  /** The LF-terminated lines and one more LF are the lines joined by LF with
      two empty fields after them. */
  lemma {:induction false} LfLinesJoin(ls: seq<string>)
    requires |ls| >= 1
    ensures LfLines(ls) + "\n" == Join(ls + ["", ""], '\n')
    decreases |ls|
  {
    if |ls| == 1 {
      assert (ls + ["", ""])[1..] == ["", ""];
      assert ["", ""][1..] == [""];
    } else {
      LfLinesJoin(ls[1..]);
      assert (ls + ["", ""])[1..] == ls[1..] + ["", ""];
    }
  }

  /** The LF-terminated lines split back into the lines. */
  lemma SplitLfLines(ls: seq<string>)
    requires |ls| >= 1 && forall i :: 0 <= i < |ls| ==> HeaderSafe(ls[i])
    ensures Split(LfLines(ls) + "\n", '\n') == ls
  {
    var fs := ls + ["", ""];
    var s := LfLines(ls) + "\n";
    NoLfFields(ls);
    LfLinesJoin(ls);
    FieldsJoin(fs, '\n');
    assert s[|s| - 1] == '\n';
    assert HeaderSafe(ls[|ls| - 1]);
    DropTwoEmpty(ls);
  }

  /** Safe lines and the two empty fields after them hold no LF. */
  lemma NoLfFields(ls: seq<string>)
    requires forall i :: 0 <= i < |ls| ==> HeaderSafe(ls[i])
    ensures forall i :: 0 <= i < |ls + ["", ""]| ==> '\n' !in (ls + ["", ""])[i]
  {
    var fs := ls + ["", ""];
    forall i | 0 <= i < |fs|
      ensures '\n' !in fs[i]
    {
      if i < |ls| {
        assert fs[i] == ls[i] && HeaderSafe(ls[i]);
      }
    }
  }

  lemma DropTwoEmpty(ls: seq<string>)
    requires |ls| >= 1 && ls[|ls| - 1] != ""
    ensures DropTrailingEmpty(ls + ["", ""]) == ls
  {
    var fs := ls + ["", ""];
    assert fs[..|fs| - 1] == ls + [""];
    assert (ls + [""])[..|ls|] == ls;
  }

  /** The line a pending current line contributes when a new one starts. */
  function Pending(cur: Option<string>): seq<string> {
    match cur
    case Some(c) => [c]
    case None => []
  }

  /** Lines none of which is empty, breaks or looks continued unfold to
      themselves. */
  lemma {:induction false} FoldPlainLines(ls: seq<string>, cur: Option<string>, acc: seq<string>)
    requires |ls| >= 1 && forall i :: 0 <= i < |ls| ==> HeaderSafe(ls[i])
    ensures Fold(ls, cur, acc) == (acc + Pending(cur) + ls[..|ls| - 1], Some(ls[|ls| - 1]))
    decreases |ls|
  {
    var acc' := acc + Pending(cur);
    assert Fold(ls, cur, acc) == Fold(ls[1..], Some(ls[0]), acc');
    if |ls| == 1 {
      assert ls[1..] == [];
      assert ls[..0] == [];
      assert acc' + ls[..0] == acc';
    } else {
      FoldPlainLines(ls[1..], Some(ls[0]), acc');
      assert ls[..|ls| - 1] == [ls[0]] + ls[1..][..|ls| - 2];
      assert acc' + [ls[0]] + ls[1..][..|ls| - 2] == acc' + ls[..|ls| - 1];
    }
  }

  /** The lines sent with CR LF and an empty line are read back as exactly
      those lines, whatever follows. */
  lemma ReadRoundTrip(ls: seq<string>, rest: string)
    requires |ls| >= 1 && forall i :: 0 <= i < |ls| ==> HeaderSafe(ls[i])
    ensures ReadRequest(Lines(ls) + CRLF + rest) == Ok(ls)
  {
    ScanLines(ls, rest, Plain);
    SplitLfLines(ls);
    UnfoldPlain(ls);
  }

  lemma UnfoldPlain(ls: seq<string>)
    requires |ls| >= 1 && forall i :: 0 <= i < |ls| ==> HeaderSafe(ls[i])
    ensures Unfold(ls) == Ok(ls)
  {
    FoldPlainLines(ls, None, []);
    assert [] + Pending(None) + ls[..|ls| - 1] == ls[..|ls| - 1];
    assert ls[..|ls| - 1] + [ls[|ls| - 1]] == ls;
  }

  /** What a request context sends as its header, the server reads back as the
      header's lines. */
  lemma HeaderReadBack(rc: RequestContext, body: string)
    requires PlainFields(rc)
    ensures ReadRequest(Header(rc) + body) == Ok(HeaderLines(rc))
  {
    HeaderLinesSafe(rc);
    ReadRoundTrip(HeaderLines(rc), body);
    assert Header(rc) + body == Lines(HeaderLines(rc)) + CRLF + body;
  }

  /** An empty head, CR LF CR LF, gives no line, and the unfolding fails on
      the null current line. */
  lemma EmptyHeadFails(rest: string)
    ensures ReadRequest(CRLF + CRLF + rest) == Err(NullLine)
  {
    ScanCRLF(CRLF + rest);
    ScanEnd(rest);
    assert CRLF + CRLF + rest == CRLF + (CRLF + rest);
    assert "\n" + "\n" == "\n\n";
    NoLines();
  }

  /** An empty head of two bare LFs fails the same way. */
  lemma BareEmptyHeadFails(rest: string)
    ensures ReadRequest("\n\n" + rest) == Err(NullLine)
  {
    var s := "\n\n" + rest;
    assert s[0] == '\n' && s[1..] == "\n" + rest;
    ScanStep(s, Plain, SawLF);
    var t := "\n" + rest;
    assert t[0] == '\n';
    assert Scan(t, SawLF) == Some("\n");
    assert "\n" + "\n" == "\n\n";
    NoLines();
  }

  /** Two LFs alone split into no field at all. */
  lemma NoLines()
    ensures Split("\n\n", '\n') == []
  {
    FieldsCons("", '\n', "");
    assert "" + ['\n'] + "" == "\n";
    FieldsCons("", '\n', "\n");
    assert "" + ['\n'] + "\n" == "\n\n";
    assert Fields("", '\n') == [""];
    var fs := Fields("\n\n", '\n');
    assert fs == ["", "", ""];
  }

  /** A continuation line is glued to the line before it. */
  lemma FoldedLine(a: string, b: string)
    requires HeaderSafe(a) && |b| > 0 && b[0] == ' '
    ensures Unfold([a, b]) == Ok([a + b])
  {
    assert [a, b][1..] == [b];
    assert [b][1..] == [];
    assert [] + Pending(None) == [];
    assert Fold([a, b], None, []) == Fold([b], Some(a), []);
    assert Fold([b], Some(a), []) == ([], Some(a + b));
    assert [] + [a + b] == [a + b];
  }

  /** A continuation with no line before it is glued to the text "null". */
  lemma LeadingContinuation(b: string)
    requires |b| > 0 && b[0] == ' '
    ensures Unfold([b]) == Ok(["null" + b])
  {
    assert [b][1..] == [];
    assert Fold([b], None, []) == ([], Some("null" + b));
    assert [] + ["null" + b] == ["null" + b];
  }
}
