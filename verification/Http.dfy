/** The incremental request parser of muduo/net/http/HttpContext.cc, on requests as in HttpRequest.h. */
module Http {
  import opened Streams
  import opened Buffers

  datatype Method = Invalid | Get | Post | Head | Put | Delete

  datatype Version = Unknown | Http10 | Http11

  datatype Request = Request(verb: Method, version: Version, path: Bytes, query: Bytes, headers: map<Bytes, Bytes>)

  datatype ParseState = ExpectRequestLine | ExpectHeaders | GotAll

  datatype Context = Context(state: ParseState, request: Request)

  const QUESTION: Byte := 63
  const COLON: Byte := 58

  const GET: Bytes := [71, 69, 84]
  const POST: Bytes := [80, 79, 83, 84]
  const HEAD: Bytes := [72, 69, 65, 68]
  const PUT: Bytes := [80, 85, 84]
  const DELETE: Bytes := [68, 69, 76, 69, 84, 69]
  const HTTP1: Bytes := [72, 84, 84, 80, 47, 49, 46]
  const ZERO: Byte := 48
  const ONE: Byte := 49

  function Fresh(): Request {
    Request(Invalid, Unknown, [], [], map[])
  }

  function Start(): Context {
    Context(ExpectRequestLine, Fresh())
  }

  function TrimRight(s: Bytes): Bytes {
    if s != [] && IsSpace(s[|s| - 1]) then TrimRight(s[..|s| - 1]) else s
  }

  function MethodOf(s: Bytes): Method {
    if s == GET then Get else if s == POST then Post else if s == HEAD then Head
    else if s == PUT then Put else if s == DELETE then Delete else Invalid
  }

  /** The three parts of `processRequestLine`: the request with what was set, also when it fails half way. */
  function ProcessVersion(r: Request, version: Bytes): (Request, bool) {
    if |version| != 8 || version[..7] != HTTP1 then (r, false)
    else if version[7] == ONE then (r.(version := Http11), true)
    else if version[7] == ZERO then (r.(version := Http10), true)
    else (r, false)
  }

  function ProcessTarget(r: Request, rest: Bytes): (Request, bool) {
    var j := Find(rest, SPACE);
    if j == |rest| then (r, false)
    else
      var target := rest[..j];
      var q := Find(target, QUESTION);
      ProcessVersion(if q < j then r.(path := target[..q], query := target[q..]) else r.(path := target), rest[j + 1..])
  }

  function ProcessRequestLine(r: Request, line: Bytes): (Request, bool) {
    var i := Find(line, SPACE);
    if i == |line| then (r, false)
    else
      var r1 := r.(verb := MethodOf(line[..i]));
      if r1.verb == Invalid then (r1, false) else ProcessTarget(r1, line[i + 1..])
  }

  /** `addHeader`. */
  function AddHeader(r: Request, line: Bytes, colon: nat): Request
    requires colon < |line|
  {
    r.(headers := r.headers[line[..colon] := TrimRight(TrimLeft(line[colon + 1..]))])
  }

  function HeaderLine(r: Request, line: Bytes): Context {
    var colon := Find(line, COLON);
    if colon < |line| then Context(ExpectHeaders, AddHeader(r, line, colon)) else Context(GotAll, r)
  }

  /** One round of the loop in `parseRequest`; it ends for good with the whole request, or an error in the request
      line. */
  function OneRound(c: Context, buf: Bytes): Round<Context> {
    var n := FindCrlf(buf);
    if c.state.GotAll? || n == |buf| then Wait
    else if c.state.ExpectRequestLine? then
      var (r, ok) := ProcessRequestLine(c.request, buf[..n]);
      if ok then Took(n + 2, Context(ExpectHeaders, r)) else GiveUp
    else Took(n + 2, HeaderLine(c.request, buf[..n]))
  }

  /** What `parseRequest` leaves: the context, what is left in the buffer, and the verdict. */
  function ParseRequest(c: Context, buf: Bytes): (Context, Bytes, bool) {
    var (d, rest) := Drain(OneRound, c, buf);
    if OneRound(d, rest) == GiveUp then
      (d.(request := ProcessRequestLine(d.request, rest[..FindCrlf(rest)]).0), rest, false)
    else (d, rest, true)
  }

  lemma ParseStops(c: Context, buf: Bytes)
    requires OneRound(c, buf) == Wait
    ensures ParseRequest(c, buf) == (c, buf, true)
  {
  }

  lemma ParseFails(c: Context, buf: Bytes)
    requires OneRound(c, buf) == GiveUp
    ensures ParseRequest(c, buf) == (c.(request := ProcessRequestLine(c.request, buf[..FindCrlf(buf)]).0), buf, false)
  {
  }

  lemma ParseGoesOn(c: Context, buf: Bytes, n: nat, d: Context)
    requires OneRound(c, buf) == Took(n, d) && 0 < n <= |buf|
    ensures ParseRequest(c, buf) == ParseRequest(d, buf[n..])
  {
  }

  lemma RoundIsStable()
    ensures Stable(OneRound)
  {
    forall c, a, b
      ensures StableAt(OneRound, c, a, b)
    {
      if FindCrlf(a) < |a| {
        CrlfIsStable(a, b);
        assert (a + b)[..FindCrlf(a)] == a[..FindCrlf(a)];
      }
    }
  }

  /** The verdict, the fields and the bytes consumed are the same for every way of cutting the stream. */
  lemma ParsingIgnoresChunks(chunks: seq<Bytes>)
    ensures var (c, rest) := Receive(OneRound, Start(), [], chunks);
            ParseRequest(c, rest) == ParseRequest(Start(), Concat(chunks))
  {
    RoundIsStable();
    FromEmpty(OneRound, Start(), chunks);
    Drained(OneRound, Start(), Concat(chunks));
  }

  // Printing, sections 3.1.1 and 3.2 of RFC 7230.

  datatype Header = Header(field: Bytes, value: Bytes)

  function MethodString(m: Method): Bytes {
    match m
    case Get => GET
    case Post => POST
    case Head => HEAD
    case Put => PUT
    case Delete => DELETE
    case Invalid => []
  }

  function RequestLine(r: Request): Bytes {
    MethodString(r.verb) + [SPACE] + (r.path + r.query) + [SPACE] + HTTP1 + [if r.version == Http11 then ONE else ZERO]
  }

  function PrintHeader(h: Header): Bytes {
    h.field + [COLON, SPACE] + h.value
  }

  function PrintHeaders(hs: seq<Header>): Bytes {
    if hs == [] then [CR, LF] else PrintHeader(hs[0]) + [CR, LF] + PrintHeaders(hs[1..])
  }

  function Print(r: Request, hs: seq<Header>): Bytes {
    RequestLine(r) + [CR, LF] + PrintHeaders(hs)
  }

  function Headers(m: map<Bytes, Bytes>, hs: seq<Header>): map<Bytes, Bytes>
    decreases |hs|
  {
    if hs == [] then m else Headers(m[hs[0].field := hs[0].value], hs[1..])
  }

  predicate Trimmed(s: Bytes) {
    s != [] ==> !IsSpace(s[0]) && !IsSpace(s[|s| - 1])
  }

  predicate PrintableHeader(h: Header) {
    COLON !in h.field && CR !in h.field && CR !in h.value && Trimmed(h.value)
  }

  /** What one line can say: a method and a version that are known, and a target without spaces, split at its first
      question mark. */
  predicate Lined(r: Request) {
    && r.verb != Invalid && r.version != Unknown && r.headers == map[]
    && SPACE !in r.path && QUESTION !in r.path
    && SPACE !in r.query && (r.query != [] ==> r.query[0] == QUESTION)
  }

  predicate Printable(r: Request) {
    Lined(r) && CR !in r.path && CR !in r.query
  }

  lemma LineTaken(line: Bytes, rest: Bytes)
    requires CR !in line
    ensures var buf := line + [CR, LF] + rest;
            FindCrlf(buf) == |line| && buf[..|line|] == line && buf[|line| + 2..] == rest
  {
    NoCrlf(line);
    CrlfAfterLine(line, rest);
  }

  lemma MethodNames(m: Method)
    requires m != Invalid
    ensures MethodOf(MethodString(m)) == m && SPACE !in MethodString(m) && CR !in MethodString(m)
  {
  }

  /** The target splits at its question mark. */
  lemma TargetSplits(path: Bytes, query: Bytes)
    requires QUESTION !in path && (query != [] ==> query[0] == QUESTION)
    ensures var target := path + query;
            Find(target, QUESTION) == |path| && target[..|path|] == path && target[|path|..] == query
  {
    if query == [] {
      assert path + query == path;
      NoneFound(path, QUESTION);
    } else {
      assert path + query == path + [QUESTION] + query[1..];
      FindAfter(path, QUESTION, query[1..]);
    }
  }

  lemma VersionParses(r: Request, version: Version)
    requires version != Unknown
    ensures ProcessVersion(r, HTTP1 + [if version == Http11 then ONE else ZERO]) == (r.(version := version), true)
  {
    assert (HTTP1 + [if version == Http11 then ONE else ZERO])[..7] == HTTP1;
  }

  lemma TargetParses(r: Request, path: Bytes, query: Bytes, version: Bytes)
    requires SPACE !in path && QUESTION !in path && SPACE !in query && (query != [] ==> query[0] == QUESTION)
        && r.query == []
    ensures ProcessTarget(r, path + query + [SPACE] + version)
        == ProcessVersion(r.(path := path, query := query), version)
  {
    hide Find, ProcessVersion;
    var target := path + query;
    var rest := target + [SPACE] + version;
    assert SPACE !in target;
    FindAfter(target, SPACE, version);
    assert rest[..|target|] == target && rest[|target| + 1..] == version;
    TargetSplits(path, query);
    assert target[..|target|] == target;
  }

  lemma MethodParses(r: Request, m: Method, rest: Bytes)
    requires m != Invalid
    ensures ProcessRequestLine(r, MethodString(m) + [SPACE] + rest) == ProcessTarget(r.(verb := m), rest)
  {
    MethodNames(m);
    hide Find, ProcessTarget, MethodOf, MethodString;
    var name := MethodString(m);
    FindAfter(name, SPACE, rest);
    assert (name + [SPACE] + rest)[..|name|] == name && (name + [SPACE] + rest)[|name| + 1..] == rest;
  }

  lemma RequestLineHasNoCr(r: Request)
    requires Printable(r)
    ensures CR !in RequestLine(r)
  {
    MethodNames(r.verb);
    hide MethodString, MethodOf;
    var version := HTTP1 + [if r.version == Http11 then ONE else ZERO];
    assert CR !in HTTP1 && CR !in version;
    assert CR !in r.path + r.query;
    assert RequestLine(r) == MethodString(r.verb) + ([SPACE] + ((r.path + r.query) + ([SPACE] + version)));
  }

  lemma LineParses(r: Request)
    requires Lined(r)
    ensures ProcessRequestLine(Fresh(), RequestLine(r)) == (r, true)
  {
    hide ProcessRequestLine, ProcessTarget, ProcessVersion, MethodString, MethodOf;
    var version := HTTP1 + [if r.version == Http11 then ONE else ZERO];
    var rest := r.path + r.query + [SPACE] + version;
    assert RequestLine(r) == MethodString(r.verb) + [SPACE] + rest;
    MethodParses(Fresh(), r.verb, rest);
    TargetParses(Fresh().(verb := r.verb), r.path, r.query, version);
    VersionParses(Fresh().(verb := r.verb, path := r.path, query := r.query), r.version);
  }

  lemma RequestLineParses(r: Request)
    requires Printable(r)
    ensures CR !in RequestLine(r) && ProcessRequestLine(Fresh(), RequestLine(r)) == (r, true)
  {
    RequestLineHasNoCr(r);
    LineParses(r);
    hide RequestLine, ProcessRequestLine;
  }

  lemma MethodIsNamed(s: Bytes)
    requires MethodOf(s) != Invalid
    ensures MethodString(MethodOf(s)) == s
  {
  }

  lemma VersionIsNamed(r: Request, version: Bytes)
    requires ProcessVersion(r, version).1
    ensures var v := ProcessVersion(r, version).0.version;
            && v != Unknown && version == HTTP1 + [if v == Http11 then ONE else ZERO]
            && ProcessVersion(r, version).0 == r.(version := v)
  {
    assert version == version[..7] + [version[7]];
  }

  lemma Splits(s: Bytes, b: Byte)
    requires Find(s, b) < |s|
    ensures var i := Find(s, b); s == s[..i] + [b] + s[i + 1..] && b !in s[..i]
  {
    FindStops(s, b);
    hide Find;
  }

  lemma FindStops(s: Bytes, b: Byte)
    requires Find(s, b) < |s|
    ensures s[Find(s, b)] == b && b !in s[..Find(s, b)]
  {
  }

  lemma TargetIsSplit(target: Bytes)
    requires SPACE !in target
    ensures var q := Find(target, QUESTION);
            && target == target[..q] + target[q..] && QUESTION !in target[..q]
            && SPACE !in target[..q] && SPACE !in target[q..] && (target[q..] != [] ==> target[q..][0] == QUESTION)
  {
  }

  /** What follows the method. */
  function TargetLine(r: Request): Bytes {
    r.path + r.query + [SPACE] + HTTP1 + [if r.version == Http11 then ONE else ZERO]
  }

  lemma TargetIsPrinted(r: Request, rest: Bytes)
    requires ProcessTarget(r, rest).1 && r.query == []
    ensures var d := ProcessTarget(r, rest).0;
            && TargetLine(d) == rest && d.verb == r.verb && d.headers == r.headers
            && d.version != Unknown && SPACE !in d.path && QUESTION !in d.path
            && SPACE !in d.query && (d.query != [] ==> d.query[0] == QUESTION)
  {
    hide Find, ProcessVersion;
    var j := Find(rest, SPACE);
    Splits(rest, SPACE);
    var target := rest[..j];
    TargetIsSplit(target);
    var q := Find(target, QUESTION);
    var r2 := if q < j then r.(path := target[..q], query := target[q..]) else r.(path := target);
    VersionIsNamed(r2, rest[j + 1..]);
    assert r2.path + r2.query == target;
  }

  lemma VerbIsPrinted(r: Request, line: Bytes)
    requires ProcessRequestLine(r, line).1
    ensures exists m, rest :: && m != Invalid && line == MethodString(m) + [SPACE] + rest
                              && ProcessRequestLine(r, line) == ProcessTarget(r.(verb := m), rest)
  {
    hide Find, MethodOf, MethodString, ProcessTarget;
    var i := Find(line, SPACE);
    Splits(line, SPACE);
    MethodIsNamed(line[..i]);
  }

  /** A line that is accepted is the line of the request that was read from it. */
  lemma AcceptedIsPrinted(line: Bytes)
    requires ProcessRequestLine(Fresh(), line).1
    ensures var r := ProcessRequestLine(Fresh(), line).0; Lined(r) && RequestLine(r) == line
  {
    hide MethodString, ProcessTarget, ProcessRequestLine;
    VerbIsPrinted(Fresh(), line);
    var m, rest :| m != Invalid && line == MethodString(m) + [SPACE] + rest
                   && ProcessRequestLine(Fresh(), line) == ProcessTarget(Fresh().(verb := m), rest);
    TargetIsPrinted(Fresh().(verb := m), rest);
    var r := ProcessRequestLine(Fresh(), line).0;
    assert RequestLine(r) == MethodString(m) + [SPACE] + TargetLine(r);
  }

  /** The lines that are accepted are exactly those that print a request with a known method and version. */
  lemma AcceptsExactly(line: Bytes)
    ensures ProcessRequestLine(Fresh(), line).1 <==> exists r :: Lined(r) && RequestLine(r) == line
  {
    if ProcessRequestLine(Fresh(), line).1 {
      AcceptedIsPrinted(line);
    }
    hide RequestLine, ProcessRequestLine;
    if r :| Lined(r) && RequestLine(r) == line {
      LineParses(r);
    }
  }

  /** `parseRequest` answers false exactly when the first line is complete and prints no request. */
  lemma RefusesExactly(buf: Bytes)
    ensures !ParseRequest(Start(), buf).2
            <==> FindCrlf(buf) < |buf| && forall r :: Lined(r) ==> RequestLine(r) != buf[..FindCrlf(buf)]
  {
    hide FindCrlf, ProcessRequestLine, RequestLine, HeaderLine;
    AcceptsExactly(buf[..FindCrlf(buf)]);
    if FindCrlf(buf) < |buf| && ProcessRequestLine(Fresh(), buf[..FindCrlf(buf)]).1 {
      var n, r := FindCrlf(buf), ProcessRequestLine(Fresh(), buf[..FindCrlf(buf)]).0;
      FoundIsInside(buf);
      HeadersAreNotRefused(Context(ExpectHeaders, r), buf[n + 2..]);
      ParseGoesOn(Start(), buf, n + 2, Context(ExpectHeaders, r));
    }
  }

  lemma FoundIsInside(buf: Bytes)
    requires FindCrlf(buf) < |buf|
    ensures FindCrlf(buf) + 2 <= |buf|
  {
  }

  lemma {:induction false} HeadersAreNotRefused(c: Context, buf: Bytes)
    requires !c.state.ExpectRequestLine?
    ensures ParseRequest(c, buf).2
    decreases |buf|
  {
    hide FindCrlf, HeaderLine, ParseRequest;
    if OneRound(c, buf).Took? {
      var n, d := OneRound(c, buf).n, OneRound(c, buf).s;
      FoundIsInside(buf);
      NotTheFirst(c.request, buf[..FindCrlf(buf)]);
      HeadersAreNotRefused(d, buf[n..]);
      ParseGoesOn(c, buf, n, d);
    } else {
      ParseStops(c, buf);
    }
  }

  lemma NotTheFirst(r: Request, line: Bytes)
    ensures !HeaderLine(r, line).state.ExpectRequestLine?
  {
  }

  // Header lines.

  predicate Blank(s: Bytes) {
    forall i :: 0 <= i < |s| ==> IsSpace(s[i])
  }

  lemma {:induction false} BlankLeft(a: Bytes, s: Bytes)
    requires Blank(a) && (s != [] ==> !IsSpace(s[0]))
    ensures TrimLeft(a + s) == s
    decreases |a|
  {
    if a == [] {
      assert a + s == s;
    } else {
      assert (a + s)[1..] == a[1..] + s && (a + s)[0] == a[0];
      BlankLeft(a[1..], s);
    }
  }

  lemma {:induction false} BlankRight(s: Bytes, b: Bytes)
    requires Blank(b) && (s != [] ==> !IsSpace(s[|s| - 1]))
    ensures TrimRight(s + b) == s
    decreases |b|
  {
    if b == [] {
      assert s + b == s;
    } else {
      assert (s + b)[..|s + b| - 1] == s + b[..|b| - 1] && (s + b)[|s + b| - 1] == b[|b| - 1];
      BlankRight(s, b[..|b| - 1]);
    }
  }

  /** Every header line: what stands before the first colon is the field, and of what stands after it the blanks on
      both sides are left out. */
  lemma ValueIsTrimmed(r: Request, field: Bytes, before: Bytes, value: Bytes, after: Bytes)
    requires COLON !in field && Blank(before) && Blank(after) && Trimmed(value)
    ensures HeaderLine(r, field + [COLON] + (before + value + after))
            == Context(ExpectHeaders, r.(headers := r.headers[field := value]))
  {
    var tail := before + value + after;
    var line := field + [COLON] + tail;
    FindAfter(field, COLON, tail);
    hide Find;
    assert line[..|field|] == field && line[|field| + 1..] == tail;
    if value == [] {
      assert tail == before + after + [] && Blank(before + after);
      BlankLeft(before + after, []);
      BlankRight([], []);
    } else {
      assert tail == before + (value + after);
      BlankLeft(before, value + after);
      BlankRight(value, after);
    }
  }

  /** A line without a colon ends the request. */
  lemma NoColonEnds(r: Request, line: Bytes)
    requires COLON !in line
    ensures HeaderLine(r, line) == Context(GotAll, r)
  {
    NoneFound(line, COLON);
  }

  lemma TrimmedStays(s: Bytes)
    requires Trimmed(s)
    ensures TrimRight(TrimLeft([SPACE] + s)) == s
  {
    assert ([SPACE] + s)[1..] == s;
    assert TrimLeft(s) == s;
  }

  lemma HeaderParses(r: Request, h: Header)
    requires PrintableHeader(h)
    ensures CR !in PrintHeader(h)
    ensures HeaderLine(r, PrintHeader(h)) == Context(ExpectHeaders, r.(headers := r.headers[h.field := h.value]))
  {
    var line := PrintHeader(h);
    assert line == h.field + [COLON] + ([SPACE] + h.value);
    FindAfter(h.field, COLON, [SPACE] + h.value);
    assert line[..|h.field|] == h.field && line[|h.field| + 1..] == [SPACE] + h.value;
    TrimmedStays(h.value);
  }

  lemma {:induction false} HeadersParse(r: Request, hs: seq<Header>, rest: Bytes)
    requires forall h :: h in hs ==> PrintableHeader(h)
    ensures Drain(OneRound, Context(ExpectHeaders, r), PrintHeaders(hs) + rest)
            == (Context(GotAll, r.(headers := Headers(r.headers, hs))), rest)
    decreases |hs|
  {
    hide FindCrlf, Find;
    if hs == [] {
      LineTaken([], rest);
      NoneFound([], COLON);
      assert PrintHeaders(hs) + rest == [] + [CR, LF] + rest;
      EndTaken(r, rest);
    } else {
      var h, tail := hs[0], PrintHeaders(hs[1..]) + rest;
      var line := PrintHeader(h);
      HeaderParses(r, h);
      LineTaken(line, tail);
      assert PrintHeaders(hs) + rest == line + [CR, LF] + tail;
      HeadersParse(r.(headers := r.headers[h.field := h.value]), hs[1..], rest);
    }
  }

  lemma FirstWaits()
    ensures OneRound(Start(), []) == Wait
  {
  }

  lemma EndTaken(r: Request, rest: Bytes)
    ensures Drain(OneRound, Context(ExpectHeaders, r), [CR, LF] + rest) == (Context(GotAll, r), rest)
  {
    var buf := [CR, LF] + rest;
    assert CrlfAt(buf, 0);
    assert FindCrlf(buf) == 0 && buf[..0] == [] && buf[2..] == rest;
    NoneFound([], COLON);
    assert Drain(OneRound, Context(GotAll, r), rest) == (Context(GotAll, r), rest);
  }

  /** Parsing undoes printing, whatever the chunks, and leaves what comes after the request. */
  lemma ParseUndoesPrint(r: Request, hs: seq<Header>, rest: Bytes, chunks: seq<Bytes>)
    requires Printable(r) && (forall h :: h in hs ==> PrintableHeader(h)) && Concat(chunks) == Print(r, hs) + rest
    ensures Receive(OneRound, Start(), [], chunks) == (Context(GotAll, r.(headers := Headers(map[], hs))), rest)
  {
    hide RequestLine, PrintHeaders, FindCrlf, HeaderLine, ProcessRequestLine;
    RoundIsStable();
    FirstWaits();
    FromEmpty(OneRound, Start(), chunks);
    var line, tail := RequestLine(r), PrintHeaders(hs) + rest;
    RequestLineParses(r);
    LineTaken(line, tail);
    assert Print(r, hs) + rest == line + [CR, LF] + tail;
    HeadersParse(r, hs, rest);
    assert OneRound(Start(), line + [CR, LF] + tail) == Took(|line| + 2, Context(ExpectHeaders, r));
  }

  /** The fields of a map, in any order. */
  predicate Lists(hs: seq<Header>, m: map<Bytes, Bytes>) {
    && (forall i :: 0 <= i < |hs| ==> hs[i].field in m && m[hs[i].field] == hs[i].value)
    && (forall f :: f in m ==> Header(f, m[f]) in hs)
  }

  /** A request with its header map: its fields printed in any order and sent in any chunks give the request back. */
  lemma RequestSurvives(r: Request, m: map<Bytes, Bytes>, hs: seq<Header>, rest: Bytes, chunks: seq<Bytes>)
    requires Printable(r) && Lists(hs, m) && (forall h :: h in hs ==> PrintableHeader(h))
    requires Concat(chunks) == Print(r, hs) + rest
    ensures Receive(OneRound, Start(), [], chunks) == (Context(GotAll, r.(headers := m)), rest)
  {
    hide *;
    ParseUndoesPrint(r, hs, rest, chunks);
    HeadersOfMap(m, hs);
  }

  /** A header map is what its fields, printed in any order, are parsed to. */
  lemma {:induction false} HeadersOfMap(m: map<Bytes, Bytes>, hs: seq<Header>)
    requires Lists(hs, m)
    ensures Headers(map[], hs) == m
  {
    HeadersAre(map[], m, hs);
  }

  lemma {:induction false} HeadersAre(n: map<Bytes, Bytes>, m: map<Bytes, Bytes>, hs: seq<Header>)
    requires forall i :: 0 <= i < |hs| ==> hs[i].field in m && m[hs[i].field] == hs[i].value
    requires forall f :: f in n ==> f in m && n[f] == m[f]
    requires forall f :: f in m ==> f in n || Header(f, m[f]) in hs
    ensures Headers(n, hs) == m
    decreases |hs|
  {
    if hs == [] {
      assert n == m;
    } else {
      assert hs == [hs[0]] + hs[1..];
      HeadersAre(n[hs[0].field := hs[0].value], m, hs[1..]);
    }
  }

  // The objects.

  class HttpRequest {
    var verb: Method
    var version: Version
    var path: Bytes
    var query: Bytes
    var headers: map<Bytes, Bytes>

    function Now(): Request
      reads this
    {
      Request(verb, version, path, query, headers)
    }

    constructor ()
      ensures Now() == Fresh()
    {
      verb, version, path, query, headers := Invalid, Unknown, [], [], map[];
    }

    method SetMethod(m: Bytes) returns (ok: bool)
      requires verb == Invalid
      modifies this
      ensures Now() == old(Now()).(verb := MethodOf(m)) && (ok <==> verb != Invalid)
    {
      verb := MethodOf(m);
      ok := verb != Invalid;
    }

    /** `addHeader`, trimming with its two loops. */
    method AddHeaderLine(line: Bytes, colon: nat)
      requires colon < |line|
      modifies this
      ensures Now() == AddHeader(old(Now()), line, colon)
    {
      var field := line[..colon];
      var c := colon + 1;
      while c < |line| && IsSpace(line[c])
        invariant colon < c <= |line| && TrimLeft(line[c..]) == TrimLeft(line[colon + 1..])
      {
        assert line[c..][1..] == line[c + 1..];
        c := c + 1;
      }
      var value := line[c..];
      while value != [] && IsSpace(value[|value| - 1])
        invariant TrimRight(value) == TrimRight(TrimLeft(line[colon + 1..]))
        decreases |value|
      {
        value := value[..|value| - 1];
      }
      headers := headers[field := value];
    }
  }

  class HttpContext {
    var state: ParseState
    var request: HttpRequest

    function Now(): Context
      reads this, request
    {
      Context(state, request.Now())
    }

    constructor ()
      ensures Now() == Start() && fresh(request)
    {
      state := ExpectRequestLine;
      request := new HttpRequest();
    }

    /** `reset` swaps in a fresh request. */
    method Reset()
      modifies this
      ensures Now() == Start() && fresh(request)
    {
      state := ExpectRequestLine;
      request := new HttpRequest();
    }

    method RequestLineOf(line: Bytes) returns (succeed: bool)
      requires request.verb == Invalid
      modifies request
      ensures (request.Now(), succeed) == ProcessRequestLine(old(request.Now()), line)
    {
      hide Find, ProcessVersion;
      succeed := false;
      var space := Find(line, SPACE);
      if space != |line| {
        var known := request.SetMethod(line[..space]);
        if known {
          var rest := line[space + 1..];
          space := Find(rest, SPACE);
          if space != |rest| {
            var target := rest[..space];
            var question := Find(target, QUESTION);
            if question != space {
              request.path := target[..question];
              request.query := target[question..];
            } else {
              request.path := target;
            }
            succeed := VersionOf(rest[space + 1..]);
          }
        }
      }
    }

    method VersionOf(version: Bytes) returns (succeed: bool)
      modifies request
      ensures (request.Now(), succeed) == ProcessVersion(old(request.Now()), version)
    {
      succeed := |version| == 8 && version[..7] == HTTP1;
      if succeed {
        if version[7] == ONE {
          request.version := Http11;
        } else if version[7] == ZERO {
          request.version := Http10;
        } else {
          succeed := false;
        }
      }
    }

    /** `parseRequest`; it is not called again when it has got all, and not after an error. */
    method Parse(buf: Buffer) returns (ok: bool)
      requires buf.Valid() && !state.GotAll? && (state.ExpectRequestLine? ==> request.verb == Invalid)
      modifies this, request, buf
      ensures buf.Valid() && request == old(request)
      ensures (Now(), buf.Contents(), ok) == ParseRequest(old(Now()), old(buf.Contents()))
    {
      hide ProcessRequestLine, FindCrlf, HeaderLine, ParseRequest;
      ok := true;
      var hasMore := true;
      while hasMore
        invariant buf.Valid() && request == old(request)
        invariant hasMore ==> ok && !state.GotAll? && (state.ExpectRequestLine? ==> request.verb == Invalid)
        invariant hasMore ==> ParseRequest(Now(), buf.Contents()) == ParseRequest(old(Now()), old(buf.Contents()))
        invariant !hasMore ==> (Now(), buf.Contents(), ok) == ParseRequest(old(Now()), old(buf.Contents()))
        decreases hasMore, |buf.Contents()|
      {
        ghost var was, before := Now(), buf.Contents();
        var crlf := buf.FindCRLF();
        if crlf == |buf.Contents()| {
          hasMore := false;
          ParseStops(was, before);
        } else if state.ExpectRequestLine? {
          ok := RequestLineOf(buf.Contents()[..crlf]);
          if ok {
            buf.Retrieve(crlf + 2);
            state := ExpectHeaders;
            ParseGoesOn(was, before, crlf + 2, Now());
          } else {
            hasMore := false;
            ParseFails(was, before);
          }
        } else {
          HandleHeader(buf.Contents()[..crlf]);
          buf.Retrieve(crlf + 2);
          hasMore := !state.GotAll?;
          ParseGoesOn(was, before, crlf + 2, Now());
          if state.GotAll? {
            ParseStops(Now(), buf.Contents());
          }
        }
      }
    }

    /** A line of the header: a field, or, when it has no colon, the end. */
    method HandleHeader(line: Bytes)
      requires state.ExpectHeaders?
      modifies this, request
      ensures request == old(request) && Now() == HeaderLine(old(request.Now()), line) && !state.ExpectRequestLine?
    {
      var colon := Find(line, COLON);
      if colon != |line| {
        request.AddHeaderLine(line, colon);
      } else {
        state := GotAll;
      }
    }
  }
}
