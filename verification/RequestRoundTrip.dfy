/**
 Parsing undoes printing (sections 3.1.1 and 3.2 of RFC 7230): a request in absolute form
 printed by `ParsedRequest_unparse` and read by `ParsedRequest_parse` comes back as it was.
 */
module RequestRoundTrip {
  import opened CStrings
  import opened HeaderTable
  import opened RequestPrinter
  import opened RequestParser

  // ---- well-formed requests ----

  /** Free of the bytes that end a line or a C string. */
  predicate Clean(s: string) {
    CR !in s && NUL !in s
  }

  predicate CleanHeader(h: Header) {
    Clean(h.key) && ':' !in h.key && Clean(h.value)
  }

  ghost predicate CleanHeaders(hs: seq<Header>) {
    DistinctKeys(hs) && forall i :: 0 <= i < |hs| ==> CleanHeader(hs[i])
  }

  predicate CleanLine(r: RequestLine) {
    && r.verb == "GET" && r.protocol.Some? && r.host.Some?
    && Clean(r.protocol.value) && ' ' !in r.protocol.value && ':' !in r.protocol.value && '/' !in r.protocol.value
    && Clean(r.host.value) && ' ' !in r.host.value && ':' !in r.host.value && '/' !in r.host.value
    && (r.host.value == "" || r.host.value[0] != '[')
    && (r.port == None ==> r.host.value != "")
    && (r.port.Some? ==> Clean(r.port.value) && ' ' !in r.port.value && '/' !in r.port.value)
    && Clean(r.path) && ' ' !in r.path && r.path != "" && r.path[0] == '/'
    && Clean(r.version) && StartsAt(r.version, "HTTP/", 0)
  }

  /** The port passes the stale-errno test at src/proxy_parse.c:548-549. */
  predicate PortPasses(port: Option<string>, einval: bool) {
    port.Some? && port.value != "" && ReadsZero(port.value) ==> !einval
  }

  // ---- finding delimiters ----

  lemma FirstIndex(s: string, c: char, from: nat, k: nat)
    requires from <= k < |s| && s[k] == c && (forall j :: from <= j < k ==> s[j] != c)
    ensures IndexFrom(s, c, from) == k
  {
  }

  // ---- headers ----

  /** The printed header `h` stands in `t` at `pos`. */
  predicate LineAt(t: string, pos: nat, h: Header) {
    var c := pos + |h.key|;
    var e := c + 2 + |h.value|;
    e + 2 <= |t| && t[pos..c] == h.key && t[c] == ':' && t[c + 2..e] == h.value && CrlfAt(t, e)
    && t[c + 1] == ' '
  }

  function LineEnd(pos: nat, h: Header): nat {
    pos + |h.key| + |h.value| + 4
  }

  /** The printed headers `hs` and the empty line stand in `t` from `pos` to its end. */
  predicate BlockAt(t: string, pos: nat, hs: seq<Header>)
    decreases |hs|
  {
    if hs == [] then CrlfAt(t, pos)
    else LineAt(t, pos, hs[0]) && BlockAt(t, LineEnd(pos, hs[0]), hs[1..])
  }

  lemma LineCharacters(h: Header, rest: string, s: string)
    requires s == HeaderLine(h) + rest
    ensures var k, n := |h.key|, |h.value|;
            && |s| >= k + n + 4 && s[..k] == h.key && s[k] == ':' && s[k + 1] == ' '
            && s[k + 2..k + 2 + n] == h.value && s[k + 2 + n] == CR && s[k + 3 + n] == '\n'
            && s[k + 4 + n..] == rest
  {
  }

  lemma LineLaidOut(t: string, pos: nat, h: Header, rest: string)
    requires pos <= |t| && t[pos..] == HeaderLine(h) + rest
    ensures LineAt(t, pos, h) && t[LineEnd(pos, h)..] == rest
  {
    var k, n, s := |h.key|, |h.value|, t[pos..];
    LineCharacters(h, rest, s);
    SliceOfTail(t, pos, 0, k);
    SliceOfTail(t, pos, k + 2, k + 2 + n);
    SliceOfTail(t, pos, k + 4 + n, |s|);
    assert t[pos + k] == s[k] && t[pos + k + 1] == s[k + 1];
    assert t[pos + k + 2 + n] == s[k + 2 + n] && t[pos + k + 3 + n] == s[k + 3 + n];
  }

  lemma SliceOfTail(t: string, pos: nat, i: nat, j: nat)
    requires pos <= |t| && i <= j <= |t| - pos
    ensures t[pos + i..pos + j] == t[pos..][i..j]
  {
  }

  lemma {:induction false} BlockLaidOut(t: string, pos: nat, hs: seq<Header>)
    requires pos <= |t| && t[pos..] == HeaderBlock(hs)
    ensures BlockAt(t, pos, hs)
    decreases |hs|
  {
    if hs == [] {
      assert t[pos..] == CRLF;
      assert t[pos] == t[pos..][0] && t[pos + 1] == t[pos..][1];
    } else {
      BlockCons(hs);
      LineLaidOut(t, pos, hs[0], HeaderBlock(hs[1..]));
      BlockLaidOut(t, LineEnd(pos, hs[0]), hs[1..]);
    }
  }

  lemma BlockCons(hs: seq<Header>)
    requires hs != []
    ensures HeaderBlock(hs) == HeaderLine(hs[0]) + HeaderBlock(hs[1..])
  {
  }

  lemma FindsColon(t: string, pos: nat, h: Header)
    requires LineAt(t, pos, h) && CleanHeader(h)
    ensures IndexFrom(t, ':', pos) == pos + |h.key|
  {
    forall j | pos <= j < pos + |h.key|
      ensures t[j] != ':'
    {
      assert t[j] == t[pos..pos + |h.key|][j - pos];
    }
    FirstIndex(t, ':', pos, pos + |h.key|);
  }

  lemma NoCrInside(t: string, pos: nat, h: Header, j: nat)
    requires LineAt(t, pos, h) && CleanHeader(h) && pos <= j < pos + |h.key| + 2 + |h.value|
    ensures t[j] != CR
  {
    var c := pos + |h.key|;
    if j < c {
      assert t[j] == t[pos..c][j - pos];
    } else if c + 2 <= j {
      assert t[j] == t[c + 2..c + 2 + |h.value|][j - c - 2];
    }
  }

  lemma FindsLineEnd(t: string, pos: nat, h: Header)
    requires LineAt(t, pos, h) && CleanHeader(h)
    ensures var e := pos + |h.key| + 2 + |h.value|;
            FindCrlf(t, pos) == e && FindCrlf(t, pos + |h.key| + 2) == e && !CrlfAt(t, pos)
  {
    forall j | pos <= j < pos + |h.key| + 2 + |h.value|
      ensures !CrlfAt(t, j)
    {
      NoCrInside(t, pos, h, j);
    }
  }

  lemma ParsesPrintedHeader(t: string, pos: nat, h: Header)
    requires LineAt(t, pos, h) && CleanHeader(h)
    ensures ParseHeader(t, pos) == Headers([h])
  {
    FindsColon(t, pos, h);
    FindsLineEnd(t, pos, h);
  }

  lemma HeadersUnfold(t: string, pos: nat, done: seq<Header>, h: Header, e: nat)
    requires pos < |t| && !CrlfAt(t, pos) && ParseHeader(t, pos) == Headers([h])
    requires FindCrlf(t, pos) == e && e + 2 <= |t|
    ensures ParseHeaders(t, pos, done) == ParseHeaders(t, e + 2, WithSet(done, h.key, h.value))
  {
  }

  /** What one turn of the header loop finds. */
  lemma NextHeader(t: string, pos: nat, hs: seq<Header>, k: nat)
    requires k < |hs| && CleanHeaders(hs) && BlockAt(t, pos, hs[k..])
    ensures pos < |t| && !CrlfAt(t, pos) && ParseHeader(t, pos) == Headers([hs[k]])
    ensures FindCrlf(t, pos) + 2 == LineEnd(pos, hs[k]) <= |t|
    ensures BlockAt(t, LineEnd(pos, hs[k]), hs[k + 1..])
  {
    assert hs[k..][1..] == hs[k + 1..];
    FindsLineEnd(t, pos, hs[k]);
    ParsesPrintedHeader(t, pos, hs[k]);
  }

  lemma SetNext(hs: seq<Header>, k: nat)
    requires DistinctKeys(hs) && k < |hs|
    ensures WithSet(hs[..k], hs[k].key, hs[k].value) == hs[..k + 1]
  {
    OthersAbsent(hs[..k], hs[k].key);
  }

  lemma HeaderTurn(t: string, pos: nat, hs: seq<Header>, k: nat, next: nat)
    requires DistinctKeys(hs) && k < |hs|
    requires pos < |t| && !CrlfAt(t, pos) && ParseHeader(t, pos) == Headers([hs[k]])
    requires FindCrlf(t, pos) + 2 == next <= |t|
    requires ParseHeaders(t, next, hs[..k + 1]) == Headers(hs)
    ensures ParseHeaders(t, pos, hs[..k]) == Headers(hs)
  {
    SetNext(hs, k);
    HeadersUnfold(t, pos, hs[..k], hs[k], FindCrlf(t, pos));
  }

  lemma HeadersDone(t: string, pos: nat, hs: seq<Header>)
    requires CrlfAt(t, pos)
    ensures ParseHeaders(t, pos, hs) == Headers(hs)
  {
  }

  /** The header loop run on a printed block rebuilds the list, in order. */
  lemma {:induction false} ParsesPrintedHeaders(t: string, pos: nat, hs: seq<Header>, k: nat)
    requires pos <= |t| && k <= |hs| && BlockAt(t, pos, hs[k..])
    requires CleanHeaders(hs)
    ensures ParseHeaders(t, pos, hs[..k]) == Headers(hs)
    decreases |hs| - k
  {
    if k == |hs| {
      assert hs[..k] == hs;
      HeadersDone(t, pos, hs);
    } else {
      NextHeader(t, pos, hs, k);
      ParsesPrintedHeaders(t, LineEnd(pos, hs[k]), hs, k + 1);
      HeaderTurn(t, pos, hs, k, LineEnd(pos, hs[k]));
    }
  }

  // ---- the address ----

  lemma HostEnds(host: string, port: Option<string>, path: string)
    requires '/' !in host && (port.Some? ==> '/' !in port.value) && path != "" && path[0] == '/'
    ensures var front := host + PortText(port);
            IndexOf(front + path, '/') == |front| && (front + path)[..|front|] == front && (front + path)[|front|..] == path
  {
    var front := host + PortText(port);
    assert '/' !in front;
    FirstIndex(front + path, '/', 0, |front|);
  }

  lemma HostSplits(host: string, port: Option<string>, port0: Option<string>, einval: bool)
    requires ':' !in host && (host == "" || host[0] != '[') && PortPasses(port, einval)
    ensures SplitHost(host + PortText(port), port0, einval) == HostPort(host, if port.Some? then port else port0)
  {
    if port.Some? {
      HostWithPort(host, port.value, port0, einval);
    } else {
      assert host + PortText(port) == host;
    }
  }

  lemma HostWithPort(host: string, port: string, port0: Option<string>, einval: bool)
    requires ':' !in host && (host == "" || host[0] != '[') && PortPasses(Some(port), einval)
    ensures SplitHost(host + (":" + port), port0, einval) == HostPort(host, Some(port))
  {
    var s := host + (":" + port);
    FirstIndex(s, ':', 0, |host|);
    PortSlices(host, port);
    SplitUnfold(s, |host|, port0, einval);
  }

  lemma PortSlices(host: string, port: string)
    ensures var s := host + (":" + port);
            s[|host| + 1..] == port && s[..|host|] == host && s[0] == (if host == "" then ':' else host[0])
  {
  }

  lemma SplitUnfold(s: string, c: nat, port0: Option<string>, einval: bool)
    requires c < |s| && s[0] != '[' && IndexOf(s, ':') == c && PortPasses(Some(s[c + 1..]), einval)
    ensures SplitHost(s, port0, einval) == HostPort(s[..c], Some(s[c + 1..]))
  {
  }

  lemma ProtocolEnds(protocol: string, rest: string)
    requires ':' !in protocol
    ensures Find(protocol + "://" + rest, "://", 0) == |protocol|
  {
    var s := protocol + "://" + rest;
    forall j | 0 <= j < |protocol|
      ensures !StartsAt(s, "://", j)
    {
      assert "://"[0] == ':' && s[j] == protocol[j];
    }
    assert forall i :: 0 <= i < 3 ==> s[|protocol| + i] == "://"[i];
    FindFirst(s, "://", 0, |protocol|);
  }

  lemma NotLayered(protocol: string, rest: string)
    requires '/' !in protocol
    ensures !StartsAt(protocol + "://" + rest, "/http://", 0) && !StartsAt(protocol + "://" + rest, "/https://", 0)
  {
    var s := protocol + "://" + rest;
    assert "/http://"[0] == '/' && "/https://"[0] == '/';
    assert s[0] != '/';
  }

  lemma AddressUnfold(addr: string, p: nat, n: nat, port0: Option<string>, einval: bool, hp: HostPort)
    requires !StartsAt(addr, "/http://", 0) && !StartsAt(addr, "/https://", 0)
    requires p + 3 + n <= |addr| && n > 0 && Find(addr, "://", 0) == p
    requires IndexOf(addr[p + 3..], '/') == n
    requires hp.HostPort? && SplitHost(addr[p + 3..][..n], port0, einval) == hp
    ensures GetTarget(addr, port0, einval) == Target(Some(addr[..p]), Some(hp.host), hp.port, addr[p + 3..][n..])
  {
  }

  lemma ParsesPrintedAddress(r: RequestLine, port0: Option<string>, einval: bool)
    requires CleanLine(r) && PortPasses(r.port, einval)
    ensures GetTarget(Address(r), port0, einval) ==
            Target(r.protocol, r.host, if r.port.Some? then r.port else port0, r.path)
  {
    var p, front := r.protocol.value, r.host.value + PortText(r.port);
    var rem := front + r.path;
    assert Address(r) == p + "://" + rem;
    ProtocolEnds(p, rem);
    NotLayered(p, rem);
    assert (p + "://" + rem)[..|p|] == p && (p + "://" + rem)[|p| + 3..] == rem;
    HostEnds(r.host.value, r.port, r.path);
    HostSplits(r.host.value, r.port, port0, einval);
    AddressUnfold(p + "://" + rem, |p|, |front|, port0, einval,
                  HostPort(r.host.value, if r.port.Some? then r.port else port0));
  }

  // ---- the request line ----

  /** The request line without its CRLF. */
  function Bare(r: RequestLine): string
    requires r.protocol.Some? && r.host.Some?
  {
    r.verb + " " + Address(r) + " " + r.version
  }

  lemma TokenIs(s: string, c: char, from: nat, start: nat, end: nat)
    requires from <= start < end <= |s|
    requires forall i :: from <= i < start ==> s[i] == c
    requires forall i :: start <= i < end ==> s[i] != c
    requires end < |s| ==> s[end] == c
    ensures NextToken(s, c, from) == Token(start, end)
  {
    assert s[start] != c;
  }

  lemma LineTokens(verb: string, addr: string, version: string)
    requires verb != "" && ' ' !in verb && addr != "" && ' ' !in addr
    ensures var s := verb + " " + addr + " " + version; var a := |verb| + 1;
            && |s| == a + |addr| + 1 + |version|
            && NextToken(s, ' ', 0) == Token(0, |verb|) && s[0..|verb|] == verb
            && NextToken(s, ' ', a) == Token(a, a + |addr|) && s[a..a + |addr|] == addr
            && s[a + |addr| + 1..] == version
  {
    var s := verb + " " + addr + " " + version;
    var a := |verb| + 1;
    assert forall i :: 0 <= i < |verb| ==> s[i] == verb[i];
    assert forall i :: a <= i < a + |addr| ==> s[i] == addr[i - a];
    assert s[|verb|] == ' ' && s[a + |addr|] == ' ';
    TokenIs(s, ' ', 0, 0, |verb|);
    TokenIs(s, ' ', a, a, a + |addr|);
  }

  lemma AddressIsToken(r: RequestLine)
    requires CleanLine(r)
    ensures Address(r) != "" && ' ' !in Address(r)
  {
    assert ' ' !in PortText(r.port);
  }

  lemma LineUnfold(s: string, e: nat, port0: Option<string>, einval: bool, t: Target)
    requires 4 <= e < |s| && NextToken(s, ' ', 0) == Token(0, 3) && s[0..3] == "GET"
    requires NextToken(s, ' ', 4) == Token(4, e) && StartsAt(s[e + 1..], "HTTP/", 0)
    requires t.Target? && GetTarget(s[4..e], port0, einval) == t
    ensures ParseLine(s, port0, einval) ==
            Parsed(RequestLine("GET", t.protocol, t.host, t.port, t.path, s[e + 1..]), [])
  {
  }

  lemma ParsesPrintedLine(r: RequestLine, port0: Option<string>, einval: bool)
    requires CleanLine(r) && PortPasses(r.port, einval)
    ensures ParseLine(Bare(r), port0, einval) == Parsed(r.(port := if r.port.Some? then r.port else port0), [])
  {
    AddressIsToken(r);
    LineTokens(r.verb, Address(r), r.version);
    ParsesPrintedAddress(r, port0, einval);
    LineUnfold(Bare(r), 4 + |Address(r)|, port0, einval,
               Target(r.protocol, r.host, if r.port.Some? then r.port else port0, r.path));
  }

  // ---- the whole request ----

  lemma BareIsClean(r: RequestLine)
    requires CleanLine(r)
    ensures Clean(Bare(r))
  {
    assert Clean(PortText(r.port));
    assert Clean(Address(r));
  }

  lemma {:induction false} LinesAreClean(hs: seq<Header>)
    requires forall i :: 0 <= i < |hs| ==> CleanHeader(hs[i])
    ensures NUL !in HeaderLines(hs)
  {
    if hs != [] {
      assert CleanHeader(hs[0]);
      assert NUL !in HeaderLine(hs[0]);
      LinesAreClean(hs[1..]);
    }
  }

  /** The layout of the whole text. */
  lemma TextLayout(r: RequestLine, hs: seq<Header>)
    requires CleanLine(r) && CleanHeaders(hs)
    ensures var t, n := RequestText(r, hs), |Bare(r)|;
            && t == Bare(r) + CRLF + HeaderBlock(hs) && t[..n] == Bare(r)
            && CText(t) == t && FindCrlf(t, 0) == n && t[n + 2..] == HeaderBlock(hs)
  {
    var t, b, block := RequestText(r, hs), Bare(r), HeaderBlock(hs);
    assert t == b + CRLF + block;
    BareIsClean(r);
    LinesAreClean(hs);
    CTextWhole(t);
    CrlfAfter(b, block);
  }

  lemma CrlfAfter(b: string, rest: string)
    requires CR !in b
    ensures FindCrlf(b + CRLF + rest, 0) == |b|
  {
    var t := b + CRLF + rest;
    assert forall j :: 0 <= j < |b| ==> t[j] == b[j];
    assert CrlfAt(t, |b|);
  }

  lemma EndsInBlankLine(b: string, hs: seq<Header>)
    ensures var t := b + CRLF + HeaderBlock(hs); Find(t, CRLF + CRLF, 0) >= 0
  {
    var t := b + CRLF + HeaderBlock(hs);
    LinesEndInCrlf(b + CRLF, hs);
    var n := |t| - 4;
    assert forall i {:trigger (CRLF + CRLF)[i]} :: 0 <= i < 4 ==> t[n + i] == (CRLF + CRLF)[i];
    FindMisses(t, CRLF + CRLF, 0, n);
  }

  lemma Assoc(a: string, b: string, c: string)
    ensures (a + b) + c == a + (b + c)
  {
  }

  lemma LineEndsInCrlf(front: string, h: Header)
    ensures var f := front + HeaderLine(h); CrlfAt(f, |f| - 2)
  {
    var f, m := front + HeaderLine(h), h.key + ": " + h.value;
    assert f == (front + m) + CRLF;
  }

  lemma {:induction false} LinesEndInCrlf(front: string, hs: seq<Header>)
    requires |front| >= 2 && CrlfAt(front, |front| - 2)
    ensures var t := front + HeaderBlock(hs); |t| >= 4 && CrlfAt(t, |t| - 4) && CrlfAt(t, |t| - 2)
    decreases hs
  {
    if hs == [] {
      assert front + HeaderBlock(hs) == front + CRLF;
    } else {
      BlockCons(hs);
      var h, block := hs[0], HeaderBlock(hs[1..]);
      var f := front + HeaderLine(h);
      LineEndsInCrlf(front, h);
      LinesEndInCrlf(f, hs[1..]);
      Assoc(front, HeaderLine(h), block);
    }
  }

  lemma ParseUnfold(t: string, n: nat, port0: Option<string>, einval: bool, line: RequestLine, hs: seq<Header>)
    requires MIN_REQ_LEN <= |t| <= MAX_REQ_LEN && CText(t) == t && n + 2 <= |t|
    requires FindCrlf(t, 0) == n && Find(t, CRLF + CRLF, 0) >= 0
    requires line.host.Some? && ParseLine(t[..n], port0, einval) == Parsed(line, [])
    requires ParseHeaders(t, n + 2, []) == Headers(hs)
    ensures Parse(t, port0, einval) == Parsed(line, hs)
  {
  }

  lemma HeaderPart(t: string, pos: nat, hs: seq<Header>)
    requires pos <= |t| && t[pos..] == HeaderBlock(hs) && CleanHeaders(hs)
    ensures ParseHeaders(t, pos, []) == Headers(hs)
  {
    BlockLaidOut(t, pos, hs);
    assert hs[0..] == hs && hs[..0] == [];
    ParsesPrintedHeaders(t, pos, hs, 0);
  }

  lemma LinePart(line: string, r: RequestLine, port0: Option<string>, einval: bool)
    requires CleanLine(r) && line == Bare(r) && PortPasses(r.port, einval)
    ensures ParseLine(line, port0, einval) == Parsed(r.(port := if r.port.Some? then r.port else port0), [])
  {
    ParsesPrintedLine(r, port0, einval);
  }

  lemma ParsesLaidOut(t: string, n: nat, line: RequestLine, hs: seq<Header>, port0: Option<string>, einval: bool)
    requires MIN_REQ_LEN <= |t| <= MAX_REQ_LEN && CText(t) == t && n + 2 <= |t|
    requires FindCrlf(t, 0) == n && Find(t, CRLF + CRLF, 0) >= 0
    requires CleanHeaders(hs) && line.host.Some?
    requires ParseLine(t[..n], port0, einval) == Parsed(line, []) && t[n + 2..] == HeaderBlock(hs)
    ensures Parse(t, port0, einval) == Parsed(line, hs)
  {
    HeaderPart(t, n + 2, hs);
    ParseUnfold(t, n, port0, einval, line, hs);
  }

  /**
   Printing then parsing gives back every field and the header list in order.  A request
   printed without a port comes back with whatever the new object's port field held.
   */
  lemma {:induction false} ParseUndoesPrint(r: RequestLine, hs: seq<Header>, port0: Option<string>, einval: bool)
    requires CleanLine(r) && CleanHeaders(hs) && PortPasses(r.port, einval)
    requires |RequestText(r, hs)| <= MAX_REQ_LEN
    ensures Parse(RequestText(r, hs), port0, einval) ==
            Parsed(r.(port := if r.port.Some? then r.port else port0), hs)
  {
    TextLayout(r, hs);
    EndsInBlankLine(Bare(r), hs);
    var t, n := RequestText(r, hs), |Bare(r)|;
    LinePart(t[..n], r, port0, einval);
    ParsesLaidOut(t, n, r.(port := if r.port.Some? then r.port else port0), hs, port0, einval);
  }

  // ---- the port the parser refuses ----

  lemma RefusesHost(host: string, port: string, port0: Option<string>)
    requires ':' !in host && (host == "" || host[0] != '[') && !PortPasses(Some(port), true)
    ensures SplitHost(host + (":" + port), port0, true) == BadHost
  {
    var s := host + (":" + port);
    FirstIndex(s, ':', 0, |host|);
    PortSlices(host, port);
  }

  lemma RefusesAddressAt(addr: string, p: nat, n: nat, port0: Option<string>)
    requires !StartsAt(addr, "/http://", 0) && !StartsAt(addr, "/https://", 0)
    requires p + 3 + n <= |addr| && n > 0 && Find(addr, "://", 0) == p
    requires IndexOf(addr[p + 3..], '/') == n && SplitHost(addr[p + 3..][..n], port0, true) == BadHost
    ensures GetTarget(addr, port0, true) == BadTarget
  {
  }

  lemma RefusesAddressOf(p: string, front: string, path: string, port0: Option<string>)
    requires ':' !in p && '/' !in p && front != "" && '/' !in front && path != "" && path[0] == '/'
    requires SplitHost(front, port0, true) == BadHost
    ensures GetTarget(p + "://" + (front + path), port0, true) == BadTarget
  {
    var rem := front + path;
    ProtocolEnds(p, rem);
    NotLayered(p, rem);
    assert (p + "://" + rem)[|p| + 3..] == rem && rem[..|front|] == front;
    FirstIndex(rem, '/', 0, |front|);
    RefusesAddressAt(p + "://" + rem, |p|, |front|, port0);
  }

  lemma AddressPieces(r: RequestLine, front: string)
    requires CleanLine(r) && r.port.Some? && front == r.host.value + (":" + r.port.value)
    ensures Address(r) == r.protocol.value + "://" + (front + r.path) && '/' !in front && front != ""
  {
  }

  lemma RefusesAddress(r: RequestLine, port0: Option<string>)
    requires CleanLine(r) && !PortPasses(r.port, true)
    ensures GetTarget(Address(r), port0, true) == BadTarget
  {
    var front := r.host.value + (":" + r.port.value);
    AddressPieces(r, front);
    RefusesHost(r.host.value, r.port.value, port0);
    RefusesAddressOf(r.protocol.value, front, r.path, port0);
  }

  lemma RefusesLineAt(s: string, e: nat, port0: Option<string>)
    requires 4 <= e < |s| && NextToken(s, ' ', 0) == Token(0, 3) && s[0..3] == "GET"
    requires NextToken(s, ' ', 4) == Token(4, e) && GetTarget(s[4..e], port0, true) == BadTarget
    ensures ParseLine(s, port0, true) == Rejected
  {
  }

  lemma RefusesLineOf(addr: string, version: string, port0: Option<string>)
    requires addr != "" && ' ' !in addr && GetTarget(addr, port0, true) == BadTarget
    ensures ParseLine("GET" + " " + addr + " " + version, port0, true) == Rejected
  {
    LineTokens("GET", addr, version);
    RefusesLineAt("GET" + " " + addr + " " + version, 4 + |addr|, port0);
  }

  lemma RefusesLine(r: RequestLine, port0: Option<string>)
    requires CleanLine(r) && !PortPasses(r.port, true)
    ensures ParseLine(Bare(r), port0, true) == Rejected
  {
    AddressIsToken(r);
    RefusesAddress(r, port0);
    RefusesLineOf(Address(r), r.version, port0);
  }

  lemma RefusesText(t: string, n: nat, port0: Option<string>)
    requires CText(t) == t && n + 2 <= |t| && FindCrlf(t, 0) == n && ParseLine(t[..n], port0, true) == Rejected
    ensures Parse(t, port0, true) == Rejected
  {
  }

  /** A printed request parses exactly when its port passes the stale-errno test. */
  lemma {:induction false} PrintedParses(r: RequestLine, hs: seq<Header>, port0: Option<string>, einval: bool)
    requires CleanLine(r) && CleanHeaders(hs) && |RequestText(r, hs)| <= MAX_REQ_LEN
    ensures Parse(RequestText(r, hs), port0, einval).Parsed? <==> PortPasses(r.port, einval)
  {
    if PortPasses(r.port, einval) {
      ParseUndoesPrint(r, hs, port0, einval);
    } else {
      TextLayout(r, hs);
      RefusesLine(r, port0);
      RefusesText(RequestText(r, hs), |Bare(r)|, port0);
    }
  }

  /** The printed text is exactly as long as `ParsedRequest_totalLen` says. */
  lemma TotalLenIsExact(r: RequestLine, hs: seq<Header>)
    requires r.protocol.Some? && r.host.Some?
    ensures |RequestText(r, hs)| == LineLen(r) + |HeaderBlock(hs)|
  {
  }

  /** The port comes back exactly when it was printed or the new object held none. */
  lemma {:induction false} PortReturns(r: RequestLine, hs: seq<Header>, port0: Option<string>, einval: bool)
    requires CleanLine(r) && CleanHeaders(hs) && PortPasses(r.port, einval)
    requires |RequestText(r, hs)| <= MAX_REQ_LEN
    ensures Parse(RequestText(r, hs), port0, einval) == Parsed(r, hs) <==> r.port.Some? || port0 == None
  {
    ParseUndoesPrint(r, hs, port0, einval);
  }
}
