/**
 What the parser makes of each form of request, stated over the text alone
 (src/proxy_parse.c:352-645; section 5.3 of RFC 7230): origin form with a Host header,
 authority form, absolute form with a bracketed host, and what it rejects.
 */
module RequestForms {
  import opened CStrings
  import opened HeaderTable
  import opened RequestPrinter
  import opened RequestParser
  import opened RequestRoundTrip

  // ---- the text of a request ----

  function LineOf(verb: string, addr: string, version: string): string {
    verb + " " + addr + " " + version
  }

  function TextOf(line: string, hs: seq<Header>): string {
    line + CRLF + HeaderBlock(hs)
  }

  /** A word of the request line. */
  predicate Word(s: string) {
    s != "" && Clean(s) && ' ' !in s
  }

  /** A whole request within the size limits. */
  ghost predicate WellFormed(verb: string, addr: string, version: string, hs: seq<Header>) {
    && Word(verb) && Word(addr) && Clean(version) && CleanHeaders(hs)
    && 4 <= |TextOf(LineOf(verb, addr, version), hs)| <= 65535
  }

  lemma LineIsClean(verb: string, addr: string, version: string)
    requires Word(verb) && Word(addr) && Clean(version)
    ensures Clean(LineOf(verb, addr, version))
  {
  }

  /** The parts of the text as the parser finds them. */
  lemma TextParts(line: string, hs: seq<Header>)
    requires Clean(line) && CleanHeaders(hs)
    ensures var t, n := TextOf(line, hs), |line|;
            && CText(t) == t && FindCrlf(t, 0) == n && t[..n] == line && t[n + 2..] == HeaderBlock(hs)
            && Find(t, CRLF + CRLF, 0) >= 0
  {
    LinesAreClean(hs);
    CTextWhole(TextOf(line, hs));
    CrlfAfter(line, HeaderBlock(hs));
    EndsInBlankLine(line, hs);
  }

  /** The parse is that of the request line, finished with the headers. */
  lemma ParsesBy(line: string, hs: seq<Header>, port0: Option<string>, einval: bool, o: Outcome)
    requires Clean(line) && CleanHeaders(hs) && MIN_REQ_LEN <= |TextOf(line, hs)| <= MAX_REQ_LEN
    requires ParseLine(line, port0, einval) == o
    ensures Parse(TextOf(line, hs), port0, einval) == if o.Parsed? then Finish(o.line, Headers(hs)) else o
  {
    TextParts(line, hs);
    var t, n := TextOf(line, hs), |line|;
    HeaderPart(t, n + 2, hs);
    ParsesAs(t, n, hs, port0, einval, o);
  }

  lemma ParsesAs(t: string, n: nat, hs: seq<Header>, port0: Option<string>, einval: bool, o: Outcome)
    requires MIN_REQ_LEN <= |t| <= MAX_REQ_LEN && CText(t) == t && n + 2 <= |t|
    requires FindCrlf(t, 0) == n && Find(t, CRLF + CRLF, 0) >= 0
    requires ParseLine(t[..n], port0, einval) == o && ParseHeaders(t, n + 2, []) == Headers(hs)
    ensures Parse(t, port0, einval) == if o.Parsed? then Finish(o.line, Headers(hs)) else o
  {
  }

  /** The line is cut into its words. */
  lemma LineWords(verb: string, addr: string, version: string)
    requires Word(verb) && Word(addr)
    ensures var s := LineOf(verb, addr, version);
            && VerbToken(s) == Token(0, |verb|) && Text(s, VerbToken(s)) == verb
            && AddressToken(s) == Token(|verb| + 1, |verb| + 1 + |addr|) && Text(s, AddressToken(s)) == addr
            && |s| == |verb| + |addr| + |version| + 2 && s[|verb| + |addr| + 2..] == version
  {
    LineTokens(verb, addr, version);
  }

  lemma LineReads(verb: string, addr: string, version: string, port0: Option<string>, einval: bool, t: Target)
    requires Word(verb) && Word(addr) && (verb == "GET" || verb == "CONNECT") && StartsAt(version, "HTTP/", 0)
    requires ParseTarget(verb, addr, port0, einval) == t
    ensures ParseLine(LineOf(verb, addr, version), port0, einval) ==
            if t.BadTarget? then Rejected
            else Parsed(RequestLine(verb, t.protocol, t.host, t.port, t.path, version), [])
  {
    LineWords(verb, addr, version);
    LineCuts(LineOf(verb, addr, version), verb, version, t);
  }

  lemma LineCuts(s: string, verb: string, version: string, t: Target)
    requires verb == "GET" || verb == "CONNECT"
    requires VerbToken(s).start < |s| && Text(s, VerbToken(s)) == verb
    requires AddressToken(s).start < |s| && AddressToken(s).end < |s|
    requires s[AddressToken(s).end + 1..] == version && StartsAt(version, "HTTP/", 0)
    ensures LineWith(s, t) == if t.BadTarget? then Rejected
                              else Parsed(RequestLine(verb, t.protocol, t.host, t.port, t.path, version), [])
  {
  }

  // ---- origin form ----

  /** No scheme: "://" stands nowhere. */
  ghost predicate NoScheme(addr: string) {
    forall k: nat :: !StartsAt(addr, "://", k)
  }

  /** A prefix with a scheme at its `k`th character. */
  lemma SchemeWithin(addr: string, prefix: string, k: nat)
    requires k + 3 <= |prefix| && prefix[k] == ':' && prefix[k + 1] == '/' && prefix[k + 2] == '/'
    ensures StartsAt(addr, prefix, 0) ==> StartsAt(addr, "://", k)
  {
  }

  lemma NotLayeredWithout(addr: string)
    requires NoScheme(addr)
    ensures Unlayered(addr) == addr
  {
    SchemeWithin(addr, "/http://", 5);
    SchemeWithin(addr, "/https://", 6);
  }

  lemma OriginTarget(addr: string, port0: Option<string>, einval: bool)
    requires NoScheme(addr) && addr != ""
    ensures GetTarget(addr, port0, einval) ==
            Target(Some("http"), None, None, if addr[0] == '/' then addr else "/" + addr)
  {
    NotLayeredWithout(addr);
  }

  /** What a Host header names. */
  datatype Authority = Authority(host: string, port: Option<string>)

  /** The text of a Host header for a name or IPv4 address. */
  function HostText(a: Authority): string {
    a.host + PortText(a.port)
  }

  /** ... and for an IPv6 address. */
  function BracketText(a: Authority): string {
    "[" + a.host + "]" + PortText(a.port)
  }

  lemma NamedHost(a: Authority)
    requires ':' !in a.host && (a.host == "" || a.host[0] != '[')
    ensures SplitHostHeader(HostText(a)) == HostPort(a.host, a.port)
  {
    var v := HostText(a);
    if a.port.Some? {
      FirstIndex(v, ':', 0, |a.host|);
      PortSlices(a.host, a.port.value);
    } else {
      assert v == a.host;
    }
  }

  lemma BracketChars(v: string, host: string, rest: string)
    requires v == "[" + host + "]" + rest && ']' !in host
    ensures v[0] == '[' && |v| == |host| + |rest| + 2 && v[1..|host| + 1] == host && v[|host| + 2..] == rest
    ensures IndexOf(v, ']') == |host| + 1 && IndexFrom(v, ']', 1) == |host| + 1
    ensures v[|host| + 1] == ']'
  {
    assert forall i :: 0 <= i < |host| ==> v[i + 1] == host[i];
    assert v[|host| + 1] == ']';
    FirstIndex(v, ']', 0, |host| + 1);
    FirstIndex(v, ']', 1, |host| + 1);
  }

  /** Behind the bracket a port or nothing. */
  lemma BracketPort(v: string, e: nat, port: Option<string>)
    requires e < |v| && v[e] == ']' && v[e + 1..] == PortText(port)
    ensures IndexFrom(v, ':', e) == (if port.Some? then e + 1 else -1)
    ensures port.Some? ==> v[e + 2..] == port.value
  {
    if port.Some? {
      assert v[e + 1..][0] == ':' && v[e + 1..][1..] == port.value;
      FirstIndex(v, ':', e, e + 1);
    } else {
      assert |v| == e + 1;
    }
  }

  lemma BracketParts(host: string, port: Option<string>)
    requires ']' !in host
    ensures var v := BracketText(Authority(host, port));
            && |v| >= |host| + 2 && v[0] == '[' && IndexOf(v, ']') == |host| + 1 && v[1..|host| + 1] == host
            && IndexFrom(v, ':', |host| + 1) == (if port.Some? then |host| + 2 else -1)
            && (port.Some? ==> |v| >= |host| + 3 && v[|host| + 3..] == port.value)
  {
    var v := BracketText(Authority(host, port));
    BracketChars(v, host, PortText(port));
    BracketPort(v, |host| + 1, port);
  }

  lemma BracketedHost(a: Authority)
    requires ']' !in a.host
    ensures SplitHostHeader(BracketText(a)) == HostPort(a.host, a.port)
  {
    BracketParts(a.host, a.port);
  }

  /**
   A GET in origin form: the host and port are those of the Host header, named or
   bracketed; the protocol is http, and path, version and headers are those of the text.
   */
  lemma OriginForm(addr: string, version: string, hs: seq<Header>, a: Authority, port0: Option<string>, einval: bool)
    requires WellFormed("GET", addr, version, hs) && StartsAt(version, "HTTP/", 0) && NoScheme(addr)
    requires || (Lookup(hs, "Host") == Some(HostText(a)) && ':' !in a.host && (a.host == "" || a.host[0] != '['))
             || (Lookup(hs, "Host") == Some(BracketText(a)) && ']' !in a.host)
    ensures Parse(TextOf(LineOf("GET", addr, version), hs), port0, einval) ==
            Parsed(RequestLine("GET", Some("http"), Some(a.host), a.port, if addr[0] == '/' then addr else "/" + addr, version), hs)
  {
    LineIsClean("GET", addr, version);
    OriginTarget(addr, port0, einval);
    var path := if addr[0] == '/' then addr else "/" + addr;
    var t := Target(Some("http"), None, None, path);
    LineReads("GET", addr, version, port0, einval, t);
    var line := RequestLine("GET", Some("http"), None, None, path, version);
    ParsesBy(LineOf("GET", addr, version), hs, port0, einval, Parsed(line, []));
    if Lookup(hs, "Host") == Some(BracketText(a)) && ']' !in a.host { BracketedHost(a); } else { NamedHost(a); }
    HostNamed(line, hs, Lookup(hs, "Host").value, HostPort(a.host, a.port));
  }

  lemma HostNamed(line: RequestLine, hs: seq<Header>, v: string, hp: HostPort)
    requires line.host == None && Lookup(hs, "Host") == Some(v) && SplitHostHeader(v) == hp && hp.HostPort?
    ensures Finish(line, Headers(hs)) == Parsed(line.(host := Some(hp.host), port := hp.port), hs)
  {
  }

  /** ... and without a Host header it is rejected. */
  lemma OriginNeedsHost(addr: string, version: string, hs: seq<Header>, port0: Option<string>, einval: bool)
    requires WellFormed("GET", addr, version, hs) && StartsAt(version, "HTTP/", 0) && NoScheme(addr)
    requires Lookup(hs, "Host") == None
    ensures Parse(TextOf(LineOf("GET", addr, version), hs), port0, einval) == Rejected
  {
    LineIsClean("GET", addr, version);
    OriginTarget(addr, port0, einval);
    var path := if addr[0] == '/' then addr else "/" + addr;
    LineReads("GET", addr, version, port0, einval, Target(Some("http"), None, None, path));
    ParsesBy(LineOf("GET", addr, version), hs, port0, einval, Parsed(RequestLine("GET", Some("http"), None, None, path, version), []));
  }

  // ---- authority form ----

  /** The port of a CONNECT without one. */
  function PortOr443(port: Option<string>): string {
    if port == None || port.value == "" then "443" else port.value
  }

  lemma ConnectNamed(host: string, port: Option<string>)
    requires host != "" && ':' !in host && host[0] != '['
    ensures ConnectTarget(host + PortText(port)) == HostPort(host, Some(PortOr443(port)))
  {
    var s := host + PortText(port);
    if port.Some? {
      TokenIs(s, ':', 0, 0, |host|);
      PortSlices(host, port.value);
    } else {
      assert s == host;
      TokenIs(s, ':', 0, 0, |host|);
    }
  }

  lemma ConnectBracketed(host: string, port: Option<string>)
    requires ']' !in host
    ensures ConnectTarget(BracketText(Authority(host, port))) ==
            HostPort(host, Some(if port.Some? then port.value else "443"))
  {
    BracketChars(BracketText(Authority(host, port)), host, PortText(port));
  }

  /**
   A CONNECT names host and port itself: port 443 if it gives none; a bracketed host keeps
   an empty port as it is.  The headers need not name a host.
   */
  lemma AuthorityForm(a: Authority, bracketed: bool, version: string, hs: seq<Header>, port0: Option<string>, einval: bool)
    requires if bracketed then ']' !in a.host else a.host != "" && ':' !in a.host && a.host[0] != '['
    requires WellFormed("CONNECT", if bracketed then BracketText(a) else HostText(a), version, hs) && StartsAt(version, "HTTP/", 0)
    ensures var port := if bracketed && a.port.Some? then a.port.value else PortOr443(a.port);
            Parse(TextOf(LineOf("CONNECT", if bracketed then BracketText(a) else HostText(a), version), hs), port0, einval) ==
            Parsed(RequestLine("CONNECT", None, Some(a.host), Some(port), "/", version), hs)
  {
    var addr := if bracketed then BracketText(a) else HostText(a);
    var port := if bracketed && a.port.Some? then a.port.value else PortOr443(a.port);
    if bracketed { ConnectBracketed(a.host, a.port); } else { ConnectNamed(a.host, a.port); }
    LineIsClean("CONNECT", addr, version);
    LineReads("CONNECT", addr, version, port0, einval, Target(None, Some(a.host), Some(port), "/"));
    ParsesBy(LineOf("CONNECT", addr, version), hs, port0, einval, Parsed(RequestLine("CONNECT", None, Some(a.host), Some(port), "/", version), []));
  }

  // ---- absolute form ----

  lemma SplitBracketed(host: string, port: Option<string>, port0: Option<string>, einval: bool)
    requires ']' !in host
    ensures SplitHost(BracketText(Authority(host, port)), port0, einval) == HostPort(host, if port.Some? then port else port0)
  {
    BracketParts(host, port);
  }

  lemma AbsoluteTarget(protocol: string, front: string, path: string, port0: Option<string>, einval: bool, hp: HostPort)
    requires ':' !in protocol && '/' !in protocol && front != "" && '/' !in front && path != "" && path[0] == '/'
    requires SplitHost(front, port0, einval) == hp && hp.HostPort?
    ensures GetTarget(protocol + "://" + (front + path), port0, einval) == Target(Some(protocol), Some(hp.host), hp.port, path)
  {
    var rem := front + path;
    var addr := protocol + "://" + rem;
    ProtocolEnds(protocol, rem);
    NotLayered(protocol, rem);
    assert addr[..|protocol|] == protocol && addr[|protocol| + 3..] == rem && rem[..|front|] == front && rem[|front|..] == path;
    FirstIndex(rem, '/', 0, |front|);
    AddressUnfold(addr, |protocol|, |front|, port0, einval, hp);
  }

  /** A GET for an absolute address with a bracketed host loses the brackets; its port is never refused. */
  lemma AbsoluteBracketed(protocol: string, a: Authority, path: string, version: string, hs: seq<Header>, port0: Option<string>, einval: bool)
    requires ':' !in protocol && '/' !in protocol && path != "" && path[0] == '/'
    requires ']' !in a.host && '/' !in a.host && '/' !in PortText(a.port)
    requires WellFormed("GET", protocol + "://" + (BracketText(a) + path), version, hs) && StartsAt(version, "HTTP/", 0)
    ensures Parse(TextOf(LineOf("GET", protocol + "://" + (BracketText(a) + path), version), hs), port0, einval) ==
            Parsed(RequestLine("GET", Some(protocol), Some(a.host), if a.port.Some? then a.port else port0, path, version), hs)
  {
    var addr := protocol + "://" + (BracketText(a) + path);
    var port := if a.port.Some? then a.port else port0;
    SplitBracketed(a.host, a.port, port0, einval);
    AbsoluteTarget(protocol, BracketText(a), path, port0, einval, HostPort(a.host, port));
    LineIsClean("GET", addr, version);
    LineReads("GET", addr, version, port0, einval, Target(Some(protocol), Some(a.host), port, path));
    ParsesBy(LineOf("GET", addr, version), hs, port0, einval, Parsed(RequestLine("GET", Some(protocol), Some(a.host), port, path, version), []));
  }

  lemma Shifted(addr: string, prefix: string, longer: string)
    requires longer == "/" + prefix
    ensures StartsAt("/" + addr, longer, 0) <==> StartsAt(addr, prefix, 0)
  {
    var s := "/" + addr;
    assert forall i :: 0 <= i < |prefix| ==> longer[i + 1] == prefix[i];
    if StartsAt(addr, prefix, 0) {
      forall i | 0 <= i < |longer|
        ensures s[i] == longer[i]
      {
        if i > 0 { assert prefix[i - 1] == addr[i - 1]; }
      }
    }
    if StartsAt(s, longer, 0) {
      forall i | 0 <= i < |prefix|
        ensures addr[i] == prefix[i]
      {
        assert s[i + 1] == longer[i + 1];
      }
    }
  }

  lemma LettersFirst(addr: string, prefix: string)
    requires |prefix| > 0 && prefix[0] == '/' && addr != "" && addr[0] != '/'
    ensures !StartsAt(addr, prefix, 0)
  {
  }

  lemma StartsWithLetter(addr: string, prefix: string)
    requires StartsAt(addr, prefix, 0) && |prefix| > 0 && prefix[0] != '/'
    ensures addr != "" && addr[0] != '/'
  {
  }

  /** A slash before http:// or https:// makes no difference. */
  lemma LayeredIsSkipped(addr: string, port0: Option<string>, einval: bool)
    requires StartsAt(addr, "http://", 0) || StartsAt(addr, "https://", 0)
    ensures GetTarget("/" + addr, port0, einval) == GetTarget(addr, port0, einval)
  {
    Shifted(addr, "http://", "/http://");
    Shifted(addr, "https://", "/https://");
    if StartsAt(addr, "http://", 0) { StartsWithLetter(addr, "http://"); } else { StartsWithLetter(addr, "https://"); }
    LettersFirst(addr, "/http://");
    LettersFirst(addr, "/https://");
    assert Unlayered("/" + addr) == addr == Unlayered(addr);
  }

  // ---- what is rejected ----

  /** Any other method. */
  lemma OtherVerbRejected(verb: string, addr: string, version: string, hs: seq<Header>, port0: Option<string>, einval: bool)
    requires WellFormed(verb, addr, version, hs) && verb != "GET" && verb != "CONNECT"
    ensures Parse(TextOf(LineOf(verb, addr, version), hs), port0, einval) == Rejected
  {
    LineIsClean(verb, addr, version);
    LineWords(verb, addr, version);
    ParsesBy(LineOf(verb, addr, version), hs, port0, einval, Rejected);
  }

  /** Any version that is not an HTTP one. */
  lemma OtherVersionRejected(verb: string, addr: string, version: string, hs: seq<Header>, port0: Option<string>, einval: bool)
    requires WellFormed(verb, addr, version, hs) && !StartsAt(version, "HTTP/", 0)
    ensures Parse(TextOf(LineOf(verb, addr, version), hs), port0, einval) == Rejected
  {
    LineIsClean(verb, addr, version);
    LineWords(verb, addr, version);
    ParsesBy(LineOf(verb, addr, version), hs, port0, einval, Rejected);
  }

  /** An absolute address without a path, or without a host. */
  lemma NoPathRejected(protocol: string, rem: string, port0: Option<string>, einval: bool)
    requires ':' !in protocol && '/' !in protocol && (rem == "" || rem[0] == '/' || '/' !in rem)
    ensures GetTarget(protocol + "://" + rem, port0, einval) == BadTarget
  {
    var addr := protocol + "://" + rem;
    ProtocolEnds(protocol, rem);
    NotLayered(protocol, rem);
    assert addr[|protocol| + 3..] == rem;
    if rem != "" && rem[0] == '/' { FirstIndex(rem, '/', 0, 0); }
  }

  /** A text too short or too long. */
  lemma WrongSizeRejected(buf: string, port0: Option<string>, einval: bool)
    requires |buf| < 4 || |buf| > 65535
    ensures Parse(buf, port0, einval) == Rejected
  {
  }

  /** A text without the blank line that ends the headers. */
  lemma UnendedRejected(n: nat, t: string, e: int, line: Outcome)
    requires (e == -1 || 0 <= e <= |t| - 2) && forall k: nat :: !StartsAt(t, CRLF + CRLF, k)
    ensures ParseWith(n, t, e, line) == Rejected
  {
  }

  lemma UnendedTextRejected(buf: string, port0: Option<string>, einval: bool)
    requires forall k: nat :: !StartsAt(CText(buf), CRLF + CRLF, k)
    ensures Parse(buf, port0, einval) == Rejected
  {
    var t := CText(buf);
    var e := FindCrlf(t, 0);
    UnendedRejected(|buf|, t, e, if e == -1 then Rejected else ParseLine(t[..e], port0, einval));
  }

  /** Headers that are not at their end and hold no colon. */
  lemma ColonlessRejected(line: RequestLine, t: string, pos: nat)
    requires pos < |t| && !CrlfAt(t, pos) && ':' !in t[pos..]
    ensures WithHeaders(Parsed(line, []), t, pos) == Rejected
  {
    assert forall j :: pos <= j < |t| ==> t[j] == t[pos..][j - pos];
  }

  // ---- the port that a stale errno refuses ----

  lemma Narrows(n: int)
    ensures ToInt32(n) == 0 <==> n % 0x1_0000_0000 == 0
  {
  }

  lemma NegatedMultiple(n: nat)
    ensures (0 - n) % 0x1_0000_0000 == 0 <==> n % 0x1_0000_0000 == 0
  {
  }

  /** A port in decimal reads as zero exactly if it fits a `long` and is a multiple of 2^32. */
  lemma PortReadsZero(n: nat, rest: string, negative: bool)
    requires rest == "" || !IsDigit(rest[0])
    ensures ReadsZero((if negative then "-" else "") + (Decimal(n) + rest)) <==>
            n % 0x1_0000_0000 == 0 && n <= 0x7fff_ffff_ffff_ffff + (if negative then 1 else 0)
  {
    var sign := if negative then "-" else "";
    var s := sign + (Decimal(n) + rest);
    ReadsDecimal("", sign, n, rest);
    assert "" + s == s;
    Narrows(Strtol(s));
    NegatedMultiple(n);
  }
}
