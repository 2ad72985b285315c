/**
 Parsing a request (src/proxy_parse.c:228-255, 352-645).  `Undefined` marks the inputs on
 which the C code reads outside its buffers, so that nothing is claimed there.
 */
module RequestParser {
  import opened CStrings
  import opened HeaderTable
  import opened RequestPrinter

  datatype Outcome = Parsed(line: RequestLine, headers: seq<Header>) | Rejected | Undefined

  const MIN_REQ_LEN: nat := 4
  const MAX_REQ_LEN: nat := 65535

  // ---- strtok_r ----

  /** The first index at or after `from` where `c` does not stand, or |s|. */
  function SkipChar(s: string, c: char, from: nat): (k: nat)
    requires from <= |s|
    ensures from <= k <= |s|
    ensures k < |s| ==> s[k] != c
    ensures forall i :: from <= i < k ==> s[i] == c
    decreases |s| - from
  {
    if from < |s| && s[from] == c then SkipChar(s, c, from + 1) else from
  }

  /** The first index at or after `from` where `c` stands, or |s|. */
  function UntilChar(s: string, c: char, from: nat): (k: nat)
    requires from <= |s|
    ensures from <= k <= |s|
    ensures k < |s| ==> s[k] == c
    ensures forall i :: from <= i < k ==> s[i] != c
    decreases |s| - from
  {
    if from < |s| && s[from] != c then UntilChar(s, c, from + 1) else from
  }

  /** One token: its bounds; a token that ends before |s| was cut at a delimiter. */
  datatype Token = Token(start: nat, end: nat)

  function NextToken(s: string, c: char, from: nat): (t: Token)
    requires from <= |s|
    ensures from <= t.start <= t.end <= |s|
  {
    var start := SkipChar(s, c, from);
    Token(start, UntilChar(s, c, start))
  }

  // ---- headers ----

  /** The headers found so far, or how the loop went wrong. */
  datatype HeaderOutcome = Headers(list: seq<Header>) | NoColon | OutOfBounds

  /** `ParsedHeader_parse` on the text from `pos` on. */
  function ParseHeader(t: string, pos: nat): HeaderOutcome
    requires pos <= |t|
  {
    var c := IndexFrom(t, ':', pos);
    if c == -1 then NoColon
    else if c + 2 > |t| then OutOfBounds
    else
      var e := FindCrlf(t, c + 2);
      if e == -1 then OutOfBounds
      else Headers([Header(t[pos..c], t[c + 2..e])])
  }

  predicate HeadersEnd(t: string, pos: nat) {
    pos >= |t| || CrlfAt(t, pos)
  }

  /** The header loop (src/proxy_parse.c:580-596). */
  function ParseHeaders(t: string, pos: nat, hs: seq<Header>): HeaderOutcome
    requires pos <= |t|
    decreases |t| - pos
  {
    if HeadersEnd(t, pos) then Headers(hs)
    else
      var h := ParseHeader(t, pos);
      if !h.Headers? then h
      else
        var hs' := WithSet(hs, h.list[0].key, h.list[0].value);
        var e := FindCrlf(t, pos);
        if e == -1 then Headers(hs') else ParseHeaders(t, e + 2, hs')
  }

  // ---- the address ----

  /** A host with an optional port cut off, or a rejection. */
  datatype HostPort = HostPort(host: string, port: Option<string>) | BadHost

  /** `CONNECT host:port` (src/proxy_parse.c:441-483). */
  function ConnectTarget(addr: string): HostPort {
    if addr != [] && addr[0] == '[' then
      var e := IndexFrom(addr, ']', 1);
      if e == -1 then BadHost
      else
        var rest := addr[e + 1..];
        HostPort(addr[1..e], Some(if rest != [] && rest[0] == ':' then rest[1..] else "443"))
    else
      var h := NextToken(addr, ':', 0);
      if h.start == |addr| then BadHost
      else
        var port := if h.end < |addr| then addr[h.end + 1..] else "";
        HostPort(addr[h.start..h.end], Some(if port == "" then "443" else port))
  }

  /**
   `strtol` gives an `int` that is zero and leaves `errno` alone: on a port below LONG_MIN,
   which also converts to zero, it sets ERANGE.
   */
  predicate ReadsZero(port: string) {
    ToInt32(Strtol(port)) == 0 && !StrtolOverflows(port)
  }

  /** The host part of an absolute address (src/proxy_parse.c:524-560). */
  function SplitHost(host: string, port0: Option<string>, einval: bool): HostPort {
    if host != [] && host[0] == '[' then
      var e := IndexOf(host, ']');
      if e == -1 then HostPort(host, port0)
      else
        var c := IndexFrom(host, ':', e);
        HostPort(host[1..e], if c == -1 then port0 else Some(host[c + 1..]))
    else
      var c := IndexOf(host, ':');
      if c == -1 then HostPort(host, port0)
      else
        var port := host[c + 1..];
        if port != "" && ReadsZero(port) && einval then BadHost
        else HostPort(host[..c], Some(port))
  }

  /** The `Host` header of a request in origin form (src/proxy_parse.c:602-635). */
  function SplitHostHeader(v: string): HostPort {
    if v != [] && v[0] == '[' then
      var e := IndexOf(v, ']');
      if e == -1 then HostPort(v, None)
      else
        var c := IndexFrom(v, ':', e);
        HostPort(v[1..e], if c == -1 then None else Some(v[c + 1..]))
    else
      var c := IndexOf(v, ':');
      if c == -1 then HostPort(v, None) else HostPort(v[..c], Some(v[c + 1..]))
  }

  datatype Target = Target(protocol: Option<string>, host: Option<string>, port: Option<string>, path: string) | BadTarget

  /** The address of a GET (src/proxy_parse.c:488-574). */
  function GetTarget(addr: string, port0: Option<string>, einval: bool): Target {
    AddressTarget(Unlayered(addr), port0, einval)
  }

  /** A slash before http:// or https:// is skipped. */
  function Unlayered(addr: string): string {
    if StartsAt(addr, "/http://", 0) || StartsAt(addr, "/https://", 0) then addr[1..] else addr
  }

  function AddressTarget(addr: string, port0: Option<string>, einval: bool): Target {
    var p := Find(addr, "://", 0);
    if p == -1 then
      Target(Some("http"), None, None, if addr != [] && addr[0] == '/' then addr else "/" + addr)
    else
      var rem := addr[p + 3..];
      var s := IndexOf(rem, '/');
      if s <= 0 then BadTarget
      else
        var hp := SplitHost(rem[..s], port0, einval);
        if hp.BadHost? then BadTarget
        else Target(Some(addr[..p]), Some(hp.host), hp.port, rem[s..])
  }

  function ParseTarget(verb: string, addr: string, port0: Option<string>, einval: bool): Target {
    if verb == "CONNECT" then
      var hp := ConnectTarget(addr);
      if hp.BadHost? then BadTarget else Target(None, Some(hp.host), hp.port, "/")
    else GetTarget(addr, port0, einval)
  }

  // ---- the request ----

  function VerbToken(line: string): (t: Token)
    ensures t.start <= t.end <= |line|
  {
    NextToken(line, ' ', 0)
  }

  function AddressToken(line: string): (t: Token)
    ensures t.start <= t.end <= |line|
  {
    var m := VerbToken(line);
    NextToken(line, ' ', if m.end < |line| then m.end + 1 else m.end)
  }

  function Text(line: string, t: Token): string
    requires t.start <= t.end <= |line|
  {
    line[t.start..t.end]
  }

  /** The request line, without its CRLF (src/proxy_parse.c:393-575). */
  function ParseLine(line: string, port0: Option<string>, einval: bool): Outcome {
    LineWith(line, ParseTarget(Text(line, VerbToken(line)), Text(line, AddressToken(line)), port0, einval))
  }

  /** The request line whose address was read as `target`. */
  function LineWith(line: string, target: Target): Outcome {
    var m, a := VerbToken(line), AddressToken(line);
    var verb := Text(line, m);
    if m.start == |line| || (verb != "GET" && verb != "CONNECT") then Rejected
    else if a.start == |line| then Rejected
    else if a.end == |line| then Undefined
    else
      var version := line[a.end + 1..];
      if !StartsAt(version, "HTTP/", 0) || target.BadTarget? then Rejected
      else Parsed(RequestLine(verb, target.protocol, target.host, target.port, target.path, version), [])
  }

  /** The headers and, in origin form, the host they name (src/proxy_parse.c:578-644). */
  function Finish(line: RequestLine, h: HeaderOutcome): Outcome {
    match h
    case OutOfBounds => Undefined
    case NoColon => Rejected
    case Headers(hs) =>
      if line.host.Some? then Parsed(line, hs)
      else
        var v := Lookup(hs, "Host");
        if v == None then Rejected
        else
          var hp := SplitHostHeader(v.value);
          if hp.BadHost? then Rejected
          else Parsed(line.(host := Some(hp.host), port := hp.port), hs)
  }

  /**
   `ParsedRequest_parse` on a new object.  `port0` is what its `port` field happened to
   hold (`ParsedRequest_create` does not set it) and `einval` whether `errno` was left at
   EINVAL.
   */
  function Parse(buf: string, port0: Option<string>, einval: bool): Outcome {
    var t := CText(buf);
    var e := FindCrlf(t, 0);
    ParseWith(|buf|, t, e, if e == -1 then Rejected else ParseLine(t[..e], port0, einval))
  }

  /** `n` bytes whose text `t` has its first CRLF at `e`, after a line that parses as `line`. */
  function ParseWith(n: nat, t: string, e: int, line: Outcome): Outcome
    requires e == -1 || 0 <= e <= |t| - 2
  {
    if n < MIN_REQ_LEN || n > MAX_REQ_LEN || Find(t, CRLF + CRLF, 0) == -1 || e == -1 then Rejected
    else WithHeaders(line, t, e + 2)
  }

  function WithHeaders(line: Outcome, t: string, pos: nat): Outcome
    requires pos <= |t|
  {
    if !line.Parsed? then line else Finish(line.line, ParseHeaders(t, pos, []))
  }

  // ---- what the parser allocates ----

  /**
   The request line makes the parser allocate a protocol, host or port string: for a GET the
   protocol at least, for a CONNECT the port (src/proxy_parse.c:441-574).
   */
  predicate LineAllocates(line: string) {
    var m, a := VerbToken(line), AddressToken(line);
    var verb := Text(line, m);
    && m.start < |line| && (verb == "GET" || verb == "CONNECT") && a.start < |line| && a.end < |line|
    && StartsAt(line[a.end + 1..], "HTTP/", 0)
    && (verb == "GET" || !ConnectTarget(Text(line, a)).BadHost?)
  }

  /** ... and `ParsedRequest_destroy` does not free them (src/proxy_parse.c:261-275). */
  predicate AllocatesStrings(buf: string) {
    var t := CText(buf);
    var e := FindCrlf(t, 0);
    && MIN_REQ_LEN <= |buf| <= MAX_REQ_LEN && Find(t, CRLF + CRLF, 0) >= 0 && e >= 0
    && LineAllocates(t[..e])
  }

  lemma ParsedLineAllocates(line: string, port0: Option<string>, einval: bool)
    requires ParseLine(line, port0, einval).Parsed?
    ensures LineAllocates(line)
  {
  }

  /** Every request that parses has such strings. */
  lemma ParsedAllocates(buf: string, port0: Option<string>, einval: bool)
    requires Parse(buf, port0, einval).Parsed?
    ensures AllocatesStrings(buf)
  {
    var t := CText(buf);
    ParsedLineAllocates(t[..FindCrlf(t, 0)], port0, einval);
  }

  /** From `pos` on, with `hs` read so far, the loop ends in `goal`. */
  ghost predicate LeadsTo(t: string, pos: nat, hs: seq<Header>, goal: HeaderOutcome) {
    pos <= |t| && ParseHeaders(t, pos, hs) == goal
  }

  /** One turn of the header loop; `done` when it leaves the loop. */
  method ReadOne(t: string, pos: nat, table: Table, ghost goal: HeaderOutcome) returns (next: nat, done: bool, h: HeaderOutcome)
    requires !HeadersEnd(t, pos) && table.Valid() && LeadsTo(t, pos, table.Headers(), goal)
    modifies table, table.slots
    ensures table.Valid() && (table.slots == old(table.slots) || fresh(table.slots))
    ensures done ==> h == goal && (h.Headers? ==> table.Headers() == h.list)
    ensures !done ==> pos < next && LeadsTo(t, next, table.Headers(), goal)
  {
    var p := ParseHeader(t, pos);
    if !p.Headers? { return pos, true, p; }
    table.Set(p.list[0].key, p.list[0].value);
    var e := FindCrlf(t, pos);
    // the NULL test at line 592 never fires: the CRLF that ended the value is at or after `pos`
    assert CrlfAt(t, FindCrlf(t, IndexFrom(t, ':', pos) + 2));
    return e + 2, false, NoColon;
  }

  /** The header loop on the table itself: each line is one `ParsedHeader_set`. */
  method ReadHeaders(t: string, start: nat, table: Table, ghost goal: HeaderOutcome) returns (h: HeaderOutcome)
    requires table.Valid() && LeadsTo(t, start, table.Headers(), goal)
    modifies table, table.slots
    ensures table.Valid() && (table.slots == old(table.slots) || fresh(table.slots)) && h == goal
    ensures h.Headers? ==> table.Headers() == h.list
  {
    var pos := start;
    while pos < |t| && !CrlfAt(t, pos)
      invariant table.Valid() && (table.slots == old(table.slots) || fresh(table.slots))
      invariant LeadsTo(t, pos, table.Headers(), goal)
      decreases |t| - pos
    {
      var done;
      pos, done, h := ReadOne(t, pos, table, goal);
      if done { return; }
    }
    return Headers(table.Headers());
  }

  method ReadRest(line: Outcome, t: string, pos: nat, table: Table) returns (o: Outcome)
    requires pos <= |t| && table.Valid() && table.Headers() == []
    modifies table, table.slots
    ensures o == WithHeaders(line, t, pos) && (table.slots == old(table.slots) || fresh(table.slots))
    ensures table.Valid() && (o.Parsed? ==> line.Parsed? && table.Headers() == o.headers)
  {
    if !line.Parsed? { return line; }
    var h := ReadHeaders(t, pos, table, ParseHeaders(t, pos, []));
    o := Finish(line.line, h);
  }

  /** `ParsedRequest_create` and `ParsedRequest_parse` together. */
  method ReadRequest(buf: string, port0: Option<string>, einval: bool) returns (o: Outcome, table: Table)
    ensures o == Parse(buf, port0, einval) && fresh(table) && fresh(table.slots)
    ensures table.Valid() && (o.Parsed? ==> table.Headers() == o.headers)
  {
    table := new Table();
    if |buf| < MIN_REQ_LEN || |buf| > MAX_REQ_LEN { return Rejected, table; }
    var t := CText(buf);
    var e := FindCrlf(t, 0);
    if Find(t, CRLF + CRLF, 0) == -1 || e == -1 { return Rejected, table; }
    var line := ParseLine(t[..e], port0, einval);
    o := ReadRest(line, t, e + 2, table);
  }
}
