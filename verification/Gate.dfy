/**
 What a connection thread does with a request before it may look it up in the cache
 (src/Main.c:433-584): the raw-protocol test, the parse, and the authentication, domain
 and URL checks.
 */
module Gate {
  import opened CStrings
  import opened RequestPrinter
  import RequestParser
  import HeaderTable
  import BasicAuth
  import DomainTrie

  /** The rules in force when a request is judged; `urlBlocks` is the regex match of `filter_is_url_blocked`. */
  datatype Rules = Rules(authOn: bool, usersLoaded: bool, users: seq<string>,
                         filterOn: bool, domains: seq<string>, urlBlocks: string -> bool)

  /**
   One request: the bytes of the first `recv`, those of the later ones, the rules, and the
   memory the code reads without having set it (see `RequestParser.Parse` and
   `BasicAuth.Admits`).
   */
  datatype Visit = Visit(first: string, rest: string, rules: Rules, port0: Option<string>, einval: bool, stray: bool)

  function Received(v: Visit): string {
    v.first + v.rest
  }

  /** `REQUEST` as a C string: the text that is parsed and the key of the cache. */
  function Key(v: Visit): string {
    CText(Received(v))
  }

  function Parsed(v: Visit): RequestParser.Outcome {
    RequestParser.Parse(Key(v), v.port0, v.einval)
  }

  /** Every read stays within the receive buffer of `max` bytes. */
  predicate Defined(v: Visit, max: nat) {
    && v.first != "" && |Received(v)| <= max && (|Received(v)| < max || NUL in Received(v))
    && !Parsed(v).Undefined?
  }

  const H2_PREFACE: string := "PRI * HTTP/2.0\r\n\r\nSM\r\n\r\n"

  /** Raw TLS or the HTTP/2 preface, looked for in the first `recv` alone. */
  predicate NotHttp1(first: string) {
    first != "" && (first[0] == 0x16 as char || StartsAt(first, H2_PREFACE, 0))
  }

  datatype Verdict = Dropped | Unauthorised | DomainBlocked | UrlBlocked | Unparsed | Passed(line: RequestLine)

  predicate AuthPasses(r: Rules, header: Option<string>, stray: bool) {
    r.authOn ==> BasicAuth.Admits(r.usersLoaded, header, r.users, stray)
  }

  predicate DomainPasses(r: Rules, line: RequestLine) {
    line.host.Some? && r.filterOn ==> !DomainTrie.Listed(r.domains, line.host.value)
  }

  predicate UrlPasses(r: Rules, line: RequestLine) {
    r.filterOn ==> !r.urlBlocks(line.path)
  }

  function JudgeParsed(v: Visit, line: RequestLine, auth: Option<string>): Verdict {
    if !AuthPasses(v.rules, auth, v.stray) then Unauthorised
    else if !DomainPasses(v.rules, line) then DomainBlocked
    else if !UrlPasses(v.rules, line) then UrlBlocked
    else Passed(line)
  }

  function Judge(v: Visit): Verdict {
    if NotHttp1(v.first) then Dropped
    else
      match Parsed(v)
      case Parsed(line, hs) => JudgeParsed(v, line, HeaderTable.Lookup(hs, "Proxy-Authorization"))
      case _ => Unparsed
  }

  /** The cache is consulted: also for a request that did not parse (src/Main.c:586). */
  predicate LooksUp(v: Visit) {
    Judge(v).Unparsed? || Judge(v).Passed?
  }

  /** `checkHTTPversion` and the tests around it (src/Main.c:647-651). */
  predicate CanFetch(line: RequestLine) {
    line.verb == "GET" && line.host.Some? &&
    (StartsAt(line.version, "HTTP/1.1", 0) || StartsAt(line.version, "HTTP/1.0", 0))
  }

  /** Only a request that passed every check is fetched, and so becomes a key. */
  predicate Fetches(v: Visit) {
    Judge(v).Passed? && CanFetch(Judge(v).line)
  }

  // ---- the checks on the actual objects ----

  /** Adds the trace header when the request has none (src/Main.c:517-521); other headers keep their values. */
  method Trace(table: HeaderTable.Table, id: string)
    requires table.Valid()
    modifies table, table.slots
    ensures table.Valid()
    ensures forall k :: k != "X-Trace-Id" ==>
      HeaderTable.Lookup(table.Headers(), k) == HeaderTable.Lookup(old(table.Headers()), k)
    ensures HeaderTable.Lookup(table.Headers(), "X-Trace-Id").Some?
  {
    ghost var hs := table.Headers();
    var h := table.Get("X-Trace-Id");
    if h == None {
      HeaderTable.LiveDistinct(table.slots[..table.used]);
      forall k: string
        ensures HeaderTable.Lookup(HeaderTable.WithSet(hs, "X-Trace-Id", id), k) ==
                if k == "X-Trace-Id" then Some(id) else HeaderTable.Lookup(hs, k)
      {
        HeaderTable.LookupAfter(hs, HeaderTable.Call.Set("X-Trace-Id", id), k);
      }
      table.Set("X-Trace-Id", id);
    }
  }

  // ---- the parse as a function of the text ----

  /** The host part has a port that is not empty and reads as zero. */
  predicate ZeroPortHost(host: string) {
    !(host != [] && host[0] == '[') && IndexOf(host, ':') >= 0 &&
    var port := host[IndexOf(host, ':') + 1..];
    port != "" && RequestParser.ReadsZero(port)
  }

  predicate ZeroPortAddress(addr: string) {
    ZeroPortAt(RequestParser.Unlayered(addr))
  }

  predicate ZeroPortAt(addr: string) {
    var p := Find(addr, "://", 0);
    p >= 0 && IndexOf(addr[p + 3..], '/') > 0 && ZeroPortHost(addr[p + 3..][..IndexOf(addr[p + 3..], '/')])
  }

  /** A request line that asks for an absolute address with port zero. */
  predicate ZeroPortLine(line: string) {
    RequestParser.Text(line, RequestParser.VerbToken(line)) != "CONNECT" &&
    ZeroPortAddress(RequestParser.Text(line, RequestParser.AddressToken(line)))
  }

  predicate ZeroPort(text: string) {
    FindCrlf(text, 0) >= 0 && ZeroPortLine(text[..FindCrlf(text, 0)])
  }

  /** Two readings of one address, up to the port. */
  predicate SameTarget(t: RequestParser.Target, u: RequestParser.Target) {
    (t.BadTarget? && u.BadTarget?) ||
    (t.Target? && u.Target? && t.protocol == u.protocol && t.host == u.host && t.path == u.path)
  }

  lemma HostStable(host: string, p: Option<string>, q: Option<string>, einval: bool)
    ensures var h, k := RequestParser.SplitHost(host, p, einval), RequestParser.SplitHost(host, q, false);
            if einval && ZeroPortHost(host) then h.BadHost? else h.HostPort? && k.HostPort? && h.host == k.host
  {
  }

  lemma AddressStable(addr: string, p: Option<string>, q: Option<string>, einval: bool)
    ensures var t, u := RequestParser.AddressTarget(addr, p, einval), RequestParser.AddressTarget(addr, q, false);
            if einval && ZeroPortAt(addr) then t.BadTarget? else SameTarget(t, u)
  {
    var k := Find(addr, "://", 0);
    if k >= 0 {
      var s := IndexOf(addr[k + 3..], '/');
      if s > 0 { HostStable(addr[k + 3..][..s], p, q, einval); }
    }
  }

  lemma TargetStable(verb: string, addr: string, p: Option<string>, q: Option<string>, einval: bool)
    ensures var t, u := RequestParser.ParseTarget(verb, addr, p, einval), RequestParser.ParseTarget(verb, addr, q, false);
            if einval && verb != "CONNECT" && ZeroPortAddress(addr) then t.BadTarget? else SameTarget(t, u)
  {
    AddressStable(RequestParser.Unlayered(addr), p, q, einval);
  }

  /** Two parses of one request, up to the port. */
  predicate SameOutcome(o: RequestParser.Outcome, r: RequestParser.Outcome) {
    o == r ||
    (o.Parsed? && r.Parsed? && o.headers == r.headers && o.line.(port := None) == r.line.(port := None))
  }

  lemma LineWithStable(line: string, t: RequestParser.Target, u: RequestParser.Target)
    ensures t.BadTarget? ==> !RequestParser.LineWith(line, t).Parsed?
    ensures SameTarget(t, u) ==> SameOutcome(RequestParser.LineWith(line, t), RequestParser.LineWith(line, u))
  {
  }

  lemma LineStable(line: string, p: Option<string>, q: Option<string>, einval: bool)
    ensures var o, r := RequestParser.ParseLine(line, p, einval), RequestParser.ParseLine(line, q, false);
            if einval && ZeroPortLine(line) then !o.Parsed? else SameOutcome(o, r)
  {
    var verb := RequestParser.Text(line, RequestParser.VerbToken(line));
    var addr := RequestParser.Text(line, RequestParser.AddressToken(line));
    TargetStable(verb, addr, p, q, einval);
    LineWithStable(line, RequestParser.ParseTarget(verb, addr, p, einval), RequestParser.ParseTarget(verb, addr, q, false));
  }

  lemma ParseWithStable(n: nat, t: string, e: int, o: RequestParser.Outcome, r: RequestParser.Outcome)
    requires e == -1 || 0 <= e <= |t| - 2
    ensures !o.Parsed? ==> !RequestParser.ParseWith(n, t, e, o).Parsed?
    ensures SameOutcome(o, r) ==>
      SameOutcome(RequestParser.ParseWith(n, t, e, o), RequestParser.ParseWith(n, t, e, r))
  {
  }

  /**
   The parse depends on the text alone, up to the unset port, except that a stale EINVAL
   in `errno` rejects an absolute address with port zero.
   */
  lemma {:induction false} ParseStable(buf: string, p: Option<string>, q: Option<string>, einval: bool)
    ensures var o, r := RequestParser.Parse(buf, p, einval), RequestParser.Parse(buf, q, false);
            if einval && ZeroPort(CText(buf)) then !o.Parsed? else SameOutcome(o, r)
  {
    var t := CText(buf);
    var e := FindCrlf(t, 0);
    if e >= 0 {
      LineStable(t[..e], p, q, einval);
      ParseWithStable(|buf|, t, e, RequestParser.ParseLine(t[..e], p, einval), RequestParser.ParseLine(t[..e], q, false));
    }
  }

  /** Of the requests that are looked up, those that parsed have passed. */
  lemma PassedIsParsed(v: Visit)
    requires LooksUp(v)
    ensures Judge(v).Passed? ==> Parsed(v).Parsed?
    ensures Parsed(v).Parsed? ==> Judge(v).Passed?
  {
  }

  /** A second visit with the text of one that was fetched parses, unless `errno` is stale and the port zero. */
  lemma {:induction false} SameTextParses(v: Visit, w: Visit)
    requires Fetches(v) && Key(w) == Key(v)
    ensures Parsed(w).Parsed? <==> !(w.einval && ZeroPort(Key(w)))
  {
    CTextWhole(Key(v));
    ParseStable(Key(v), v.port0, None, v.einval);
    ParseStable(Key(v), w.port0, None, w.einval);
  }
}
