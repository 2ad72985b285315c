/**
 What the gate lets through in terms of the rules alone (src/Main.c:425-583).
 */
module GateLaws {
  import opened CStrings
  import opened RequestPrinter
  import opened Gate
  import RequestParser
  import HeaderTable
  import BasicAuth
  import DomainTrie

  /** The first bytes are a TLS handshake record or the 24 bytes of the HTTP/2 preface. */
  predicate Raw(first: string) {
    first != "" && (first[0] as int == 22 || (|first| >= 24 && first[..24] == "PRI * HTTP/2.0\r\n\r\nSM\r\n\r\n"))
  }

  lemma RawIsNotHttp1(first: string)
    ensures Raw(first) <==> NotHttp1(first)
  {
    var p := H2_PREFACE;
    assert |p| == 24;
    if |first| >= 24 {
      if first[..24] == p {
        assert forall i :: 0 <= i < 24 ==> first[i] == first[..24][i];
      }
      if StartsAt(first, p, 0) {
        assert forall i :: 0 <= i < 24 ==> first[i] == p[i];
      }
    }
  }

  /** The headers hold a Basic credential that decodes to a listed one. */
  predicate CredentialsListed(users: seq<string>, hs: seq<HeaderTable.Header>, stray: bool) {
    var h := HeaderTable.Lookup(hs, "Proxy-Authorization");
    h.Some? && |h.value| >= 6 && h.value[..6] == "Basic " &&
    var token := BasicAuth.Token(h.value);
    if BasicAuth.Sound(token)
    then CText(BasicAuth.Decoded(BasicAuth.Terminated(token), BasicAuth.Pad(token))) in users
    else stray
  }

  /** Authentication is off, here or in its own module, or the credentials are listed. */
  predicate AuthAllows(r: Rules, hs: seq<HeaderTable.Header>, stray: bool) {
    !r.authOn || !r.usersLoaded || CredentialsListed(r.users, hs, stray)
  }

  /** The filter is off, or no listed domain covers the host. */
  predicate DomainAllows(r: Rules, line: RequestLine) {
    !r.filterOn || line.host == None || forall i :: 0 <= i < |r.domains| ==> !DomainTrie.Covers(r.domains[i], line.host.value)
  }

  /** The filter is off, or no pattern matches the path. */
  predicate UrlAllows(r: Rules, line: RequestLine) {
    !r.filterOn || !r.urlBlocks(line.path)
  }

  /** A visit the rules let through: a request that parses and passes all three checks. */
  predicate Allowed(v: Visit) {
    !Raw(v.first) &&
    match Parsed(v)
    case Parsed(line, hs) => AuthAllows(v.rules, hs, v.stray) && DomainAllows(v.rules, line) && UrlAllows(v.rules, line)
    case _ => false
  }

  lemma BasicPrefix(h: string)
    ensures StartsAt(h, "Basic ", 0) <==> |h| >= 6 && h[..6] == "Basic "
  {
    var b := "Basic ";
    if |h| >= 6 {
      if h[..6] == b { assert forall i :: 0 <= i < 6 ==> h[i] == h[..6][i]; }
      if StartsAt(h, b, 0) { assert forall i :: 0 <= i < 6 ==> h[i] == b[i]; }
    }
  }

  lemma AuthSays(r: Rules, hs: seq<HeaderTable.Header>, stray: bool)
    ensures AuthPasses(r, HeaderTable.Lookup(hs, "Proxy-Authorization"), stray) <==> AuthAllows(r, hs, stray)
  {
    var h := HeaderTable.Lookup(hs, "Proxy-Authorization");
    if h.Some? { BasicPrefix(h.value); }
  }

  lemma ParsedSays(v: Visit, line: RequestLine, hs: seq<HeaderTable.Header>)
    ensures JudgeParsed(v, line, HeaderTable.Lookup(hs, "Proxy-Authorization")) ==
            if !AuthAllows(v.rules, hs, v.stray) then Unauthorised
            else if !DomainAllows(v.rules, line) then DomainBlocked
            else if !UrlAllows(v.rules, line) then UrlBlocked
            else Passed(line)
  {
    AuthSays(v.rules, hs, v.stray);
  }

  /** The verdict on every visit, by the first rule that fails. */
  lemma VerdictSays(v: Visit)
    ensures Raw(v.first) ==> Judge(v) == Dropped
    ensures !Raw(v.first) && !Parsed(v).Parsed? ==> Judge(v) == Unparsed
    ensures !Raw(v.first) && Parsed(v).Parsed? ==>
              var line, hs := Parsed(v).line, Parsed(v).headers;
              Judge(v) == if !AuthAllows(v.rules, hs, v.stray) then Unauthorised
                          else if !DomainAllows(v.rules, line) then DomainBlocked
                          else if !UrlAllows(v.rules, line) then UrlBlocked
                          else Passed(line)
  {
    RawIsNotHttp1(v.first);
    if Parsed(v).Parsed? { ParsedSays(v, Parsed(v).line, Parsed(v).headers); }
  }

  /** A visit passes exactly when the rules let it through. */
  lemma PassedIsAllowed(v: Visit)
    ensures Judge(v).Passed? <==> Allowed(v)
    ensures Allowed(v) ==> Judge(v) == Passed(Parsed(v).line)
  {
    VerdictSays(v);
  }

  /** What is fetched: an allowed GET of HTTP/1.1 or HTTP/1.0 whose host is known. */
  lemma FetchedIsAllowed(v: Visit)
    ensures Fetches(v) <==>
            Allowed(v) && var line := Parsed(v).line;
            && line.verb == "GET" && line.host.Some?
            && (StartsAt(line.version, "HTTP/1.1", 0) || StartsAt(line.version, "HTTP/1.0", 0))
  {
    PassedIsAllowed(v);
  }
}
