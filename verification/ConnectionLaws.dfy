/**
 What a client gets from one call of `THREAD_ROUTINE`, by which return path and with what
 left allocated, case by case in terms of the text received, the rules and the cache
 (src/Main.c:385-716).
 */
module ConnectionLaws {
  import opened CStrings
  import opened RequestPrinter
  import opened Gate
  import opened GateLaws
  import opened Server
  import opened ConnectionThread
  import RequestParser
  import HeaderTable
  import CacheSpec
  import Relay

  /** What the cache says of the request text. */
  function Found(s: CacheSpec.State, v: Visit, x: Surroundings): CacheSpec.Reply {
    CacheSpec.LookupReply(s.store.entries, CText(v.first + v.rest), x.now)
  }

  /** The entry's bytes, as far as the client's socket takes them. */
  function Replay(r: CacheSpec.Reply, x: Surroundings, max: nat): Reply
    requires r.Hit? && max >= 1
  {
    Replayed(Relay.Replayed(r.entry.data, max, x.counts))
  }

  /** A call that reads nothing, finds TLS or HTTP/2, or has no memory for the request. */
  lemma NothingAnswered(v: Option<Visit>, memory: bool, x: Surroundings, max: nat, s: CacheSpec.State)
    requires max >= 1 && (v == None || Raw(v.value.first) || !memory)
    ensures Result(v, memory, x, max, s) == Closed
    ensures ExitOfCall(v, memory, x, s) ==
            if v == None then RecvFailed else if Raw(v.value.first) then RawProtocol else NoMemory
    ensures LeftBy(v, memory, x, s) == NOTHING
  {
    if v.Some? {
      VerdictSays(v.value);
      RawIsNotHttp1(v.value.first);
    }
  }

  /** The answer and the return path of a call that gets to parse, by the verdict. */
  lemma ByVerdict(v: Visit, x: Surroundings, max: nat, s: CacheSpec.State, verdict: Verdict)
    requires max >= 1 && !Raw(v.first) && verdict == Judge(v)
    ensures var r, text := Found(s, v, x), CText(v.first + v.rest);
            && Result(Some(v), true, x, max, s) == ReplyBy(verdict, text, x, max, r)
            && ExitOfCall(Some(v), true, x, s) ==
               if verdict.Unparsed? || verdict.Passed? then LateExit(verdict, text, r) else Turned(verdict)
  {
    RawIsNotHttp1(v.first);
  }

  /** A request that does not parse is still looked up; if that misses it is dropped or answered 400. */
  lemma UnparsedAnswered(v: Visit, x: Surroundings, max: nat, s: CacheSpec.State)
    requires max >= 1 && !Raw(v.first) && !Parsed(v).Parsed?
    ensures var r, text := Found(s, v, x), CText(v.first + v.rest);
            var quiet := StartsAt(text, "GET /", 0) && !StartsAt(text, "GET /http", 0);
            && Result(Some(v), true, x, max, s) ==
               (if r.Hit? then Replay(r, x, max) else if quiet then Closed else Error(400))
            && ExitOfCall(Some(v), true, x, s) == (if !r.Hit? && quiet then QuietDrop else Answered)
  {
    VerdictSays(v);
    ByVerdict(v, x, max, s, Unparsed);
  }

  /** The first check that fails: 407 without listed credentials, 403 for the host, 403 for the path. */
  lemma RefusedAnswered(v: Visit, x: Surroundings, max: nat, s: CacheSpec.State)
    requires max >= 1 && !Raw(v.first) && Parsed(v).Parsed? && !Allowed(v)
    ensures var line, hs := Parsed(v).line, Parsed(v).headers;
            && Result(Some(v), true, x, max, s) == (if !AuthAllows(v.rules, hs, v.stray) then Error(407) else Error(403))
            && ExitOfCall(Some(v), true, x, s) ==
               (if !AuthAllows(v.rules, hs, v.stray) then AuthRefused
                else if !DomainAllows(v.rules, line) then DomainRefused else UrlRefused)
  {
    var line, hs := Parsed(v).line, Parsed(v).headers;
    var verdict := if !AuthAllows(v.rules, hs, v.stray) then Unauthorised
                   else if !DomainAllows(v.rules, line) then DomainBlocked else UrlBlocked;
    VerdictSays(v);
    ByVerdict(v, x, max, s, verdict);
    RefusalAnswer(verdict, CText(v.first + v.rest), x, max, Found(s, v, x));
  }

  lemma RefusalAnswer(verdict: Verdict, text: string, x: Surroundings, max: nat, r: CacheSpec.Reply)
    requires max >= 1 && (verdict.Unauthorised? || verdict.DomainBlocked? || verdict.UrlBlocked?)
    ensures ReplyBy(verdict, text, x, max, r) == if verdict.Unauthorised? then Error(407) else Error(403)
    ensures Turned(verdict) ==
            if verdict.Unauthorised? then AuthRefused else if verdict.DomainBlocked? then DomainRefused else UrlRefused
  {
  }

  /** A GET of HTTP/1.1 or HTTP/1.0 to a known host. */
  predicate Fetchable(line: RequestLine) {
    line.verb == "GET" && line.host.Some? &&
    (StartsAt(line.version, "HTTP/1.1", 0) || StartsAt(line.version, "HTTP/1.0", 0))
  }

  /**
   An allowed request is answered from the cache if it is there; otherwise it is fetched, or
   tunnelled, or answered 500.
   */
  lemma AllowedAnswered(v: Visit, x: Surroundings, max: nat, s: CacheSpec.State)
    requires max >= 1 && Allowed(v)
    ensures var r, line := Found(s, v, x), Parsed(v).line;
            && Result(Some(v), true, x, max, s) ==
               (if r.Hit? then Replay(r, x, max)
                else if !x.link.Serving? then Error(500)
                else if Fetchable(line) then Relayed(Relay.Delivered(x.chunks, x.refused), Relay.Pages(x.chunks, x.refused))
                else if line.verb == "CONNECT" then Tunnel
                else Error(500))
            && ExitOfCall(Some(v), true, x, s) == Answered
  {
    PassedIsAllowed(v);
    ByVerdict(v, x, max, s, Passed(Parsed(v).line));
    PassedAnswer(Parsed(v).line, CText(v.first + v.rest), x, max, Found(s, v, x));
  }

  lemma PassedAnswer(line: RequestLine, text: string, x: Surroundings, max: nat, r: CacheSpec.Reply)
    requires max >= 1
    ensures ReplyBy(Passed(line), text, x, max, r) ==
            (if r.Hit? then Replay(r, x, max)
             else if !x.link.Serving? then Error(500)
             else if Fetchable(line) then Relayed(Relay.Delivered(x.chunks, x.refused), Relay.Pages(x.chunks, x.refused))
             else if line.verb == "CONNECT" then Tunnel
             else Error(500))
    ensures LateExit(Passed(line), text, r) == Answered
  {
  }

  /**
   What a call leaves: of all it opened and allocated only the strings of its request, if
   and only if it got to parse and the parser made some, and `HandleRequest`'s buffer, if
   and only if an allowed GET missed and connecting, sending or allocating failed.
   */
  lemma LeftAllocated(v: Visit, memory: bool, x: Surroundings, s: CacheSpec.State)
    ensures var l := LeftBy(Some(v), memory, x, s);
            && !l.client && !l.buffer && !l.request && !l.parsed && !l.server && !l.response
            && (l.strings <==> memory && !Raw(v.first) && RequestParser.AllocatesStrings(CText(v.first + v.rest)))
            && (l.handler <==>
                  memory && Allowed(v) && Fetchable(Parsed(v).line) && !Found(s, v, x).Hit? && !x.link.Serving?)
  {
    FetchedIsAllowed(v);
    RawIsNotHttp1(v.first);
  }
}
