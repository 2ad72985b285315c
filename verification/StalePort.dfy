/**
 Why the statement about hits has its exception: a request with port zero is fetched and
 cached while `errno` is clean, and found again by a visit whose parse fails because
 `errno` was left at EINVAL (src/proxy_parse.c:548-549, src/Main.c:525-587).
 */
module StalePort {
  import opened CStrings
  import opened RequestPrinter
  import opened Gate
  import opened Server
  import GateLaws
  import RequestParser
  import RequestRoundTrip
  import CacheSpec
  import CacheRuns
  import CacheExamples
  import Relay

  const LINE: RequestLine := RequestLine("GET", Some("http"), Some("h"), Some("0"), "/", "HTTP/1.1")

  function Text(): string {
    RequestText(LINE, [])
  }

  /** No rule forbids anything. */
  function Open(): Rules {
    Rules(false, false, [], false, [], _ => false)
  }

  function Clean(): Visit {
    Visit(Text(), "", Open(), None, false, false)
  }

  function Stale(): Visit {
    Visit(Text(), "", Open(), None, true, false)
  }

  lemma ZeroIsRefused()
    ensures !RequestRoundTrip.PortPasses(Some("0"), true)
  {
    assert SkipSpaces("0") == "0";
    assert Digits("0"[1..], 0) == 0;
    assert Digits("0", 0) == 0;
    assert DecimalValue("0") == 0;
  }

  lemma LineIsClean()
    ensures RequestRoundTrip.CleanLine(LINE)
  {
  }

  lemma TextIsPlain()
    ensures |Text()| == 28 && CText(Text()) == Text() && Text()[0] == 'G'
  {
    CTextWhole(Text());
  }

  lemma ParsesWhenClean()
    ensures RequestParser.Parse(Text(), None, false) == RequestParser.Parsed(LINE, [])
    ensures !RequestParser.Parse(Text(), None, true).Parsed?
  {
    LineIsClean();
    ZeroIsRefused();
    TextIsPlain();
    RequestRoundTrip.ParseUndoesPrint(LINE, [], None, false);
    RequestRoundTrip.PrintedParses(LINE, [], None, true);
  }

  lemma NotRaw()
    ensures !NotHttp1(Text())
  {
    TextIsPlain();
    assert H2_PREFACE[0] == 'P';
  }

  lemma Judged()
    ensures Key(Clean()) == Text() == Key(Stale())
    ensures Judge(Clean()) == Passed(LINE) && Defined(Clean(), 100)
    ensures Judge(Stale()) == Unparsed
  {
    TextIsPlain();
    ParsesWhenClean();
    NotRaw();
    assert Text() + "" == Text();
  }

  /** The end server answers "x", which no rule refuses. */
  const CHUNKS: seq<Relay.Chunk> := [Relay.Chunk("x", 1)]
  const ROOM: CacheSpec.Limits := CacheSpec.Limits(500, 500)

  lemma AnswerIsFetched()
    ensures Relay.WellSized(CHUNKS, 100) && Relay.Handed(CHUNKS, (_, _) => false) == Some("x")
  {
    assert Relay.Joined(CHUNKS, 0) == "";
    assert Relay.Joined(CHUNKS, 1) == "x";
    assert Relay.Taken(CHUNKS, (_, _) => false, 0) == 1;
  }

  /** Adding the response to an empty cache and looking it up again. */
  lemma AddedIsFound(url: string)
    requires |url| == 28
    ensures var s := CacheSpec.Next(CacheSpec.START, CacheSpec.Add("x", 1, url, ROOM, 1, 1));
            CacheSpec.LookupReply(s.store.entries, url, 1).Hit?
  {
    CacheExamples.ShortIsCacheable("x");
    var add := CacheSpec.Add("x", 1, url, ROOM, 1, 1);
    assert CacheSpec.AddOutcome(CacheSpec.START, add).ok;
    CacheRuns.AddThenLookup(CacheSpec.START, add, [], 1);
  }

  lemma EmptyMisses(url: string, now: int)
    ensures CacheSpec.LookupReply([], url, now) == CacheSpec.Miss
    ensures CacheSpec.Run(CacheSpec.START, [CacheSpec.Lookup(url, now)]) == CacheSpec.START
  {
    CacheRuns.OneStep(CacheSpec.START, CacheSpec.Lookup(url, now));
  }

  /** On an empty cache a visit that may fetch does. */
  lemma MissFetches(w: World, v: Visit, now: int, max: nat)
    requires w.cache == CacheSpec.START && 0 in w.threads && w.threads[0] == Reading
    requires Defined(v, max) && Fetches(v)
    ensures Enabled(w, Ask(0, v, now), max)
    ensures Next(w, Ask(0, v, now), max) == w.(threads := w.threads[0 := Fetching(v)])
  {
    EmptyMisses(Key(v), now);
  }

  lemma CleanFetches()
    ensures Fetches(Clean())
  {
    Judged();
  }

  lemma AnswerAdds(w: World, v: Visit, answer: Action)
    requires 0 in w.threads && w.threads[0] == Fetching(v)
    requires answer == Answer(0, CHUNKS, Relay.ServerClosed, (_, _) => false, ROOM, 1, 1)
    ensures Enabled(w, answer, 100)
    ensures CacheSteps(w, answer, 100) == [CacheSpec.Add("x", 1, Key(v), ROOM, 1, 1)]
  {
    AnswerIsFetched();
  }

  lemma AnswerIsCached(w: World, v: Visit, answer: Action)
    requires w.cache == CacheSpec.START && 0 in w.threads && w.threads[0] == Fetching(v) && |Key(v)| == 28
    requires answer == Answer(0, CHUNKS, Relay.ServerClosed, (_, _) => false, ROOM, 1, 1)
    ensures Enabled(w, answer, 100)
    ensures CacheSpec.LookupReply(Next(w, answer, 100).cache.store.entries, Key(v), 1).Hit?
  {
    AnswerAdds(w, v, answer);
    FoundAfter(CacheSteps(w, answer, 100), Key(v));
  }

  lemma FoundAfter(steps: seq<CacheSpec.Step>, url: string)
    requires steps == [CacheSpec.Add("x", 1, url, ROOM, 1, 1)] && |url| == 28
    ensures CacheSpec.LookupReply(CacheSpec.Run(CacheSpec.START, steps).store.entries, url, 1).Hit?
  {
    CacheRuns.OneStep(CacheSpec.START, CacheSpec.Add("x", 1, url, ROOM, 1, 1));
    AddedIsFound(url);
  }

  lemma ConsAction(w: World, a: Action, acts: seq<Action>, max: nat)
    requires Enabled(w, a, max) && Runs(Next(w, a, max), acts, max)
    ensures Runs(w, [a] + acts, max) && Run(w, [a] + acts, max) == Run(Next(w, a, max), acts, max)
  {
    assert ([a] + acts)[1..] == acts;
  }

  /** Fetching `v` on an empty cache leaves its response there. */
  lemma FetchedIsFound(v: Visit) returns (acts: seq<Action>)
    requires Defined(v, 100) && Fetches(v) && |Key(v)| == 28
    ensures Runs(Start(1), acts, 100)
    ensures CacheSpec.LookupReply(Run(Start(1), acts, 100).cache.store.entries, Key(v), 1).Hit?
  {
    var enter, ask, answer := Enter(0), Ask(0, v, 1), Answer(0, CHUNKS, Relay.ServerClosed, (_, _) => false, ROOM, 1, 1);
    var w1 := Next(Start(1), enter, 100);
    MissFetches(w1, v, 1, 100);
    var w2 := Next(w1, ask, 100);
    AnswerIsCached(w2, v, answer);
    ConsAction(w2, answer, [], 100);
    ConsAction(w1, ask, [answer] + [], 100);
    ConsAction(Start(1), enter, [ask] + ([answer] + []), 100);
    acts := [enter] + ([ask] + ([answer] + []));
  }

  /** A run in which a visit that did not pass the checks, since it did not parse, hits. */
  lemma UncheckedHit() returns (acts: seq<Action>)
    ensures Runs(Start(1), acts, 100) && LooksUp(Stale()) && !GateLaws.Allowed(Stale())
    ensures ReplyTo(Run(Start(1), acts, 100), Stale(), 1).Hit?
  {
    Judged();
    GateLaws.PassedIsAllowed(Stale());
    CleanFetches();
    TextIsPlain();
    acts := FetchedIsFound(Clean());
  }
}
