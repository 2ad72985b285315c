/**
 `THREAD_ROUTINE` (src/Main.c:385-716) on the actual cache, domain trie and semaphore: one
 uninterrupted call is a run of the machine in `Server`, posts the semaphore exactly once
 whichever way it returns, and answers the client as its verdict and the cache say.
 */
module ConnectionThread {
  import opened CStrings
  import opened RequestPrinter
  import opened Gate
  import opened Server
  import RequestParser
  import HeaderTable
  import BasicAuth
  import CacheSpec
  import CacheRuns
  import CacheStore
  import DomainTrie
  import Relay

  class Semaphore {
    var value: nat
    /** How often it has been posted. */
    ghost var posts: nat

    constructor (n: nat)
      ensures value == n && posts == 0
    {
      value, posts := n, 0;
    }

    /** `sem_wait`, which returns only when there is a permit. */
    method Wait()
      requires value > 0
      modifies this
      ensures value == old(value) - 1 && posts == old(posts)
    {
      value := value - 1;
    }

    /** `sem_post` */
    method Post()
      modifies this
      ensures value == old(value) + 1 && posts == old(posts) + 1
    {
      value, posts := value + 1, posts + 1;
    }
  }

  /**
   What a thread holds of what it opens or allocates: the client's socket, BUFFER, REQUEST,
   the request object, that object's protocol, host and port strings, and `HandleRequest`'s
   buffer, socket and RESPONSE.  Only what is held can be closed or freed.
   */
  datatype Ledger = Ledger(client: bool, buffer: bool, request: bool, parsed: bool, strings: bool,
                           handler: bool, server: bool, response: bool) {
    function CloseClient(): Ledger requires client { this.(client := false) }
    function AllocBuffer(): Ledger requires !buffer { this.(buffer := true) }
    function FreeBuffer(): Ledger requires buffer { this.(buffer := false) }
    function AllocRequest(): Ledger requires !request { this.(request := true) }
    function FreeRequest(): Ledger requires request { this.(request := false) }
    function CreateParsed(): Ledger requires !parsed { this.(parsed := true) }
    function DestroyParsed(): Ledger requires parsed { this.(parsed := false) }
    function AllocStrings(): Ledger requires !strings { this.(strings := true) }
    function AllocHandler(): Ledger requires !handler { this.(handler := true) }
    function FreeHandler(): Ledger requires handler { this.(handler := false) }
    function OpenServer(): Ledger requires !server { this.(server := true) }
    function CloseServer(): Ledger requires server { this.(server := false) }
    function AllocResponse(): Ledger requires !response { this.(response := true) }
    function FreeResponse(): Ledger requires response { this.(response := false) }
  }

  const NOTHING: Ledger := Ledger(false, false, false, false, false, false, false, false)
  const ACCEPTED: Ledger := NOTHING.(client := true)

  /** What a thread holds when it goes on to the lookup. */
  function Admitted(strings: bool): Ledger {
    Ledger(true, true, true, true, strings, false, false, false)
  }

  /** ... and when it has given back what it gives back. */
  function Remains(strings: bool, handler: bool): Ledger {
    NOTHING.(strings := strings, handler := handler)
  }

  /** How far `HandleRequest` gets (src/Main.c:157-179). */
  datatype Link = NoConnection | SendFailed | NoResponseBuffer | Serving

  /** What the end server, the client and the clock do; `counts` is what the sends of a replay return. */
  datatype Surroundings = Surroundings(
    now: int, link: Link, chunks: seq<Relay.Chunk>, end: Relay.Ending, refused: Relay.Verdicts,
    counts: nat -> int, lim: CacheSpec.Limits, stored: int, later: int)

  predicate WellBehaved(x: Surroundings, max: nat) {
    max >= 1 && Relay.WellSized(x.chunks, max) && Fits(x.chunks, x.refused)
  }

  /** What the client gets: what it took of an entry, or of a response and the refusal pages. */
  datatype Reply = Closed | Error(status: nat) | Replayed(bytes: string) | Relayed(bytes: string, pages: nat) | Tunnel

  /** A parsed request that missed (src/Main.c:641-684). */
  function Missed(line: RequestLine, x: Surroundings): Reply {
    if CanFetch(line) then
      if x.link.Serving? then Relayed(Relay.Delivered(x.chunks, x.refused), Relay.Pages(x.chunks, x.refused)) else Error(500)
    else if line.verb == "CONNECT" && x.link.Serving? then Tunnel
    else Error(500)
  }

  /** The whole answer to the request `text`, given the verdict on it and what the lookup finds. */
  function ReplyBy(verdict: Verdict, text: string, x: Surroundings, max: nat, r: CacheSpec.Reply): Reply
    requires max >= 1
  {
    match verdict
    case Dropped => Closed
    case Unauthorised => Error(407)
    case DomainBlocked => Error(403)
    case UrlBlocked => Error(403)
    case Unparsed =>
      if r.Hit? then Replayed(Relay.Replayed(r.entry.data, max, x.counts))
      else if Quiet(verdict, text) then Closed else Error(400)
    case Passed(line) =>
      if r.Hit? then Replayed(Relay.Replayed(r.entry.data, max, x.counts)) else Missed(line, x)
  }

  function ReplyFor(v: Visit, x: Surroundings, max: nat, r: CacheSpec.Reply): Reply
    requires max >= 1
  {
    ReplyBy(Judge(v), Key(v), x, max, r)
  }

  /** Some run of the threads leads from `w` to `w'`. */
  ghost predicate Reaches(w: World, w': World, max: nat) {
    exists acts :: Runs(w, acts, max) && Run(w, acts, max) == w'
  }

  lemma {:induction false} RunSnoc(w: World, acts: seq<Action>, a: Action, max: nat)
    requires Runs(w, acts, max) && Enabled(Run(w, acts, max), a, max)
    ensures Runs(w, acts + [a], max) && Run(w, acts + [a], max) == Next(Run(w, acts, max), a, max)
    decreases |acts|
  {
    var all := acts + [a];
    if acts == [] {
      assert all[1..] == [];
    } else {
      assert all[1..] == acts[1..] + [a];
      RunSnoc(Next(w, acts[0], max), acts[1..], a, max);
    }
  }

  lemma ReachesNext(w: World, w1: World, a: Action, max: nat)
    requires Reaches(w, w1, max) && Enabled(w1, a, max)
    ensures Reaches(w, Next(w1, a, max), max)
  {
    var acts :| Runs(w, acts, max) && Run(w, acts, max) == w1;
    RunSnoc(w, acts, a, max);
  }

  lemma ReachesSelf(w: World, max: nat)
    ensures Reaches(w, w, max)
  {
    assert Run(w, [], max) == w;
  }

  // ---- one thread's view of the machine ----

  /** `w`, reached from `w0`, is where the objects are, with this thread `t` in `phase`. */
  ghost predicate At(w0: World, w: World, s: CacheSpec.State, permits: nat, t: nat, phase: Phase, max: nat) {
    && Reaches(w0, w, max) && w.cache == s && w.permits == permits
    && t in w.threads && w.threads[t] == phase && w.threads - {t} == w0.threads
  }

  lemma Replaced(m: map<nat, Phase>, t: nat, p: Phase)
    ensures m[t := p] - {t} == m - {t}
  {
  }

  /** What an action of `t` that keeps its permit does. */
  lemma Moves(w0: World, w: World, s: CacheSpec.State, permits: nat, t: nat, phase: Phase, a: Action, max: nat)
    requires At(w0, w, s, permits, t, phase, max)
    requires !a.Enter? && !a.Leave? && !a.Admin? && a.t == t && Enabled(w, a, max)
    ensures At(w0, Next(w, a, max), CacheSpec.Run(s, CacheSteps(w, a, max)), permits, t, PhaseAfter(w, a, max), max)
  {
    ReachesNext(w0, w, a, max);
    Replaced(w.threads, t, PhaseAfter(w, a, max));
  }

  lemma Enters(w: World, t: nat, max: nat)
    requires t !in w.threads && w.permits > 0
    ensures At(w, Next(w, Server.Enter(t), max), w.cache, w.permits - 1, t, Reading, max)
  {
    ReachesSelf(w, max);
    ReachesNext(w, w, Server.Enter(t), max);
    Replaced(w.threads, t, Reading);
    assert w.threads - {t} == w.threads;
  }

  lemma Leaves(w0: World, w: World, s: CacheSpec.State, permits: nat, t: nat, exit: Exit, max: nat)
    requires At(w0, w, s, permits, t, Leaving(exit), max)
    ensures Enabled(w, Leave(t), max) && Reaches(w0, Next(w, Leave(t), max), max)
    ensures Next(w, Leave(t), max).threads == w0.threads
    ensures Next(w, Leave(t), max).cache == s && Next(w, Leave(t), max).permits == permits + 1
  {
    ReachesNext(w0, w, Leave(t), max);
  }

  lemma AskMoves(w0: World, w: World, s: CacheSpec.State, permits: nat, t: nat, v: Visit, now: int, max: nat)
    requires At(w0, w, s, permits, t, Reading, max) && Defined(v, max) && LooksUp(v)
    ensures Enabled(w, Ask(t, v, now), max)
    ensures At(w0, Next(w, Ask(t, v, now), max), CacheSpec.Next(s, CacheSpec.Lookup(Key(v), now)), permits, t,
               AfterReply(v, CacheSpec.LookupReply(s.store.entries, Key(v), now)), max)
  {
    Moves(w0, w, s, permits, t, Reading, Ask(t, v, now), max);
    CacheRuns.OneStep(s, CacheSpec.Lookup(Key(v), now));
  }

  lemma PurgeMoves(w0: World, w: World, s: CacheSpec.State, permits: nat, t: nat, v: Visit, max: nat)
    requires At(w0, w, s, permits, t, Purging(v), max)
    ensures Enabled(w, EndPurge(t), max)
    ensures At(w0, Next(w, EndPurge(t), max), CacheSpec.Next(s, CacheSpec.LatePurge(Key(v))), permits, t, AfterMiss(v), max)
  {
    Moves(w0, w, s, permits, t, Purging(v), EndPurge(t), max);
    CacheRuns.OneStep(s, CacheSpec.LatePurge(Key(v)));
  }

  function Stored(s: CacheSpec.State, v: Visit, x: Surroundings): CacheSpec.State {
    var d := Relay.Handed(x.chunks, x.refused);
    if d.Some? then CacheSpec.Next(s, AddCall(d.value, Key(v), x.lim, x.stored, x.later)) else s
  }

  lemma AnswerMoves(w0: World, w: World, s: CacheSpec.State, permits: nat, t: nat, v: Visit, x: Surroundings, max: nat)
    returns (w': World)
    requires At(w0, w, s, permits, t, Fetching(v), max) && WellBehaved(x, max)
    ensures At(w0, w', Stored(s, v, x), permits, t, Leaving(Answered), max)
  {
    var a := Answer(t, x.chunks, x.end, x.refused, x.lim, x.stored, x.later);
    Moves(w0, w, s, permits, t, Fetching(v), a, max);
    var d := Relay.Handed(x.chunks, x.refused);
    if d.Some? { CacheRuns.OneStep(s, AddCall(d.value, Key(v), x.lim, x.stored, x.later)); }
    w' := Next(w, a, max);
  }

  /** The moves of a call that ends before it looks anything up. */
  lemma EarlyMoves(w0: World, w: World, s: CacheSpec.State, permits: nat, t: nat, a: Action, exit: Exit, max: nat)
    requires At(w0, w, s, permits, t, Reading, max)
    requires && (a.HangUp? || a.OutOfMemory? || (a.Ask? && !LooksUp(a.visit)))
             && a.t == t && Enabled(w, a, max)
             && PhaseAfter(w, a, max) == Leaving(exit)
    ensures At(w0, Next(w, a, max), s, permits, t, Leaving(exit), max)
  {
    Moves(w0, w, s, permits, t, Reading, a, max);
  }

  // ---- the call, part by part ----

  /** `AddCache` on what was received, unless it was refused. */
  method Keep(v: Visit, x: Surroundings, data: Option<string>, cache: CacheStore.Cache)
    requires cache.Valid() && data == Relay.Handed(x.chunks, x.refused) && Fits(x.chunks, x.refused)
    modifies cache, cache.table, cache.table.slots, cache.lru, cache.table.nodes
    ensures cache.Valid() && cache.Abstract() == Stored(old(cache.Abstract()), v, x)
  {
    if data.Some? { AddTo(cache, data.value, Relay.Narrowed(data.value), Key(v), x.lim, x.stored, x.later); }
  }

  method AddTo(cache: CacheStore.Cache, data: string, size: int, url: string, lim: CacheSpec.Limits, now: int, later: int)
    requires cache.Valid() && size <= |data| && size != -1
    modifies cache, cache.table, cache.table.slots, cache.lru, cache.table.nodes
    ensures cache.Valid() && cache.Abstract() == CacheSpec.Next(old(cache.Abstract()), CacheSpec.Add(data, size, url, lim, now, later))
  {
    ghost var s, add := cache.Abstract(), CacheSpec.Add(data, size, url, lim, now, later);
    var ok := cache.Add(data, size, url, lim, now, later);
    AddIs(s, add, cache.Abstract(), ok);
  }

  lemma AddIs(s: CacheSpec.State, add: CacheSpec.Step, s': CacheSpec.State, ok: bool)
    requires add.Add? && CacheSpec.Added(s'.store, ok) == CacheSpec.AddOutcome(s, add) && s' == s.(store := s'.store)
    ensures s' == CacheSpec.Next(s, add)
  {
  }

  /** `HandleRequest` up to its receive loop: three ways to fail, each of which keeps the buffer (src/Main.c:118-179). */
  method Reach(link: Link, ledger: Ledger) returns (ok: bool, left: Ledger)
    requires !ledger.handler && !ledger.server && !ledger.response
    ensures ok <==> link.Serving?
    ensures left == ledger.(handler := true, server := ok, response := ok)
  {
    left := ledger.AllocHandler();
    if link.NoConnection? { return false, left; }
    left := left.OpenServer();
    if link.SendFailed? { return false, left.CloseServer(); }
    if link.NoResponseBuffer? { return false, left.CloseServer(); }
    return true, left.AllocResponse();
  }

  /** The end of `HandleRequest`, refused or not (src/Main.c:258-261, 280-283, 290-294). */
  method HangUpServer(ledger: Ledger) returns (left: Ledger)
    requires ledger.handler && ledger.server && ledger.response
    ensures left == ledger.(handler := false, server := false, response := false)
  {
    left := ledger.FreeHandler().FreeResponse().CloseServer();
  }

  /** `HandleRequest` and `AddCache` for a visit that may be fetched. */
  method Fetch(t: nat, v: Visit, x: Surroundings, cache: CacheStore.Cache, max: nat, ledger: Ledger,
               ghost w0: World, ghost w: World, ghost permits: nat)
    returns (reply: Reply, left: Ledger, ghost w': World)
    requires WellBehaved(x, max) && cache.Valid()
    requires !ledger.handler && !ledger.server && !ledger.response
    requires At(w0, w, cache.Abstract(), permits, t, Fetching(v), max)
    modifies cache, cache.table, cache.table.slots, cache.lru, cache.table.nodes
    ensures cache.Valid() && At(w0, w', cache.Abstract(), permits, t, Leaving(Answered), max)
    ensures reply == if x.link.Serving? then Relayed(Relay.Delivered(x.chunks, x.refused), Relay.Pages(x.chunks, x.refused)) else Error(500)
    ensures left == ledger.(handler := !x.link.Serving?)
  {
    var ok;
    ok, left := Reach(x.link, ledger);
    if !ok {
      Moves(w0, w, cache.Abstract(), permits, t, Fetching(v), Fail(t), max);
      return Error(500), left, Next(w, Fail(t), max);
    }
    reply, w' := Receive(t, v, x, cache, max, w0, w, permits);
    left := HangUpServer(left);
  }

  /** The receive loop of `HandleRequest` and `AddCache`. */
  method Receive(t: nat, v: Visit, x: Surroundings, cache: CacheStore.Cache, max: nat, ghost w0: World, ghost w: World, ghost permits: nat)
    returns (reply: Reply, ghost w': World)
    requires WellBehaved(x, max) && cache.Valid()
    requires At(w0, w, cache.Abstract(), permits, t, Fetching(v), max)
    modifies cache, cache.table, cache.table.slots, cache.lru, cache.table.nodes
    ensures cache.Valid() && At(w0, w', cache.Abstract(), permits, t, Leaving(Answered), max)
    ensures reply == Relayed(Relay.Delivered(x.chunks, x.refused), Relay.Pages(x.chunks, x.refused))
  {
    var delivered, pages, data := Relay.Handle(x.chunks, max, x.refused);
    w' := AnswerMoves(w0, w, cache.Abstract(), permits, t, v, x, max);
    Keep(v, x, data, cache);
    reply := Relayed(delivered, pages);
  }

  /** A parsed request that missed leaves `HandleRequest`'s buffer allocated. */
  predicate MissLeak(line: RequestLine, link: Link) {
    CanFetch(line) && !link.Serving?
  }

  /** A parsed request whose lookup returned NULL (src/Main.c:641-684). */
  method AfterNull(t: nat, v: Visit, line: RequestLine, x: Surroundings, cache: CacheStore.Cache, max: nat, ledger: Ledger,
                   ghost w0: World, ghost w: World, ghost permits: nat)
    returns (reply: Reply, left: Ledger, ghost w': World)
    requires WellBehaved(x, max) && cache.Valid()
    requires !ledger.handler && !ledger.server && !ledger.response
    requires At(w0, w, cache.Abstract(), permits, t, MissPhase(v, Passed(line)), max)
    modifies cache, cache.table, cache.table.slots, cache.lru, cache.table.nodes
    ensures cache.Valid() && At(w0, w', cache.Abstract(), permits, t, Leaving(Answered), max)
    ensures reply == Missed(line, x) && left == ledger.(handler := MissLeak(line, x.link))
  {
    w', left := w, ledger;
    if CanFetch(line) {
      reply, left, w' := Fetch(t, v, x, cache, max, ledger, w0, w, permits);
    } else if line.verb == "CONNECT" {
      reply := if x.link.Serving? then Tunnel else Error(500);
    } else {
      reply := Error(500);
    }
  }

  /** `FindCache` with its second critical section (src/cache.c:68-96). */
  method Find(t: nat, v: Visit, now: int, cache: CacheStore.Cache, max: nat, ghost w0: World, ghost w: World, ghost permits: nat)
    returns (r: CacheSpec.Reply, ghost w': World)
    requires cache.Valid() && Defined(v, max) && LooksUp(v)
    requires At(w0, w, cache.Abstract(), permits, t, Reading, max)
    modifies cache, cache.table, cache.table.slots, cache.lru, cache.table.nodes
    ensures cache.Valid() && cache.table.nodes <= old(cache.table.nodes)
    ensures r == CacheSpec.LookupReply(old(cache.Abstract()).store.entries, Key(v), now)
    ensures At(w0, w', cache.Abstract(), permits, t, if r.Hit? then Leaving(Answered) else AfterMiss(v), max)
  {
    AskMoves(w0, w, cache.Abstract(), permits, t, v, now, max);
    w' := Next(w, Ask(t, v, now), max);
    r := cache.Lookup(Key(v), now);
    if r.Expired? {
      PurgeMoves(w0, w', cache.Abstract(), permits, t, v, max);
      w' := Next(w', EndPurge(t), max);
      cache.LatePurge(Key(v));
    }
  }

  /** The exit a visit takes before its lookup, if any. */
  function EarlyExit(v: Visit, memory: bool): Option<Exit> {
    if NotHttp1(v.first) then Some(RawProtocol)
    else if !memory then Some(NoMemory)
    else if LooksUp(v) then None
    else Some(Turned(Judge(v)))
  }

  function ExitOf(verdict: Verdict): Option<Exit> {
    if verdict.Passed? then None else Some(Turned(verdict))
  }

  /** The three checks in their order, each with its own return path (src/Main.c:525-583). */
  method Checks(v: Visit, line: RequestLine, auth: Option<string>, trie: DomainTrie.Trie, sem: Semaphore, ledger: Ledger,
                ghost verdict: Verdict)
    returns (exit: Option<Exit>, reply: Reply, left: Ledger)
    requires trie.Valid() && trie.domains == v.rules.domains && ledger == Admitted(ledger.strings)
    requires verdict == JudgeParsed(v, line, auth)
    modifies sem
    ensures exit == ExitOf(verdict) && (exit.Some? ==> reply == Turnaway(verdict))
    ensures left == if exit.Some? then Remains(ledger.strings, false) else ledger
    ensures sem.value == old(sem.value) + (if exit.Some? then 1 else 0)
    ensures sem.posts == old(sem.posts) + (if exit.Some? then 1 else 0)
  {
    if v.rules.authOn {
      var ok := BasicAuth.Check(v.rules.usersLoaded, auth, v.rules.users, v.stray);
      if !ok {
        left := ledger.DestroyParsed().FreeBuffer().FreeRequest().CloseClient();
        sem.Post();  // src/Main.c:543
        return Some(AuthRefused), Error(407), left;
      }
    }
    if line.host.Some? && v.rules.filterOn {
      var blocked := trie.Lookup(line.host.value);
      if blocked {
        left := ledger.DestroyParsed().FreeBuffer().FreeRequest().CloseClient();
        sem.Post();  // src/Main.c:562
        return Some(DomainRefused), Error(403), left;
      }
    }
    if v.rules.filterOn && v.rules.urlBlocks(line.path) {
      left := ledger.DestroyParsed().FreeBuffer().FreeRequest().CloseClient();
      sem.Post();  // src/Main.c:580
      return Some(UrlRefused), Error(403), left;
    }
    return None, Closed, ledger;
  }

  /** The trace header, and the credentials (src/Main.c:513-529). */
  method Credentials(table: HeaderTable.Table, trace: string) returns (auth: Option<string>)
    requires table.Valid()
    modifies table, table.slots
    ensures auth == old(HeaderTable.Lookup(table.Headers(), "Proxy-Authorization"))
  {
    ghost var was := HeaderTable.Lookup(table.Headers(), "Proxy-Authorization");
    Trace(table, trace);
    auth := table.Get("Proxy-Authorization");
    assert auth == was;
  }

  /** What the call has found out when it goes on to the lookup. */
  predicate Cleared(verdict: Verdict, line: Option<RequestLine>) {
    (verdict.Unparsed? && line == None) || (verdict.Passed? && line == Some(verdict.line))
  }

  lemma JudgeIs(v: Visit, o: RequestParser.Outcome)
    requires !NotHttp1(v.first) && o == Parsed(v)
    ensures o.Parsed? ==> Judge(v) == JudgeParsed(v, o.line, HeaderTable.Lookup(o.headers, "Proxy-Authorization"))
    ensures !o.Parsed? ==> Judge(v) == Unparsed
  {
  }

  /** A call leaves the strings of its request allocated: it got to parse, and the parser made some. */
  predicate LeavesStrings(v: Visit, memory: bool) {
    memory && !NotHttp1(v.first) && RequestParser.AllocatesStrings(Key(v))
  }

  /** The parse, which allocates `strings` or not, and what the checks will say of it. */
  method ReadAndJudge(v: Visit, strings: bool, trace: string, ledger: Ledger)
    returns (line: Option<RequestLine>, auth: Option<string>, left: Ledger, ghost verdict: Verdict)
    requires !NotHttp1(v.first) && ledger == ACCEPTED.(buffer := true, request := true)
    ensures left == Admitted(strings) && verdict == Judge(v) && !verdict.Dropped?
    ensures verdict == if line == None then Unparsed else JudgeParsed(v, line.value, auth)
  {
    left := ledger.CreateParsed();
    var o, table := RequestParser.ReadRequest(Key(v), v.port0, v.einval);
    if strings { left := left.AllocStrings(); }
    JudgeIs(v, o);
    verdict := Judge(v);
    if !o.Parsed? { return None, None, left, verdict; }
    auth := Credentials(table, trace);
    line := Some(o.line);
  }

  /** The parse and the checks (src/Main.c:508-583). */
  method ParseAndCheck(v: Visit, strings: bool, trie: DomainTrie.Trie, sem: Semaphore, trace: string, ledger: Ledger)
    returns (exit: Option<Exit>, reply: Reply, line: Option<RequestLine>, left: Ledger, ghost verdict: Verdict)
    requires trie.Valid() && trie.domains == v.rules.domains && !NotHttp1(v.first)
    requires ledger == ACCEPTED.(buffer := true, request := true)
    modifies sem
    ensures left == if exit.Some? then Remains(strings, false) else Admitted(strings)
    ensures verdict == Judge(v) && !verdict.Dropped?
    ensures exit == if verdict.Unparsed? then None else ExitOf(verdict)
    ensures exit == None ==> Cleared(verdict, line)
    ensures exit.Some? ==> reply == Turnaway(verdict)
    ensures sem.value == old(sem.value) + (if exit.Some? then 1 else 0)
    ensures sem.posts == old(sem.posts) + (if exit.Some? then 1 else 0)
  {
    var auth;
    line, auth, left, verdict := ReadAndJudge(v, strings, trace, ledger);
    if line == None { return None, Closed, None, left, verdict; }
    exit, reply, left := Checks(v, line.value, auth, trie, sem, left, verdict);
  }

  lemma TurnedBy(v: Visit, verdict: Verdict)
    requires !NotHttp1(v.first) && verdict == Judge(v)
    ensures EarlyExit(v, true) == if verdict.Unparsed? then None else ExitOf(verdict)
  {
  }

  lemma RawIsDropped(v: Visit)
    requires NotHttp1(v.first)
    ensures Judge(v) == Dropped && Turnaway(Judge(v)) == Closed
  {
  }

  /** From the first bytes to the lookup, with the return paths on the way (src/Main.c:425-583). */
  method Admit(v: Visit, memory: bool, trie: DomainTrie.Trie, sem: Semaphore, trace: string, ledger: Ledger)
    returns (exit: Option<Exit>, reply: Reply, line: Option<RequestLine>, left: Ledger, ghost verdict: Verdict)
    requires trie.Valid() && trie.domains == v.rules.domains && ledger == ACCEPTED.(buffer := true)
    modifies sem
    ensures left.strings == LeavesStrings(v, memory)
    ensures left == if exit.Some? then Remains(left.strings, false) else Admitted(left.strings)
    ensures verdict == Judge(v) && exit == EarlyExit(v, memory) && (exit == None ==> Cleared(verdict, line))
    ensures exit.Some? ==> reply == if exit == Some(NoMemory) then Closed else Turnaway(verdict)
    ensures sem.value == old(sem.value) + (if exit.Some? then 1 else 0)
    ensures sem.posts == old(sem.posts) + (if exit.Some? then 1 else 0)
  {
    verdict := Judge(v);
    if NotHttp1(v.first) {
      RawIsDropped(v);
      left := ledger.CloseClient().FreeBuffer();
      sem.Post();  // src/Main.c:455
      return Some(RawProtocol), Closed, None, left, verdict;
    }
    if !memory {
      left := ledger.CloseClient().FreeBuffer();
      sem.Post();  // src/Main.c:484
      return Some(NoMemory), Closed, None, left, verdict;
    }
    var strings := RequestParser.AllocatesStrings(Key(v));
    exit, reply, line, left, verdict := ParseAndCheck(v, strings, trie, sem, trace, ledger.AllocRequest());
    TurnedBy(v, verdict);
  }

  /** Admission leaves the cache alone. */
  method Approach(v: Visit, memory: bool, trie: DomainTrie.Trie, sem: Semaphore, trace: string, ledger: Ledger, cache: CacheStore.Cache)
    returns (exit: Option<Exit>, reply: Reply, line: Option<RequestLine>, left: Ledger, ghost verdict: Verdict)
    requires trie.Valid() && trie.domains == v.rules.domains && ledger == ACCEPTED.(buffer := true) && cache.Valid()
    modifies sem
    ensures cache.Valid() && cache.Abstract() == old(cache.Abstract())
    ensures left.strings == LeavesStrings(v, memory)
    ensures left == if exit.Some? then Remains(left.strings, false) else Admitted(left.strings)
    ensures verdict == Judge(v) && exit == EarlyExit(v, memory) && (exit == None ==> Cleared(verdict, line))
    ensures exit.Some? ==> reply == if exit == Some(NoMemory) then Closed else Turnaway(verdict)
    ensures sem.value == old(sem.value) + (if exit.Some? then 1 else 0)
    ensures sem.posts == old(sem.posts) + (if exit.Some? then 1 else 0)
  {
    exit, reply, line, left, verdict := Admit(v, memory, trie, sem, trace, ledger);
  }

  /** The answer to a request that is turned away. */
  function Turnaway(verdict: Verdict): Reply {
    match verdict
    case Dropped => Closed
    case Unauthorised => Error(407)
    case _ => Error(403)
  }

  /** The exit after the lookup. */
  function LateExit(verdict: Verdict, text: string, r: CacheSpec.Reply): Exit {
    if !r.Hit? && Quiet(verdict, text) then QuietDrop else Answered
  }

  function FoundPhase(v: Visit, verdict: Verdict, r: CacheSpec.Reply): Phase {
    if r.Hit? then Leaving(Answered) else MissPhase(v, verdict)
  }

  /** What follows the lookup, up to the return path (src/Main.c:586-690). */
  method AfterFind(t: nat, v: Visit, line: Option<RequestLine>, x: Surroundings, cache: CacheStore.Cache, r: CacheSpec.Reply, max: nat,
                   ledger: Ledger, ghost verdict: Verdict, ghost w0: World, ghost w: World, ghost permits: nat)
    returns (reply: Reply, quiet: bool, left: Ledger, ghost w': World)
    requires WellBehaved(x, max) && cache.Valid() && Cleared(verdict, line)
    requires ledger == Admitted(ledger.strings)
    requires At(w0, w, cache.Abstract(), permits, t, FoundPhase(v, verdict, r), max)
    modifies cache, cache.table, cache.table.slots, cache.lru, cache.table.nodes
    ensures cache.Valid() && At(w0, w', cache.Abstract(), permits, t, Leaving(LateExit(verdict, Key(v), r)), max)
    ensures reply == ReplyBy(verdict, Key(v), x, max, r) && (quiet <==> LateExit(verdict, Key(v), r) == QuietDrop)
    ensures left == ledger.(handler := LateLeak(verdict, x.link, r), parsed := quiet)
  {
    if r.Hit? || line == None {
      reply, quiet, left := HitOrUnparsed(Key(v), x, r, max, ledger, verdict);
      return reply, quiet, left, w;
    }
    quiet := false;
    reply, left, w' := AfterNull(t, v, line.value, x, cache, max, ledger, w0, w, permits);
    left := left.DestroyParsed();
  }

  /** A hit, or a miss that did not parse (src/Main.c:586-639). */
  method HitOrUnparsed(text: string, x: Surroundings, r: CacheSpec.Reply, max: nat, ledger: Ledger, ghost verdict: Verdict)
    returns (reply: Reply, quiet: bool, left: Ledger)
    requires max >= 1 && ledger.parsed && (verdict.Unparsed? || (verdict.Passed? && r.Hit?))
    ensures reply == ReplyBy(verdict, text, x, max, r) && (quiet <==> LateExit(verdict, text, r) == QuietDrop)
    ensures left == ledger.(parsed := quiet)
  {
    if r.Hit? {
      var sent := Relay.Replay(r.entry.data, max, x.counts);
      return Replayed(Relay.JoinedTaken(sent, |sent|)), false, ledger.DestroyParsed();
    }
    quiet := StartsAt(text, "GET /", 0) && !StartsAt(text, "GET /http", 0);
    if quiet { return Closed, true, ledger; }
    return Error(400), false, ledger.DestroyParsed();
  }

  /** The part after the lookup leaves `HandleRequest`'s buffer allocated. */
  predicate LateLeak(verdict: Verdict, link: Link, r: CacheSpec.Reply) {
    !r.Hit? && verdict.Passed? && MissLeak(verdict.line, link)
  }

  /** From the lookup's reply to the end, with its two return paths (src/Main.c:586-713). */
  method Finish(t: nat, v: Visit, line: Option<RequestLine>, x: Surroundings, cache: CacheStore.Cache, sem: Semaphore,
                r: CacheSpec.Reply, max: nat, ledger: Ledger,
                ghost verdict: Verdict, ghost w0: World, ghost w: World, ghost permits: nat)
    returns (reply: Reply, exit: Exit, left: Ledger, ghost w': World)
    requires WellBehaved(x, max) && cache.Valid() && Cleared(verdict, line)
    requires ledger == Admitted(ledger.strings)
    requires At(w0, w, cache.Abstract(), permits, t, FoundPhase(v, verdict, r), max)
    modifies sem, cache, cache.table, cache.table.slots, cache.lru, cache.table.nodes
    ensures cache.Valid() && At(w0, w', cache.Abstract(), permits, t, Leaving(exit), max)
    ensures reply == ReplyBy(verdict, Key(v), x, max, r) && exit == LateExit(verdict, Key(v), r)
    ensures left == Remains(ledger.strings, LateLeak(verdict, x.link, r))
    ensures sem.value == old(sem.value) + 1 && sem.posts == old(sem.posts) + 1
  {
    var quiet;
    reply, quiet, left, w' := AfterFind(t, v, line, x, cache, r, max, ledger, verdict, w0, w, permits);
    exit, left := Depart(quiet, sem, left, cache);
  }

  /** Returning leaves the cache alone. */
  method Depart(quiet: bool, sem: Semaphore, ledger: Ledger, cache: CacheStore.Cache) returns (exit: Exit, left: Ledger)
    requires ledger.client && ledger.buffer && ledger.request && (quiet ==> ledger.parsed) && cache.Valid()
    modifies sem
    ensures cache.Valid() && cache.Abstract() == old(cache.Abstract())
    ensures left == ledger.(client := false, buffer := false, request := false, parsed := ledger.parsed && !quiet)
    ensures exit == if quiet then QuietDrop else Answered
    ensures sem.value == old(sem.value) + 1 && sem.posts == old(sem.posts) + 1
  {
    exit, left := Return(quiet, sem, ledger);
  }

  /** The two return paths after the lookup. */
  method Return(quiet: bool, sem: Semaphore, ledger: Ledger) returns (exit: Exit, left: Ledger)
    requires ledger.client && ledger.buffer && ledger.request && (quiet ==> ledger.parsed)
    modifies sem
    ensures left == ledger.(client := false, buffer := false, request := false, parsed := ledger.parsed && !quiet)
    ensures exit == if quiet then QuietDrop else Answered
    ensures sem.value == old(sem.value) + 1 && sem.posts == old(sem.posts) + 1
  {
    if quiet {
      left := ledger.CloseClient().FreeBuffer().FreeRequest().DestroyParsed();
      sem.Post();  // src/Main.c:634
      return QuietDrop, left;
    }
    left := ledger.CloseClient().FreeBuffer();
    sem.Post();  // src/Main.c:709
    return Answered, left.FreeRequest();
  }

  /** The action by which a visit leaves before its lookup. */
  function EarlyAction(t: nat, v: Visit, memory: bool, now: int): Action {
    if !NotHttp1(v.first) && !memory then OutOfMemory(t) else Ask(t, v, now)
  }

  lemma EarlyExits(w0: World, w: World, s: CacheSpec.State, permits: nat, t: nat, v: Visit, memory: bool, now: int, max: nat)
    requires At(w0, w, s, permits, t, Reading, max) && Defined(v, max) && EarlyExit(v, memory).Some?
    ensures Enabled(w, EarlyAction(t, v, memory, now), max)
    ensures At(w0, Next(w, EarlyAction(t, v, memory, now), max), s, permits, t, Leaving(EarlyExit(v, memory).value), max)
  {
    EarlyMoves(w0, w, s, permits, t, EarlyAction(t, v, memory, now), EarlyExit(v, memory).value, max);
  }

  /** The answer of a call that got its first bytes. */
  function Outcome(v: Visit, memory: bool, x: Surroundings, max: nat, r: CacheSpec.Reply): Reply
    requires max >= 1
  {
    if EarlyExit(v, memory) == Some(NoMemory) then Closed else ReplyFor(v, x, max, r)
  }

  /**
   A call leaves `HandleRequest`'s buffer allocated: the request is fetched, and connecting,
   sending it or allocating RESPONSE fails.
   */
  predicate LeavesHandler(v: Visit, memory: bool, link: Link, r: CacheSpec.Reply) {
    memory && Fetches(v) && !r.Hit? && !link.Serving?
  }

  /** How a call that got its first bytes ends: the answer, the return path and what stays allocated. */
  predicate Concluded(v: Visit, memory: bool, x: Surroundings, max: nat, r: CacheSpec.Reply, reply: Reply, exit: Exit, left: Ledger)
    requires max >= 1
  {
    && reply == Outcome(v, memory, x, max, r) && exit == ExitTaken(v, memory, r)
    && left == Remains(LeavesStrings(v, memory), LeavesHandler(v, memory, x.link, r))
  }

  lemma EndsEarly(v: Visit, memory: bool, x: Surroundings, max: nat, r: CacheSpec.Reply, reply: Reply, exit: Exit, left: Ledger)
    requires max >= 1 && EarlyExit(v, memory) == Some(exit) && left == Remains(LeavesStrings(v, memory), false)
    requires reply == if exit == NoMemory then Closed else Turnaway(Judge(v))
    ensures Concluded(v, memory, x, max, r, reply, exit, left)
  {
  }

  lemma GoesOn(v: Visit, memory: bool)
    requires EarlyExit(v, memory) == None
    ensures memory && LooksUp(v)
  {
  }

  lemma EndsLate(v: Visit, memory: bool, x: Surroundings, max: nat, r: CacheSpec.Reply, reply: Reply, exit: Exit, left: Ledger)
    requires max >= 1 && EarlyExit(v, memory) == None
    requires reply == ReplyBy(Judge(v), Key(v), x, max, r) && exit == LateExit(Judge(v), Key(v), r)
    requires left == Remains(LeavesStrings(v, memory), LateLeak(Judge(v), x.link, r))
    ensures Concluded(v, memory, x, max, r, reply, exit, left)
  {
    GoesOn(v, memory);
  }

  /** From the first bytes to the return, whichever it is. */
  method Inside(t: nat, v: Visit, memory: bool, x: Surroundings, trie: DomainTrie.Trie, cache: CacheStore.Cache, sem: Semaphore,
                max: nat, trace: string, ledger: Ledger, ghost w0: World, ghost w: World, ghost permits: nat)
    returns (reply: Reply, exit: Exit, left: Ledger, ghost w': World)
    requires WellBehaved(x, max) && cache.Valid() && Defined(v, max) && ledger == ACCEPTED.(buffer := true)
    requires trie.Valid() && trie.domains == v.rules.domains
    requires At(w0, w, cache.Abstract(), permits, t, Reading, max)
    modifies sem, cache, cache.table, cache.table.slots, cache.lru, cache.table.nodes
    ensures cache.Valid() && At(w0, w', cache.Abstract(), permits, t, Leaving(exit), max)
    ensures Concluded(v, memory, x, max, ReplyOf(old(cache.Abstract()), v, x), reply, exit, left)
    ensures sem.value == old(sem.value) + 1 && sem.posts == old(sem.posts) + 1
  {
    var early, line;
    ghost var verdict;
    ghost var s := cache.Abstract();
    early, reply, line, left, verdict := Approach(v, memory, trie, sem, trace, ledger, cache);
    if early.Some? {
      EarlyExits(w0, w, s, permits, t, v, memory, x.now, max);
      EndsEarly(v, memory, x, max, ReplyOf(s, v, x), reply, early.value, left);
      return reply, early.value, left, Next(w, EarlyAction(t, v, memory, x.now), max);
    }
    GoesOn(v, memory);
    reply, exit, left, w' := Late(t, v, line, x, cache, sem, max, left, verdict, w0, w, permits);
    EndsLate(v, memory, x, max, ReplyOf(s, v, x), reply, exit, left);
  }

  /** From the lookup to the return (src/Main.c:585-713). */
  method Late(t: nat, v: Visit, line: Option<RequestLine>, x: Surroundings, cache: CacheStore.Cache, sem: Semaphore, max: nat,
              ledger: Ledger, ghost verdict: Verdict, ghost w0: World, ghost w: World, ghost permits: nat)
    returns (reply: Reply, exit: Exit, left: Ledger, ghost w': World)
    requires WellBehaved(x, max) && cache.Valid() && Defined(v, max) && LooksUp(v)
    requires verdict == Judge(v) && Cleared(verdict, line) && ledger == Admitted(ledger.strings)
    requires At(w0, w, cache.Abstract(), permits, t, Reading, max)
    modifies sem, cache, cache.table, cache.table.slots, cache.lru, cache.table.nodes
    ensures cache.Valid() && At(w0, w', cache.Abstract(), permits, t, Leaving(exit), max)
    ensures reply == ReplyBy(verdict, Key(v), x, max, ReplyOf(old(cache.Abstract()), v, x))
    ensures exit == LateExit(verdict, Key(v), ReplyOf(old(cache.Abstract()), v, x))
    ensures left == Remains(ledger.strings, LateLeak(verdict, x.link, ReplyOf(old(cache.Abstract()), v, x)))
    ensures sem.value == old(sem.value) + 1 && sem.posts == old(sem.posts) + 1
  {
    var r;
    r, w' := Find(t, v, x.now, cache, max, w0, w, permits);
    reply, exit, left, w' := Finish(t, v, line, x, cache, sem, r, max, ledger, verdict, w0, w', permits);
  }

  /** What the lookup would find. */
  function ReplyOf(s: CacheSpec.State, v: Visit, x: Surroundings): CacheSpec.Reply {
    CacheSpec.LookupReply(s.store.entries, Key(v), x.now)
  }

  /** Between `sem_wait` and the return; `v` is NULL when the first `recv` fails. */
  method Body(t: nat, v: Option<Visit>, memory: bool, x: Surroundings, trie: DomainTrie.Trie, cache: CacheStore.Cache,
              sem: Semaphore, max: nat, trace: string, ledger: Ledger, ghost w0: World, ghost w: World, ghost permits: nat)
    returns (reply: Reply, exit: Exit, left: Ledger, ghost w': World)
    requires WellBehaved(x, max) && cache.Valid() && trie.Valid() && ledger == ACCEPTED
    requires v.Some? ==> Defined(v.value, max) && trie.domains == v.value.rules.domains
    requires At(w0, w, cache.Abstract(), permits, t, Reading, max)
    modifies sem, cache, cache.table, cache.table.slots, cache.lru, cache.table.nodes
    ensures cache.Valid() && At(w0, w', cache.Abstract(), permits, t, Leaving(exit), max)
    ensures reply == Result(v, memory, x, max, old(cache.Abstract())) && exit == ExitOfCall(v, memory, x, old(cache.Abstract()))
    ensures left == LeftBy(v, memory, x, old(cache.Abstract()))
    ensures sem.value == old(sem.value) + 1 && sem.posts == old(sem.posts) + 1
  {
    var l := ledger.AllocBuffer();
    if v == None {
      EarlyMoves(w0, w, cache.Abstract(), permits, t, HangUp(t), RecvFailed, max);
      l := l.CloseClient().FreeBuffer();
      sem.Post();  // src/Main.c:418
      return Closed, RecvFailed, l, Next(w, HangUp(t), max);
    }
    reply, exit, left, w' := Inside(t, v.value, memory, x, trie, cache, sem, max, trace, l, w0, w, permits);
  }

  /** The return path of a call that got its first bytes. */
  function ExitTaken(v: Visit, memory: bool, r: CacheSpec.Reply): Exit {
    if EarlyExit(v, memory).Some? then EarlyExit(v, memory).value else LateExit(Judge(v), Key(v), r)
  }

  function ExitOfCall(v: Option<Visit>, memory: bool, x: Surroundings, s: CacheSpec.State): Exit {
    if v == None then RecvFailed else ExitTaken(v.value, memory, ReplyOf(s, v.value, x))
  }

  /** The answer of the whole call. */
  function Result(v: Option<Visit>, memory: bool, x: Surroundings, max: nat, s: CacheSpec.State): Reply
    requires max >= 1
  {
    if v == None then Closed else Outcome(v.value, memory, x, max, ReplyOf(s, v.value, x))
  }

  /**
   What is left allocated.  Of all a thread opens and allocates only two things can be left:
   the strings of the request object, if and only if the parser got as far as to allocate
   them, and `HandleRequest`'s buffer, if and only if that fails before it receives.
   */
  function LeftBy(v: Option<Visit>, memory: bool, x: Surroundings, s: CacheSpec.State): Ledger {
    if v == None then NOTHING
    else Remains(LeavesStrings(v.value, memory), LeavesHandler(v.value, memory, x.link, ReplyOf(s, v.value, x)))
  }

  /** Waiting leaves the cache and the trie alone. */
  method Begin(sem: Semaphore, trie: DomainTrie.Trie, cache: CacheStore.Cache)
    requires cache.Valid() && trie.Valid() && sem.value > 0
    modifies sem
    ensures cache.Valid() && trie.Valid() && cache.Abstract() == old(cache.Abstract())
    ensures sem.value == old(sem.value) - 1 && sem.posts == old(sem.posts)
  {
    sem.Wait();
  }

  /**
   `THREAD_ROUTINE` on one connection: whichever way the call returns it has waited and
   posted once, nothing was closed or freed that was not held, what is left allocated is
   `LeftBy`, the cache is where a run of this thread's actions takes it, and the answer is
   the specified one.
   */
  method Serve(t: nat, v: Option<Visit>, memory: bool, x: Surroundings, trie: DomainTrie.Trie, cache: CacheStore.Cache,
               sem: Semaphore, max: nat, trace: string, ghost w0: World)
    returns (reply: Reply, exit: Exit, left: Ledger, ghost w': World)
    requires WellBehaved(x, max) && cache.Valid() && trie.Valid()
    requires v.Some? ==> Defined(v.value, max) && trie.domains == v.value.rules.domains
    requires w0.cache == cache.Abstract() && w0.permits == sem.value > 0 && t !in w0.threads
    modifies sem, cache, cache.table, cache.table.slots, cache.lru, cache.table.nodes
    ensures sem.value == old(sem.value) && sem.posts == old(sem.posts) + 1
    ensures cache.Valid() && Reaches(w0, w', max)
    ensures w'.cache == cache.Abstract() && w'.permits == sem.value && w'.threads == w0.threads
    ensures reply == Result(v, memory, x, max, w0.cache) && exit == ExitOfCall(v, memory, x, w0.cache)
    ensures left == LeftBy(v, memory, x, w0.cache)
  {
    Begin(sem, trie, cache);
    Enters(w0, t, max);
    reply, exit, left, w' := Body(t, v, memory, x, trie, cache, sem, max, trace, ACCEPTED, w0,
                                  Next(w0, Server.Enter(t), max), w0.permits - 1);
    Leaves(w0, w', cache.Abstract(), w0.permits - 1, t, exit, max);
    w' := Next(w', Leave(t), max);
  }
}
