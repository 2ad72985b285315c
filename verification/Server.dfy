/**
 Connection threads (`THREAD_ROUTINE`, src/Main.c:385-716) sharing the cache and the
 client semaphore.  Each action is one thread's progress up to its next critical section,
 so that the runs are all interleavings.
 */
module Server {
  import opened CStrings
  import opened Gate
  import CacheSpec
  import Relay

  // ---- the ways out of a thread ----

  /** The return paths of `THREAD_ROUTINE`, in source order. */
  datatype Exit =
    | RecvFailed       // src/Main.c:414-420
    | RawProtocol      // src/Main.c:453-457
    | NoMemory         // src/Main.c:480-486
    | AuthRefused      // src/Main.c:539-544
    | DomainRefused    // src/Main.c:558-563
    | UrlRefused       // src/Main.c:576-581
    | QuietDrop        // src/Main.c:630-635
    | Answered         // src/Main.c:613-713

  // ---- the machine ----

  /** Where a thread stands between taking a permit and giving it back. */
  datatype Phase =
    | Reading                   // holds a permit, has read nothing
    | Purging(visit: Visit)     // its lookup saw an expired entry
    | Fetching(visit: Visit)    // in `HandleRequest`
    | Leaving(exit: Exit)       // about to post the semaphore and return

  /** A response fetched: whose request it answers, what was received and how that ended. */
  datatype Fetch = Fetch(visit: Visit, chunks: seq<Relay.Chunk>, end: Relay.Ending, refused: Relay.Verdicts)

  /** The bytes an entry made of it holds. */
  function Data(f: Fetch): Option<string> {
    Relay.Cached(f.chunks, f.refused)
  }

  datatype World = World(cache: CacheSpec.State, permits: nat, threads: map<nat, Phase>, fetches: seq<Fetch>)

  datatype Action =
    | Enter(t: nat)                                           // sem_wait
    | HangUp(t: nat)                                          // the first recv fails
    | OutOfMemory(t: nat)                                     // no memory for REQUEST
    | Ask(t: nat, visit: Visit, now: int)                     // the gate and the lookup
    | EndPurge(t: nat)                                        // the purge of an expired entry
    | Fail(t: nat)                                            // HandleRequest gives up
    | Answer(t: nat, chunks: seq<Relay.Chunk>, end: Relay.Ending, refused: Relay.Verdicts, lim: CacheSpec.Limits, now: int, later: int)
    | Leave(t: nat)                                           // sem_post, on whichever return path
    | Admin(step: CacheSpec.Step)                             // another caller of the cache

  function Start(clients: nat): World {
    World(CacheSpec.START, clients, map[], [])
  }

  /** `AddCache` gets a length it does not read or write out of bounds for. */
  predicate Fits(cs: seq<Relay.Chunk>, refused: Relay.Verdicts) {
    Relay.Handed(cs, refused).Some? ==> Relay.Narrowed(Relay.Handed(cs, refused).value) != -1
  }

  predicate Enabled(w: World, a: Action, max: nat) {
    match a
    case Enter(t) => t !in w.threads && w.permits > 0
    case HangUp(t) => t in w.threads && w.threads[t].Reading?
    case OutOfMemory(t) => t in w.threads && w.threads[t].Reading?
    case Ask(t, v, _) => t in w.threads && w.threads[t].Reading? && Defined(v, max)
    case EndPurge(t) => t in w.threads && w.threads[t].Purging?
    case Fail(t) => t in w.threads && w.threads[t].Fetching?
    case Answer(t, cs, _, refused, _, _, _) =>
      t in w.threads && w.threads[t].Fetching? && Relay.WellSized(cs, max) && Fits(cs, refused)
    case Leave(t) => t in w.threads && w.threads[t].Leaving?
    case Admin(step) => step.Purge? || step.Clear? || step.SetPolicy?
  }

  /** The path a request takes that is not looked up, by its verdict. */
  function Turned(verdict: Verdict): Exit {
    match verdict
    case Dropped => RawProtocol
    case Unauthorised => AuthRefused
    case DomainBlocked => DomainRefused
    case UrlBlocked => UrlRefused
    case _ => Answered
  }

  /** A relative path that did not parse is dropped without an answer (src/Main.c:628). */
  predicate Quiet(verdict: Verdict, text: string) {
    verdict.Unparsed? && StartsAt(text, "GET /", 0) && !StartsAt(text, "GET /http", 0)
  }

  /** A miss is fetched, if the verdict on the request allows it. */
  function MissPhase(v: Visit, verdict: Verdict): Phase {
    if verdict.Passed? && CanFetch(verdict.line) then Fetching(v)
    else Leaving(if Quiet(verdict, Key(v)) then QuietDrop else Answered)
  }

  function AfterMiss(v: Visit): Phase {
    MissPhase(v, Judge(v))
  }

  function AfterReply(v: Visit, r: CacheSpec.Reply): Phase {
    match r
    case Hit(_) => Leaving(Answered)
    case Expired => Purging(v)
    case Miss => AfterMiss(v)
  }

  function ReplyTo(w: World, v: Visit, now: int): CacheSpec.Reply {
    CacheSpec.LookupReply(w.cache.store.entries, Key(v), now)
  }

  /** The call `AddCache(RESPONSE, RESPONSE_LENGTH, REQUEST)`. */
  function AddCall(data: string, key: string, lim: CacheSpec.Limits, now: int, later: int): CacheSpec.Step {
    CacheSpec.Add(data, Relay.Narrowed(data), key, lim, now, later)
  }

  /** The critical sections an action runs on the cache. */
  function CacheSteps(w: World, a: Action, max: nat): seq<CacheSpec.Step>
    requires Enabled(w, a, max)
  {
    match a
    case Ask(_, v, now) => if LooksUp(v) then [CacheSpec.Lookup(Key(v), now)] else []
    case EndPurge(t) => [CacheSpec.LatePurge(Key(w.threads[t].visit))]
    case Answer(t, cs, _, refused, lim, now, later) =>
      var d := Relay.Handed(cs, refused);
      if d.Some? then [AddCall(d.value, Key(w.threads[t].visit), lim, now, later)] else []
    case Admin(step) => [step]
    case _ => []
  }

  function PhaseAfter(w: World, a: Action, max: nat): Phase
    requires Enabled(w, a, max) && !a.Enter? && !a.Leave? && !a.Admin?
  {
    match a
    case HangUp(_) => Leaving(RecvFailed)
    case OutOfMemory(_) => Leaving(NoMemory)
    case Ask(_, v, now) => if LooksUp(v) then AfterReply(v, ReplyTo(w, v, now)) else Leaving(Turned(Judge(v)))
    case EndPurge(t) => AfterMiss(w.threads[t].visit)
    case _ => Leaving(Answered)
  }

  function Threads(w: World, a: Action, max: nat): map<nat, Phase>
    requires Enabled(w, a, max)
  {
    match a
    case Enter(t) => w.threads[t := Reading]
    case Leave(t) => w.threads - {t}
    case Admin(_) => w.threads
    case _ => w.threads[a.t := PhaseAfter(w, a, max)]
  }

  /** The semaphore: one wait, and one post (that every return path makes it is `ConnectionThread.Serve`). */
  function Permits(w: World, a: Action, max: nat): nat
    requires Enabled(w, a, max)
  {
    match a
    case Enter(_) => w.permits - 1
    case Leave(_) => w.permits + 1
    case _ => w.permits
  }

  function Next(w: World, a: Action, max: nat): World
    requires Enabled(w, a, max)
  {
    World(
      CacheSpec.Run(w.cache, CacheSteps(w, a, max)),
      Permits(w, a, max),
      Threads(w, a, max),
      if a.Answer? then w.fetches + [Fetch(w.threads[a.t].visit, a.chunks, a.end, a.refused)] else w.fetches)
  }

  predicate Runs(w: World, acts: seq<Action>, max: nat)
    decreases |acts|
  {
    acts == [] || (Enabled(w, acts[0], max) && Runs(Next(w, acts[0], max), acts[1..], max))
  }

  function Run(w: World, acts: seq<Action>, max: nat): World
    requires Runs(w, acts, max)
    decreases |acts|
  {
    if acts == [] then w else Run(Next(w, acts[0], max), acts[1..], max)
  }
}
