/**
 Statements over every run of the connection threads (src/Main.c:385-716): permits are
 conserved, the cache sees a legal run of its own critical sections, and a hit replays
 bytes cached from a response to the same request text, after the checks passed.
 */
module ServerRuns {
  import opened CStrings
  import opened Gate
  import opened Server
  import GateLaws
  import CacheSpec
  import CacheRuns
  import Relay

  // ---- permits ----

  ghost predicate Conserved(w: World, clients: nat) {
    w.permits + |w.threads| == clients
  }

  lemma KeysUpdated(m: map<nat, Phase>, t: nat, p: Phase)
    ensures |m[t := p]| == |m| + (if t in m then 0 else 1)
    ensures t in m ==> |m - {t}| == |m| - 1
  {
    assert m[t := p].Keys == m.Keys + {t};
    assert (m - {t}).Keys == m.Keys - {t};
    assert |m[t := p]| == |m[t := p].Keys| && |m| == |m.Keys| && |m - {t}| == |(m - {t}).Keys|;
  }

  lemma StepConserved(w: World, a: Action, max: nat, clients: nat)
    requires Enabled(w, a, max) && Conserved(w, clients)
    ensures Conserved(Next(w, a, max), clients)
  {
    if a.Enter? {
      KeysUpdated(w.threads, a.t, Reading);
    } else if a.Leave? {
      KeysUpdated(w.threads, a.t, Reading);
    } else if !a.Admin? {
      KeysUpdated(w.threads, a.t, PhaseAfter(w, a, max));
    }
  }

  // ---- pending purges ----

  /** The threads about to purge `key`. */
  function PurgingOn(ts: map<nat, Phase>, key: string): set<nat> {
    set t | t in ts && ts[t].Purging? && Key(ts[t].visit) == key
  }

  /** The cache's pending purges are exactly those of the threads. */
  ghost predicate PendingKnown(w: World) {
    forall key :: w.cache.pending[key] == |PurgingOn(w.threads, key)|
  }

  lemma PurgingUpdated(ts: map<nat, Phase>, t: nat, p: Phase, key: string)
    ensures PurgingOn(ts[t := p], key) ==
            if p.Purging? && Key(p.visit) == key then PurgingOn(ts, key) + {t} else PurgingOn(ts, key) - {t}
  {
  }

  lemma PurgingRemoved(ts: map<nat, Phase>, t: nat, key: string)
    ensures PurgingOn(ts - {t}, key) == PurgingOn(ts, key) - {t}
  {
  }

  /** A thread that is about to purge has its key among the pending ones. */
  lemma PendingHasKey(w: World, t: nat)
    requires PendingKnown(w) && t in w.threads && w.threads[t].Purging?
    ensures Key(w.threads[t].visit) in w.cache.pending
  {
    var key := Key(w.threads[t].visit);
    assert t in PurgingOn(w.threads, key);
  }

  lemma StepLegal(w: World, a: Action, max: nat)
    requires Enabled(w, a, max) && PendingKnown(w)
    ensures CacheSpec.EnabledRun(w.cache, CacheSteps(w, a, max))
  {
    if a.EndPurge? { PendingHasKey(w, a.t); }
    if CacheSteps(w, a, max) != [] { CacheRuns.OneStep(w.cache, CacheSteps(w, a, max)[0]); }
  }

  /** Reading the request changes what `a.t` waits for, and the pending purges alike. */
  lemma AskPending(w: World, a: Action, max: nat, key: string)
    requires a.Ask? && Enabled(w, a, max) && PendingKnown(w)
    ensures Next(w, a, max).cache.pending[key] == |PurgingOn(Next(w, a, max).threads, key)|
  {
    AskCache(w, a, max);
    PurgingUpdated(w.threads, a.t, PhaseAfter(w, a, max), key);
    assert a.t !in PurgingOn(w.threads, key);
  }

  lemma AskCache(w: World, a: Action, max: nat)
    requires a.Ask? && Enabled(w, a, max)
    ensures Next(w, a, max).cache.pending ==
            w.cache.pending + if PhaseAfter(w, a, max).Purging? then multiset{Key(a.visit)} else multiset{}
    ensures PhaseAfter(w, a, max).Purging? ==> PhaseAfter(w, a, max).visit == a.visit
  {
    if LooksUp(a.visit) { CacheRuns.OneStep(w.cache, CacheSpec.Lookup(Key(a.visit), a.now)); }
  }

  lemma PurgePending(w: World, a: Action, max: nat, key: string)
    requires a.EndPurge? && Enabled(w, a, max) && PendingKnown(w)
    ensures Next(w, a, max).cache.pending[key] == |PurgingOn(Next(w, a, max).threads, key)|
  {
    var mine := Key(w.threads[a.t].visit);
    PurgingUpdated(w.threads, a.t, PhaseAfter(w, a, max), key);
    assert a.t in PurgingOn(w.threads, key) <==> mine == key;
    CacheRuns.OneStep(w.cache, CacheSpec.LatePurge(mine));
  }

  lemma OtherCache(w: World, a: Action, max: nat)
    requires !a.Ask? && !a.EndPurge? && Enabled(w, a, max)
    ensures Next(w, a, max).cache.pending == w.cache.pending
  {
    if CacheSteps(w, a, max) != [] { CacheRuns.OneStep(w.cache, CacheSteps(w, a, max)[0]); }
  }

  lemma OtherThreads(w: World, a: Action, max: nat, key: string)
    requires !a.Ask? && !a.EndPurge? && Enabled(w, a, max)
    ensures PurgingOn(Threads(w, a, max), key) == PurgingOn(w.threads, key)
  {
    if !a.Admin? {
      assert a.t !in PurgingOn(w.threads, key);
      if a.Leave? {
        PurgingRemoved(w.threads, a.t, key);
      } else {
        PurgingUpdated(w.threads, a.t, if a.Enter? then Reading else PhaseAfter(w, a, max), key);
      }
    }
  }

  lemma StepPending(w: World, a: Action, max: nat)
    requires Enabled(w, a, max) && PendingKnown(w)
    ensures PendingKnown(Next(w, a, max))
  {
    forall key
      ensures Next(w, a, max).cache.pending[key] == |PurgingOn(Next(w, a, max).threads, key)|
    {
      if a.Ask? { AskPending(w, a, max, key); }
      else if a.EndPurge? { PurgePending(w, a, max, key); }
      else {
        OtherCache(w, a, max);
        OtherThreads(w, a, max, key);
      }
    }
  }

  // ---- where the entries come from ----

  /** `data` was fetched for the request text `url`. */
  ghost predicate Sourced(fs: seq<Fetch>, url: string, data: string) {
    exists i :: 0 <= i < |fs| && Key(fs[i].visit) == url && Data(fs[i]) == Some(data)
  }

  ghost predicate AllSourced(w: World) {
    forall i {:trigger w.cache.store.entries[i]} :: 0 <= i < |w.cache.store.entries| ==>
      Sourced(w.fetches, w.cache.store.entries[i].url, w.cache.store.entries[i].data)
  }

  ghost predicate AllSized(w: World, max: nat) {
    forall i :: 0 <= i < |w.fetches| ==> Relay.WellSized(w.fetches[i].chunks, max)
  }

  lemma StepSized(w: World, a: Action, max: nat)
    requires Enabled(w, a, max) && AllSized(w, max)
    ensures AllSized(Next(w, a, max), max)
  {
  }

  /** Every thread that fetches, and every response fetched, belongs to a visit that passed the checks. */
  ghost predicate AllPassed(w: World) {
    && (forall t :: t in w.threads && w.threads[t].Fetching? ==> Fetches(w.threads[t].visit))
    && (forall i :: 0 <= i < |w.fetches| ==> Fetches(w.fetches[i].visit))
  }

  lemma PhasePassed(w: World, a: Action, max: nat)
    requires Enabled(w, a, max) && !a.Enter? && !a.Leave? && !a.Admin?
    ensures PhaseAfter(w, a, max).Fetching? ==> Fetches(PhaseAfter(w, a, max).visit)
  {
    match a
    case Ask(_, v, now) => ReplyPassed(v, ReplyTo(w, v, now));
    case EndPurge(t) => MissPassed(w.threads[t].visit);
    case _ =>
  }

  lemma MissPassed(v: Visit)
    ensures AfterMiss(v).Fetching? ==> AfterMiss(v).visit == v && Fetches(v)
  {
  }

  lemma ReplyPassed(v: Visit, r: CacheSpec.Reply)
    ensures AfterReply(v, r).Fetching? ==> AfterReply(v, r).visit == v && Fetches(v)
  {
    MissPassed(v);
  }

  lemma UpdatedPassed(ts: map<nat, Phase>, t: nat, p: Phase)
    requires forall u :: u in ts && ts[u].Fetching? ==> Fetches(ts[u].visit)
    requires p.Fetching? ==> Fetches(p.visit)
    ensures var us := ts[t := p]; forall u :: u in us && us[u].Fetching? ==> Fetches(us[u].visit)
  {
  }

  lemma ThreadsPassed(w: World, a: Action, max: nat)
    requires Enabled(w, a, max) && AllPassed(w)
    ensures var us := Threads(w, a, max); forall u :: u in us && us[u].Fetching? ==> Fetches(us[u].visit)
  {
    if a.Enter? {
      UpdatedPassed(w.threads, a.t, Reading);
    } else if !a.Leave? && !a.Admin? {
      PhasePassed(w, a, max);
      UpdatedPassed(w.threads, a.t, PhaseAfter(w, a, max));
    }
  }

  lemma FetchesPassed(w: World, a: Action, max: nat)
    requires Enabled(w, a, max) && AllPassed(w)
    ensures forall i :: 0 <= i < |Next(w, a, max).fetches| ==> Fetches(Next(w, a, max).fetches[i].visit)
  {
  }

  lemma StepPassed(w: World, a: Action, max: nat)
    requires Enabled(w, a, max) && AllPassed(w)
    ensures AllPassed(Next(w, a, max))
  {
    ThreadsPassed(w, a, max);
    FetchesPassed(w, a, max);
  }

  lemma StepSourced(w: World, a: Action, max: nat)
    requires Enabled(w, a, max) && AllSourced(w)
    ensures AllSourced(Next(w, a, max))
  {
    var w' := Next(w, a, max);
    var known := iset p: (string, string) | Sourced(w'.fetches, p.0, p.1);
    SourcedGrows(w, w');
    if CacheSteps(w, a, max) != [] {
      var step := CacheSteps(w, a, max)[0];
      CacheRuns.OneStep(w.cache, step);
      StepBrings(w, a, max);
      CacheRuns.StepKnown(w.cache, step, known);
    }
  }

  /** What an action's add brings in has been fetched. */
  lemma StepBrings(w: World, a: Action, max: nat)
    requires Enabled(w, a, max) && CacheSteps(w, a, max) != []
    ensures var step := CacheSteps(w, a, max)[0];
            step.Add? && step.size >= 0 ==>
              Sourced(Next(w, a, max).fetches, step.url, CacheSpec.Kept(step.data, step.size))
  {
    if a.Answer? && Relay.Cached(a.chunks, a.refused).Some? { AnswerSourced(w, a, max); }
  }

  lemma SourcedGrows(w: World, w': World)
    requires AllSourced(w) && w.fetches <= w'.fetches
    ensures CacheRuns.Known(w.cache.store.entries, iset p: (string, string) | Sourced(w'.fetches, p.0, p.1))
  {
    var es := w.cache.store.entries;
    forall k | 0 <= k < |es|
      ensures Sourced(w'.fetches, es[k].url, es[k].data)
    {
      var i :| 0 <= i < |w.fetches| && Key(w.fetches[i].visit) == es[k].url && Data(w.fetches[i]) == Some(es[k].data);
      assert w'.fetches[i] == w.fetches[i];
    }
  }

  lemma AnswerSourced(w: World, a: Action, max: nat)
    requires a.Answer? && Enabled(w, a, max) && Relay.Cached(a.chunks, a.refused).Some?
    ensures Sourced(Next(w, a, max).fetches, Key(w.threads[a.t].visit), Relay.Cached(a.chunks, a.refused).value)
  {
    var fs := Next(w, a, max).fetches;
    assert fs[|w.fetches|] == Fetch(w.threads[a.t].visit, a.chunks, a.end, a.refused);
  }

  // ---- every run ----

  ghost predicate Inv(w: World, max: nat, clients: nat) {
    Conserved(w, clients) && PendingKnown(w) && AllSourced(w) && AllPassed(w) && AllSized(w, max)
  }

  lemma {:induction false} RunInv(w: World, acts: seq<Action>, max: nat, clients: nat)
    requires Runs(w, acts, max) && Inv(w, max, clients)
    ensures Inv(Run(w, acts, max), max, clients)
    decreases |acts|
  {
    if acts != [] {
      StepConserved(w, acts[0], max, clients);
      StepPending(w, acts[0], max);
      StepSourced(w, acts[0], max);
      StepPassed(w, acts[0], max);
      StepSized(w, acts[0], max);
      RunInv(Next(w, acts[0], max), acts[1..], max, clients);
    }
  }

  lemma StartInv(max: nat, clients: nat)
    ensures Inv(Start(clients), max, clients)
  {
    forall key
      ensures PurgingOn(Start(clients).threads, key) == {}
    {
    }
  }

  /**
   Permits are conserved: the free permits and the threads inside add up to the number of
   clients in every run.
   */
  lemma {:induction false} PermitsAreConserved(acts: seq<Action>, max: nat, clients: nat)
    requires Runs(Start(clients), acts, max)
    ensures var w := Run(Start(clients), acts, max);
            w.permits + |w.threads| == clients && (w.threads == map[] <==> w.permits == clients)
  {
    StartInv(max, clients);
    RunInv(Start(clients), acts, max, clients);
  }

  /**
   In every run, whatever the rules were and however they changed: the rules in force let a
   visit through whose lookup hits -- its credentials, its host and its path -- exactly
   unless it failed to parse because `errno` was stale and its port zero.
   */
  lemma {:induction false} HitsPassTheChecks(acts: seq<Action>, max: nat, clients: nat, t: nat, v: Visit, now: int)
    requires Runs(Start(clients), acts, max)
    requires var w, ask := Run(Start(clients), acts, max), Ask(t, v, now);
             Enabled(w, ask, max) && CacheSteps(w, ask, max) != []
    requires ReplyTo(Run(Start(clients), acts, max), v, now).Hit?
    ensures GateLaws.Allowed(v) <==> !(v.einval && ZeroPort(Key(v)))
  {
    var f := HitIsFetched(acts, max, clients, v, now);
    SameTextParses(f.visit, v);
    PassedIsParsed(v);
    GateLaws.PassedIsAllowed(v);
  }

  /** A visit looks into the cache exactly when it does not parse or the rules let it through. */
  lemma LooksUpByTheRules(w: World, t: nat, v: Visit, now: int, max: nat)
    requires Enabled(w, Ask(t, v, now), max)
    ensures CacheSteps(w, Ask(t, v, now), max) ==
            if !GateLaws.Raw(v.first) && (Parsed(v).Parsed? ==> GateLaws.Allowed(v))
            then [CacheSpec.Lookup(Key(v), now)] else []
  {
    GateLaws.VerdictSays(v);
  }

  /**
   A hit's data are the cached bytes of a response fetched for the same request text by a
   visit whose own checks had passed.  If it was shorter than 2 GiB they are all that was
   received for it, and they are what that visit's client received if and only if every
   `send` to it took its whole chunk.  They are the whole response if and only if that is
   shorter than 2 GiB, no `send` failed before the last chunk and no `recv` lost a part.
   */
  lemma {:induction false} HitIsFetched(acts: seq<Action>, max: nat, clients: nat, v: Visit, now: int) returns (f: Fetch)
    requires Runs(Start(clients), acts, max)
    requires ReplyTo(Run(Start(clients), acts, max), v, now).Hit?
    ensures f in Run(Start(clients), acts, max).fetches && Key(f.visit) == Key(v) && Fetches(f.visit)
    ensures GateLaws.Allowed(f.visit)
    ensures var data := ReplyTo(Run(Start(clients), acts, max), v, now).entry.data;
            && Data(f) == Some(data)
            && (|Relay.Stored(f.chunks, f.refused)| < 0x8000_0000 ==>
                  && data == Relay.Stored(f.chunks, f.refused)
                  && (data == Relay.Delivered(f.chunks, f.refused) <==> Relay.AllTook(f.chunks, f.refused)))
            && (data == Relay.Response(f.chunks, f.end) <==>
                  && |Relay.Response(f.chunks, f.end)| < 0x8000_0000
                  && (forall k :: 0 <= k < |f.chunks| - 1 ==> Relay.Accepted(f.chunks[k]))
                  && Relay.Lost(f.end) == "")
  {
    var w := Run(Start(clients), acts, max);
    StartInv(max, clients);
    RunInv(Start(clients), acts, max, clients);
    var e := w.cache.store.entries[CacheSpec.Newest(w.cache.store.entries, Key(v))];
    assert Sourced(w.fetches, e.url, e.data);
    var i :| 0 <= i < |w.fetches| && Key(w.fetches[i].visit) == e.url && Data(w.fetches[i]) == Some(e.data);
    f := w.fetches[i];
    GateLaws.PassedIsAllowed(f.visit);
    if |Relay.Stored(f.chunks, f.refused)| < 0x8000_0000 {
      Relay.CachedIsDelivered(f.chunks, f.refused, max);
    }
    Relay.CachedIsWhole(f.chunks, f.end, f.refused, max);
  }

  // ---- the cache within the server ----

  function AllCacheSteps(w: World, acts: seq<Action>, max: nat): seq<CacheSpec.Step>
    requires Runs(w, acts, max)
    decreases |acts|
  {
    if acts == [] then [] else CacheSteps(w, acts[0], max) + AllCacheSteps(Next(w, acts[0], max), acts[1..], max)
  }

  lemma RunCons(s: CacheSpec.State, x: CacheSpec.Step, b: seq<CacheSpec.Step>)
    ensures CacheSpec.Run(s, [x] + b) == CacheSpec.Run(CacheSpec.Next(s, x), b)
    ensures CacheSpec.EnabledRun(s, [x] + b) <==>
            CacheSpec.Enabled(s, x) && CacheSpec.EnabledRun(CacheSpec.Next(s, x), b)
  {
    assert ([x] + b)[1..] == b;
  }

  /** An action's critical sections, at most one, before those of the rest of the run. */
  lemma StepThenRun(s: CacheSpec.State, a: seq<CacheSpec.Step>, b: seq<CacheSpec.Step>)
    requires |a| <= 1 && CacheSpec.EnabledRun(s, a) && CacheSpec.EnabledRun(CacheSpec.Run(s, a), b)
    ensures CacheSpec.Run(s, a + b) == CacheSpec.Run(CacheSpec.Run(s, a), b)
    ensures CacheSpec.EnabledRun(s, a + b)
  {
    if a == [] {
      assert a + b == b;
    } else {
      assert a == [a[0]];
      CacheRuns.OneStep(s, a[0]);
      RunCons(s, a[0], b);
    }
  }

  lemma {:induction false} RunIsCacheRun(w: World, acts: seq<Action>, max: nat)
    requires Runs(w, acts, max) && PendingKnown(w)
    ensures Run(w, acts, max).cache == CacheSpec.Run(w.cache, AllCacheSteps(w, acts, max))
    ensures CacheSpec.EnabledRun(w.cache, AllCacheSteps(w, acts, max))
    decreases |acts|
  {
    if acts != [] {
      var w' := Next(w, acts[0], max);
      StepLegal(w, acts[0], max);
      StepPending(w, acts[0], max);
      RunIsCacheRun(w', acts[1..], max);
      StepThenRun(w.cache, CacheSteps(w, acts[0], max), AllCacheSteps(w', acts[1..], max));
    }
  }

  /**
   Whatever the threads do, the cache goes through a legal run of its critical sections,
   a late purge only after its lookup: what holds of every cache run holds in the server.
   */
  lemma {:induction false} CacheRunInServer(acts: seq<Action>, max: nat, clients: nat)
    requires Runs(Start(clients), acts, max)
    ensures var steps := AllCacheSteps(Start(clients), acts, max);
            CacheSpec.EnabledRun(CacheSpec.START, steps) &&
            Run(Start(clients), acts, max).cache == CacheSpec.Run(CacheSpec.START, steps)
  {
    StartInv(max, clients);
    RunIsCacheRun(Start(clients), acts, max);
  }

  /**
   For one: at every point of every server run, whatever the limits, the byte counter is the
   sum over the live entries modulo 2^64, and the sum itself while they fit in memory.
   */
  lemma {:induction false} CounterInServer(acts: seq<Action>, max: nat, clients: nat)
    requires Runs(Start(clients), acts, max)
    ensures var s := Run(Start(clients), acts, max).cache.store;
            && s.size == CacheSpec.Total(s.entries) % WORD
            && (s.size == CacheSpec.Total(s.entries) <==> CacheSpec.Total(s.entries) < WORD)
  {
    CacheRunInServer(acts, max, clients);
    CacheRuns.CounterIsSumInEveryRun(AllCacheSteps(Start(clients), acts, max));
  }
}
