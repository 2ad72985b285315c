/**
 What holds of the cache in every run, that is, in every interleaving of the critical
 sections of any number of threads (src/cache.c).
 */
module CacheRuns {
  import opened CacheSpec
  import opened CStrings

  // ---- the byte counter ----

  /** The counter is the sum over the live entries, in unsigned arithmetic. */
  ghost predicate Congruent(s: Store) {
    s.size == Total(s.entries) % WORD
  }

  /** ... and the sum itself: the entries fit in the address space. */
  ghost predicate Counted(s: Store) {
    s.size == Total(s.entries) < WORD
  }

  lemma {:induction false} TotalConcat(a: seq<Entry>, b: seq<Entry>)
    ensures Total(a + b) == Total(a) + Total(b)
  {
    if a == [] {
      assert a + b == b;
    } else {
      assert (a + b)[1..] == a[1..] + b;
      TotalConcat(a[1..], b);
    }
  }

  lemma {:induction false} TotalDrop(es: seq<Entry>, k: nat)
    requires k < |es|
    ensures Total(es) == Total(Drop(es, k)) + Bytes(es[k])
  {
    if k == 0 {
      assert Drop(es, 0) == es[1..];
    } else {
      var t := es[1..];
      TotalDrop(t, k - 1);
      assert Drop(es, k)[0] == es[0];
      assert Drop(es, k)[1..] == Drop(t, k - 1);
    }
  }

  lemma TotalSnoc(es: seq<Entry>, e: Entry)
    ensures Total(es + [e]) == Total(es) + Bytes(e)
  {
    TotalConcat(es, [e]);
    assert [e][1..] == [];
  }

  /** Removing an entry never borrows: the counter covers the entry, and stays the sum. */
  lemma WithoutCounted(s: Store, k: nat)
    requires Counted(s) && k < |s.entries|
    ensures Bytes(s.entries[k]) <= s.size
    ensures Counted(Without(s, k)) && Without(s, k).size == s.size - Bytes(s.entries[k])
  {
    TotalDrop(s.entries, k);
  }

  lemma {:induction false} EvictedCounted(s: Store, policy: Policy, need: nat, limit: nat)
    requires Counted(s)
    ensures Counted(Evicted(s, policy, need, limit)) && Evicted(s, policy, need, limit).size <= s.size
    decreases |s.entries|
  {
    if Overfull(s, need, limit) && s.entries != [] {
      var v := Victim(s.entries, policy);
      WithoutCounted(s, v);
      EvictedCounted(Without(s, v), policy, need, limit);
    }
  }

  lemma SubtractMod(t: int, b: int)
    ensures ((t + b) % WORD - b) % WORD == t % WORD
  {
  }

  lemma AddMod(t: int, b: int)
    ensures (t % WORD + b % WORD) % WORD == (t + b) % WORD
  {
  }

  lemma WithoutCongruent(s: Store, k: nat)
    requires Congruent(s) && k < |s.entries|
    ensures Congruent(Without(s, k))
  {
    TotalDrop(s.entries, k);
    SubtractMod(Total(Drop(s.entries, k)), Bytes(s.entries[k]));
  }

  lemma {:induction false} EvictedCongruent(s: Store, policy: Policy, need: nat, limit: nat)
    requires Congruent(s)
    ensures Congruent(Evicted(s, policy, need, limit))
    decreases |s.entries|
  {
    if Overfull(s, need, limit) && s.entries != [] {
      var v := Victim(s.entries, policy);
      WithoutCongruent(s, v);
      EvictedCongruent(Without(s, v), policy, need, limit);
    }
  }

  lemma FilledCongruent(r: Store, e: Entry, limit: nat)
    requires Congruent(r)
    ensures Congruent(Filled(r, e, limit).store)
  {
    TotalSnoc(r.entries, e);
    AddMod(Total(r.entries), Bytes(e));
  }

  lemma AddCongruent(s: State, add: Step)
    requires add.Add? && Congruent(s.store)
    ensures Congruent(AddOutcome(s, add).store)
  {
    var need := Need(add.size, add.url);
    EvictedCongruent(s.store, s.policy, need, add.lim.maxCache);
    if add.size >= 0 {
      var e := AddedEntry(add);
      var r := Evicted(s.store, s.policy, Need(|e.data|, e.url), add.lim.maxCache);
      EvictedCongruent(s.store, s.policy, Need(|e.data|, e.url), add.lim.maxCache);
      FilledCongruent(r, e, add.lim.maxCache);
    }
  }

  lemma LookupTotal(es: seq<Entry>, policy: Policy, url: string, now: int)
    ensures Total(AfterLookup(es, policy, url, now)) == Total(es)
  {
    var k := Newest(es, url);
    if k >= 0 {
      var t := Touched(es[k], now);
      TotalDrop(es, k);
      TotalSnoc(Drop(es, k), t);
      TotalDrop(es[k := t], k);
      assert Drop(es[k := t], k) == Drop(es, k);
    }
  }

  lemma StepCongruent(s: State, step: Step)
    requires Congruent(s.store)
    ensures Congruent(Next(s, step).store)
  {
    match step
    case Lookup(url, now) => LookupTotal(s.store.entries, s.policy, url, now);
    case LatePurge(url) =>
      if Newest(s.store.entries, url) >= 0 { WithoutCongruent(s.store, Newest(s.store.entries, url)); }
    case Purge(url) =>
      if Newest(s.store.entries, url) >= 0 { WithoutCongruent(s.store, Newest(s.store.entries, url)); }
    case Clear =>
    case Add(_, _, _, _, _, _) => AddCongruent(s, step);
    case SetPolicy(_) =>
  }

  lemma {:induction false} RunCongruent(s: State, steps: seq<Step>)
    requires Congruent(s.store)
    ensures Congruent(Run(s, steps).store)
    decreases steps
  {
    if steps != [] {
      StepCongruent(s, steps[0]);
      RunCongruent(Next(s, steps[0]), steps[1..]);
    }
  }

  /**
   In every run, whatever the limits, the counter is the sum over the live entries modulo
   2^64; it is that sum exactly while the entries fit in the address space.
   */
  lemma {:induction false} CounterIsSumInEveryRun(steps: seq<Step>)
    ensures var s := Run(START, steps).store;
            && s.size == Total(s.entries) % WORD
            && (s.size == Total(s.entries) <==> Total(s.entries) < WORD)
            && (s.entries == [] ==> s.size == 0)
  {
    RunCongruent(START, steps);
    SumOrWrapped(Run(START, steps).store);
  }

  lemma SumOrWrapped(s: Store)
    requires Congruent(s)
    ensures s.size == Total(s.entries) <==> Total(s.entries) < WORD
  {
  }

  /** A cache limit that was configured non-negative, and an element in half the address space. */
  predicate Modest(step: Step) {
    step.Add? ==> step.lim.maxCache < 0x8000_0000_0000_0000 && Bytes(AddedEntry(step)) < 0x8000_0000_0000_0000
  }

  lemma AddModest(s: State, add: Step)
    requires add.Add? && Modest(add) && Counted(s.store) && s.store.size < 0x8000_0000_0000_0000
    ensures var r := AddOutcome(s, add).store; Counted(r) && r.size < 0x8000_0000_0000_0000
  {
    EvictedCounted(s.store, s.policy, Need(add.size, add.url), add.lim.maxCache);
    if add.size >= 0 {
      var e := AddedEntry(add);
      EvictedCounted(s.store, s.policy, Need(|e.data|, e.url), add.lim.maxCache);
      FilledModest(Evicted(s.store, s.policy, Need(|e.data|, e.url), add.lim.maxCache), e, add.lim.maxCache);
    }
  }

  lemma FilledModest(r: Store, e: Entry, limit: nat)
    requires Counted(r) && r.size < 0x8000_0000_0000_0000
    requires Bytes(e) < 0x8000_0000_0000_0000 && limit < 0x8000_0000_0000_0000
    ensures var f := Filled(r, e, limit).store; Counted(f) && f.size < 0x8000_0000_0000_0000
  {
    FilledDecides(r, e, limit);
    TotalSnoc(r.entries, e);
  }

  lemma StepModest(s: State, step: Step)
    requires Modest(step) && Counted(s.store) && s.store.size < 0x8000_0000_0000_0000
    ensures Counted(Next(s, step).store) && Next(s, step).store.size < 0x8000_0000_0000_0000
  {
    match step
    case Lookup(url, now) => LookupTotal(s.store.entries, s.policy, url, now);
    case LatePurge(url) =>
      if Newest(s.store.entries, url) >= 0 { WithoutCounted(s.store, Newest(s.store.entries, url)); }
    case Purge(url) =>
      if Newest(s.store.entries, url) >= 0 { WithoutCounted(s.store, Newest(s.store.entries, url)); }
    case Clear =>
    case Add(_, _, _, _, _, _) => AddModest(s, step);
    case SetPolicy(_) =>
  }

  /**
   With cache limits that were configured non-negative, whatever the element limit, the
   counter never wraps: it is the sum, and no subtraction borrows.
   */
  lemma {:induction false} CounterNeverWraps(s: State, steps: seq<Step>)
    requires Counted(s.store) && s.store.size < 0x8000_0000_0000_0000
    requires forall i :: 0 <= i < |steps| ==> Modest(steps[i])
    ensures Counted(Run(s, steps).store)
    decreases steps
  {
    if steps != [] {
      StepModest(s, steps[0]);
      CounterNeverWraps(Next(s, steps[0]), steps[1..]);
    }
  }

  // ---- eviction ----

  /** `k` is the length of the shortest prefix whose removal makes room. */
  ghost predicate ShortestPrefix(es: seq<Entry>, need: nat, limit: nat, k: nat) {
    && k <= |es|
    && (forall j :: 0 <= j < k ==> Total(es[j..]) + need > limit)
    && (k < |es| ==> Total(es[k..]) + need <= limit)
  }

  lemma LruVictimIsHead(es: seq<Entry>)
    requires es != []
    ensures Victim(es, LRU) == 0 && Drop(es, 0) == es[1..]
  {
    assert Score(es[0], LRU) == 0;
  }

  lemma ShortestPrefixStep(es: seq<Entry>, need: nat, limit: nat, k: nat)
    requires es != [] && ShortestPrefix(es[1..], need, limit, k)
    requires Total(es) + need > limit
    ensures ShortestPrefix(es, need, limit, k + 1)
    ensures es[1..][k..] == es[k + 1..]
  {
    forall j | 0 <= j < k + 1
      ensures Total(es[j..]) + need > limit
    {
      if j == 0 {
        assert es[0..] == es;
      } else {
        assert es[1..][j - 1..] == es[j..];
      }
    }
  }

  /** With the counter in range the unsigned test says what it seems to say. */
  lemma OverfullMeans(s: Store, need: nat, limit: nat)
    requires Counted(s) && Total(s.entries) + need < WORD
    ensures Overfull(s, need, limit) <==> Total(s.entries) + need > limit
  {
  }

  /** Under LRU the loop removes exactly the shortest list prefix that makes room. */
  lemma {:induction false} LruEvictsShortestPrefix(s: Store, need: nat, limit: nat) returns (k: nat)
    requires Counted(s) && Total(s.entries) + need < WORD
    ensures ShortestPrefix(s.entries, need, limit, k)
    ensures Evicted(s, LRU, need, limit) == Store(s.entries[k..], Total(s.entries[k..]))
    decreases |s.entries|
  {
    OverfullMeans(s, need, limit);
    if Total(s.entries) + need > limit && s.entries != [] {
      var r := Without(s, 0);
      LruVictimIsHead(s.entries);
      WithoutCounted(s, 0);
      assert Evicted(s, LRU, need, limit) == Evicted(r, LRU, need, limit);
      var m := LruEvictsShortestPrefix(r, need, limit);
      ShortestPrefixStep(s.entries, need, limit, m);
      return m + 1;
    } else {
      assert s.entries[0..] == s.entries;
      return 0;
    }
  }

  lemma {:induction false} EvictedMakesRoom(s: Store, policy: Policy, need: nat, limit: nat)
    requires Counted(s) && Total(s.entries) + need < WORD
    ensures var r := Evicted(s, policy, need, limit);
            && Counted(r)
            && (need <= limit ==> r.size + need <= limit)
            && (need > limit ==> r == EMPTY)
    decreases |s.entries|
  {
    if Overfull(s, need, limit) && s.entries != [] {
      var v := Victim(s.entries, policy);
      WithoutCounted(s, v);
      EvictedMakesRoom(Without(s, v), policy, need, limit);
    }
  }

  lemma NeedIsBytes(e: Entry)
    requires Bytes(e) < WORD
    ensures Need(|e.data|, e.url) == Bytes(e)
  {
  }

  lemma FilledDecides(r: Store, e: Entry, limit: nat)
    requires Counted(r) && Total(r.entries) + Bytes(e) < WORD
    ensures Filled(r, e, limit).ok <==> r.size + Bytes(e) <= limit
    ensures Filled(r, e, limit).ok ==> Filled(r, e, limit).store == Store(r.entries + [e], r.size + Bytes(e))
    ensures !Filled(r, e, limit).ok ==> Filled(r, e, limit).store == r
  {
  }

  lemma EvictedThenFilled(s: Store, policy: Policy, e: Entry, limit: nat)
    requires Counted(s) && Total(s.entries) + Bytes(e) < WORD
    ensures var f := Filled(Evicted(s, policy, Bytes(e), limit), e, limit);
            && (f.ok <==> Bytes(e) <= limit)
            && (if f.ok then f.store.size <= limit else f.store == EMPTY)
  {
    EvictedMakesRoom(s, policy, Bytes(e), limit);
    EvictedCounted(s, policy, Bytes(e), limit);
    FilledDecides(Evicted(s, policy, Bytes(e), limit), e, limit);
  }

  /** An add of an entry that is cacheable or not. */
  lemma EntryDecides(s: Store, policy: Policy, e: Entry, cacheable: bool, lim: Limits)
    requires Counted(s) && Total(s.entries) + Bytes(e) < WORD
    ensures var r := AfterAdd(s, policy, e, cacheable, lim);
            && (r.ok <==> cacheable && Bytes(e) <= lim.maxElement && Bytes(e) <= lim.maxCache)
            && (r.ok ==> r.store.size <= lim.maxCache)
            && (!r.ok ==> r.store == if !cacheable || Bytes(e) > lim.maxElement then s else EMPTY)
  {
    NeedIsBytes(e);
    if cacheable && Bytes(e) <= lim.maxElement {
      EvictedThenFilled(s, policy, e, lim.maxCache);
    }
  }

  /** When there is room already, an add only appends. */
  lemma AddAppends(s: Store, policy: Policy, e: Entry, lim: Limits)
    requires Counted(s) && s.size + Bytes(e) <= lim.maxCache < WORD && Bytes(e) <= lim.maxElement
    ensures AfterAdd(s, policy, e, true, lim) == Added(Store(s.entries + [e], s.size + Bytes(e)), true)
  {
    FilledDecides(s, e, lim.maxCache);
  }

  // ---- LRU order ----

  ghost predicate SortedByUptime(es: seq<Entry>) {
    forall i, j :: 0 <= i < j < |es| ==> es[i].uptime <= es[j].uptime
  }

  ghost predicate TouchedBy(es: seq<Entry>, t: int) {
    forall i :: 0 <= i < |es| ==> es[i].uptime <= t
  }

  /** A run that never leaves LRU and whose clock, starting at `t`, never goes back. */
  predicate LruRun(steps: seq<Step>, t: int)
    decreases steps
  {
    steps == [] ||
    match steps[0]
    case Lookup(_, now) => t <= now && LruRun(steps[1..], now)
    case Add(_, _, _, _, now, _) => t <= now && LruRun(steps[1..], now)
    case SetPolicy(p) => p == LRU && LruRun(steps[1..], t)
    case _ => LruRun(steps[1..], t)
  }

  function ClockAfter(step: Step, t: int): int {
    match step
    case Lookup(_, now) => now
    case Add(_, _, _, _, now, _) => now
    case _ => t
  }

  lemma {:induction false} EvictedSorted(s: Store, policy: Policy, need: nat, limit: nat, t: int)
    requires SortedByUptime(s.entries) && TouchedBy(s.entries, t)
    ensures var es := Evicted(s, policy, need, limit).entries; SortedByUptime(es) && TouchedBy(es, t)
    decreases |s.entries|
  {
    if Overfull(s, need, limit) && s.entries != [] {
      EvictedSorted(Without(s, Victim(s.entries, policy)), policy, need, limit, t);
    }
  }

  lemma DropSorted(es: seq<Entry>, k: nat, t: int)
    requires k < |es| && SortedByUptime(es) && TouchedBy(es, t)
    ensures SortedByUptime(Drop(es, k)) && TouchedBy(Drop(es, k), t)
  {
  }

  lemma LookupSorted(es: seq<Entry>, url: string, now: int, t: int)
    requires SortedByUptime(es) && TouchedBy(es, t) && t <= now
    ensures var es' := AfterLookup(es, LRU, url, now); SortedByUptime(es') && TouchedBy(es', now)
  {
    var k := Newest(es, url);
    if k >= 0 { DropSorted(es, k, t); }
  }

  lemma PurgeSorted(s: Store, url: string, t: int)
    requires SortedByUptime(s.entries) && TouchedBy(s.entries, t)
    ensures SortedByUptime(AfterPurge(s, url).entries) && TouchedBy(AfterPurge(s, url).entries, t)
  {
    var k := Newest(s.entries, url);
    if k >= 0 { DropSorted(s.entries, k, t); }
  }

  lemma AddSorted(s: Store, policy: Policy, e: Entry, cacheable: bool, lim: Limits, t: int)
    requires SortedByUptime(s.entries) && TouchedBy(s.entries, t) && t <= e.uptime
    ensures var es := AfterAdd(s, policy, e, cacheable, lim).store.entries;
            SortedByUptime(es) && TouchedBy(es, e.uptime)
  {
    EvictedSorted(s, policy, Need(|e.data|, e.url), lim.maxCache, t);
  }

  lemma StepSorted(s: State, step: Step, t: int)
    requires s.policy == LRU && SortedByUptime(s.store.entries) && TouchedBy(s.store.entries, t)
    requires t <= ClockAfter(step, t)
    ensures var es := Next(s, step).store.entries;
            SortedByUptime(es) && TouchedBy(es, ClockAfter(step, t))
  {
    match step
    case Lookup(url, now) => LookupSorted(s.store.entries, url, now, t);
    case LatePurge(url) => PurgeSorted(s.store, url, t);
    case Purge(url) => PurgeSorted(s.store, url, t);
    case Clear =>
    case Add(data, size, url, lim, now, later) =>
      if size >= 0 {
        AddSorted(s.store, s.policy, AddedEntry(step), !Uncacheable(data), lim, t);
      } else {
        EvictedSorted(s.store, s.policy, Need(size, url), lim.maxCache, t);
      }
    case SetPolicy(_) =>
  }

  lemma {:induction false} RunSorted(s: State, steps: seq<Step>, t: int)
    requires s.policy == LRU && SortedByUptime(s.store.entries) && TouchedBy(s.store.entries, t)
    requires LruRun(steps, t)
    ensures Run(s, steps).policy == LRU && SortedByUptime(Run(s, steps).store.entries)
    decreases steps
  {
    if steps != [] {
      StepSorted(s, steps[0], t);
      RunSorted(Next(s, steps[0]), steps[1..], ClockAfter(steps[0], t));
    }
  }

  lemma HeadIsLeastRecent(es: seq<Entry>)
    requires es != [] && SortedByUptime(es)
    ensures forall i :: 0 <= i < |es| ==> es[Victim(es, LRU)].uptime <= es[i].uptime
  {
    LruVictimIsHead(es);
  }

  /** Staying on LRU, the entry evicted next is one that nobody has touched for longest. */
  lemma {:induction false} LruVictimIsLeastRecent(steps: seq<Step>, t: int)
    requires LruRun(steps, t)
    ensures var s := Run(START, steps);
            && s.policy == LRU && SortedByUptime(s.store.entries)
            && (s.store.entries != [] ==>
                  var v := Victim(s.store.entries, s.policy);
                  forall i :: 0 <= i < |s.store.entries| ==> s.store.entries[v].uptime <= s.store.entries[i].uptime)
  {
    RunSorted(START, steps, t);
    var es := Run(START, steps).store.entries;
    if es != [] { HeadIsLeastRecent(es); }
  }

  // ---- what a lookup finds ----

  function Current(es: seq<Entry>, url: string): Option<Entry> {
    var k := Newest(es, url);
    if k == -1 then None else Some(es[k])
  }

  /** Any entry for `url` with none after it is the newest. */
  lemma CurrentIs(es: seq<Entry>, url: string, k: nat)
    requires k < |es| && es[k].url == url && (forall j :: k < j < |es| ==> es[j].url != url)
    ensures Newest(es, url) == k && Current(es, url) == Some(es[k])
  {
  }

  lemma DropAt(es: seq<Entry>, v: nat, j: nat)
    requires v < |es| && j < |es| - 1
    ensures Drop(es, v)[j] == es[if j < v then j else j + 1]
  {
  }

  lemma CurrentDrop(es: seq<Entry>, url: string, v: nat)
    requires v < |es| && Newest(es, url) != -1 && v != Newest(es, url)
    ensures Current(Drop(es, v), url) == Current(es, url)
  {
    var k := Newest(es, url);
    var k' := if v < k then k - 1 else k;
    DropAt(es, v, k');
    forall j | k' < j < |Drop(es, v)|
      ensures Drop(es, v)[j].url != url
    {
      DropAt(es, v, j);
    }
    CurrentIs(Drop(es, v), url, k');
  }

  lemma NoneDrop(es: seq<Entry>, url: string, v: nat)
    requires v < |es| && Newest(es, url) == -1
    ensures Newest(Drop(es, v), url) == -1
  {
  }

  lemma {:induction false} EvictedWithin(s: Store, policy: Policy, need: nat, limit: nat)
    ensures forall e :: e in Evicted(s, policy, need, limit).entries ==> e in s.entries
    decreases |s.entries|
  {
    if Overfull(s, need, limit) && s.entries != [] {
      EvictedWithin(Without(s, Victim(s.entries, policy)), policy, need, limit);
    }
  }

  /** The victim has no twin that would survive it as the newest entry of its URL. */
  lemma EvictedNewestHasNoTwin(es: seq<Entry>, policy: Policy, url: string)
    requires es != [] && Victim(es, policy) == Newest(es, url)
    ensures es[Newest(es, url)] !in Drop(es, Newest(es, url))
  {
    var v := Victim(es, policy);
    forall j | 0 <= j < |es| && j != v
      ensures es[j] != es[v]
    {
    }
    forall i | 0 <= i < |Drop(es, v)|
      ensures Drop(es, v)[i] != es[v]
    {
      assert Drop(es, v)[i] == es[if i < v then i else i + 1];
    }
  }

  /** A lookup changes through eviction only if the entry it would return was evicted. */
  lemma {:induction false} EvictionKeepsLookup(s: Store, policy: Policy, need: nat, limit: nat, url: string)
    requires Newest(s.entries, url) >= 0
    requires s.entries[Newest(s.entries, url)] in Evicted(s, policy, need, limit).entries
    ensures Current(Evicted(s, policy, need, limit).entries, url) == Current(s.entries, url)
    decreases |s.entries|
  {
    if Overfull(s, need, limit) && s.entries != [] {
      var v := Victim(s.entries, policy);
      EvictedWithin(Without(s, v), policy, need, limit);
      if v == Newest(s.entries, url) {
        EvictedNewestHasNoTwin(s.entries, policy, url);
        assert false;
      } else {
        CurrentDrop(s.entries, url, v);
        EvictionKeepsLookup(Without(s, v), policy, need, limit, url);
      }
    }
  }

  /** No eviction makes a URL appear. */
  lemma {:induction false} EvictionAddsNothing(s: Store, policy: Policy, need: nat, limit: nat, url: string)
    requires Newest(s.entries, url) == -1
    ensures Newest(Evicted(s, policy, need, limit).entries, url) == -1
  {
    EvictedWithin(s, policy, need, limit);
    var es := Evicted(s, policy, need, limit).entries;
    forall k | 0 <= k < |es|
      ensures es[k].url != url
    {
      assert es[k] in s.entries;
    }
  }

  // ---- superseded responses ----

  /** The newest entry for `url` scores at least as high as every older one. */
  predicate Outlives(es: seq<Entry>, policy: Policy, url: string) {
    forall j {:trigger es[j]} :: 0 <= j < Newest(es, url) && es[j].url == url ==>
      Score(es[j], policy) <= Score(es[Newest(es, url)], policy)
  }

  /** After the eviction a lookup of `url` gives what it gave before, or nothing. */
  predicate NotResurfaced(s: Store, policy: Policy, need: nat, limit: nat, url: string) {
    var c := Current(Evicted(s, policy, need, limit).entries, url);
    c == None || c == Current(s.entries, url)
  }

  /** What the newest entry becomes when another entry is dropped. */
  lemma NewestDropped(es: seq<Entry>, url: string, v: nat)
    requires v < |es| && Newest(es, url) >= 0 && v != Newest(es, url)
    ensures var k := Newest(es, url); Newest(Drop(es, v), url) == if v < k then k - 1 else k
  {
    var k := Newest(es, url);
    var k' := if v < k then k - 1 else k;
    DropAt(es, v, k');
    forall j | k' < j < |Drop(es, v)|
      ensures Drop(es, v)[j].url != url
    {
      DropAt(es, v, j);
    }
    CurrentIs(Drop(es, v), url, k');
  }

  lemma OutlivesDropped(es: seq<Entry>, policy: Policy, url: string, v: nat)
    requires v < |es| && Newest(es, url) >= 0 && v != Newest(es, url) && Outlives(es, policy, url)
    ensures Outlives(Drop(es, v), policy, url)
  {
    NewestDropped(es, url, v);
    var d := Drop(es, v);
    DropAt(es, v, Newest(d, url));
    forall j | 0 <= j < Newest(d, url) && d[j].url == url
      ensures Score(d[j], policy) <= Score(d[Newest(d, url)], policy)
    {
      DropAt(es, v, j);
    }
  }

  /** An entry that outlives the older ones of its URL is the last of them when it is evicted. */
  lemma VictimIsLast(es: seq<Entry>, policy: Policy, url: string)
    requires es != [] && Victim(es, policy) == Newest(es, url) && Outlives(es, policy, url)
    ensures Newest(Drop(es, Victim(es, policy)), url) == -1
  {
    var v := Victim(es, policy);
    var d := Drop(es, v);
    forall j | 0 <= j < |d|
      ensures d[j].url != url
    {
      DropAt(es, v, j);
    }
  }

  lemma {:induction false} OutlivingNeverResurfaces(s: Store, policy: Policy, need: nat, limit: nat, url: string)
    requires Outlives(s.entries, policy, url)
    ensures NotResurfaced(s, policy, need, limit, url)
    decreases |s.entries|
  {
    if Overfull(s, need, limit) && s.entries != [] {
      var v := Victim(s.entries, policy);
      var r := Without(s, v);
      if Newest(s.entries, url) == -1 {
        EvictionAddsNothing(s, policy, need, limit, url);
      } else if v == Newest(s.entries, url) {
        VictimIsLast(s.entries, policy, url);
        EvictionAddsNothing(r, policy, need, limit, url);
      } else {
        OutlivesDropped(s.entries, policy, url, v);
        CurrentDrop(s.entries, url, v);
        OutlivingNeverResurfaces(r, policy, need, limit, url);
      }
    }
  }

  /** Evicting exactly the newest entry of a URL that has an older one brings that one back. */
  lemma EvictedNewestResurfaces(s: Store, policy: Policy, need: nat, url: string, j: nat)
    requires Counted(s) && Total(s.entries) + need < WORD
    requires s.entries != [] && Victim(s.entries, policy) == Newest(s.entries, url)
    requires j < Newest(s.entries, url) && s.entries[j].url == url
    ensures var limit := Total(Drop(s.entries, Newest(s.entries, url))) + need;
            limit < Total(s.entries) + need && !NotResurfaced(s, policy, need, limit, url)
  {
    EvictsJustOne(s, policy, need);
    OlderRemains(s.entries, policy, url, j);
  }

  /** A limit at which the loop stops after its first victim. */
  lemma EvictsJustOne(s: Store, policy: Policy, need: nat)
    requires Counted(s) && Total(s.entries) + need < WORD && s.entries != []
    ensures var v := Victim(s.entries, policy); var limit := Total(Drop(s.entries, v)) + need;
            limit < Total(s.entries) + need && Evicted(s, policy, need, limit) == Without(s, v)
  {
    var v := Victim(s.entries, policy);
    var r, limit := Without(s, v), Total(Drop(s.entries, v)) + need;
    TotalDrop(s.entries, v);
    WithoutCounted(s, v);
    OverfullMeans(s, need, limit);
    OverfullMeans(r, need, limit);
    EvictedStep(s, policy, need, limit);
    EvictedDone(r, policy, need, limit);
  }

  lemma OlderRemains(es: seq<Entry>, policy: Policy, url: string, j: nat)
    requires es != [] && Victim(es, policy) == Newest(es, url) && j < Newest(es, url) && es[j].url == url
    ensures var c := Current(Drop(es, Newest(es, url)), url); c != None && c != Current(es, url)
  {
    var k := Newest(es, url);
    var d := Drop(es, k);
    DropAt(es, k, j);
    EvictedNewestHasNoTwin(es, policy, url);
    assert Newest(d, url) >= 0;
    assert d[Newest(d, url)] in d;
  }

  /** Where an older entry scores higher there is a limit at which it comes back. */
  lemma {:induction false} HigherScoreResurfaces(s: Store, policy: Policy, need: nat, url: string, j: nat) returns (limit: nat)
    requires Counted(s) && Total(s.entries) + need < WORD
    requires j < Newest(s.entries, url) && s.entries[j].url == url
    requires Score(s.entries[j], policy) > Score(s.entries[Newest(s.entries, url)], policy)
    ensures limit < Total(s.entries) + need && !NotResurfaced(s, policy, need, limit, url)
    decreases |s.entries|
  {
    var es, k, v := s.entries, Newest(s.entries, url), Victim(s.entries, policy);
    if v == k {
      EvictedNewestResurfaces(s, policy, need, url, j);
      return Total(Drop(es, k)) + need;
    }
    HigherScoreStays(es, policy, url, j, v);
    WithoutCounted(s, v);
    TotalDrop(es, v);
    limit := HigherScoreResurfaces(Without(s, v), policy, need, url, if v < j then j - 1 else j);
    CurrentDrop(es, url, v);
    ResurfacesLater(s, policy, need, limit, url);
  }

  /** Dropping another entry leaves the older entry's lead. */
  lemma HigherScoreStays(es: seq<Entry>, policy: Policy, url: string, j: nat, v: nat)
    requires j < Newest(es, url) && es[j].url == url && v < |es| && v != Newest(es, url) && v != j
    requires Score(es[j], policy) > Score(es[Newest(es, url)], policy)
    ensures var d, j' := Drop(es, v), if v < j then j - 1 else j;
            j' < Newest(d, url) && d[j'].url == url && Score(d[j'], policy) > Score(d[Newest(d, url)], policy)
  {
    NewestDropped(es, url, v);
    DropAt(es, v, if v < j then j - 1 else j);
    DropAt(es, v, Newest(Drop(es, v), url));
  }

  lemma ResurfacesLater(s: Store, policy: Policy, need: nat, limit: nat, url: string)
    requires Counted(s) && limit < Total(s.entries) + need < WORD && s.entries != []
    requires var v := Victim(s.entries, policy);
             && Current(Drop(s.entries, v), url) == Current(s.entries, url)
             && !NotResurfaced(Without(s, v), policy, need, limit, url)
    ensures !NotResurfaced(s, policy, need, limit, url)
  {
    OverfullMeans(s, need, limit);
    EvictedStep(s, policy, need, limit);
  }

  /** The least ELEMENT_SIZE there is. */
  const LEAST: nat := NODE_BYTES + 1

  /**
   Under every policy: no add of any size under any limit brings a superseded response of
   `url` back, if and only if its newest entry scores at least as high as the older ones.
   */
  lemma {:induction false} NeverResurfaces(s: Store, policy: Policy, url: string)
    requires Counted(s) && Total(s.entries) + LEAST < WORD
    ensures (forall need: nat, limit: nat :: need >= LEAST ==> NotResurfaced(s, policy, need, limit, url))
            <==> Outlives(s.entries, policy, url)
  {
    if Outlives(s.entries, policy, url) {
      forall need: nat, limit: nat | need >= LEAST
        ensures NotResurfaced(s, policy, need, limit, url)
      {
        OutlivingNeverResurfaces(s, policy, need, limit, url);
      }
    } else {
      var j :| 0 <= j < Newest(s.entries, url) && s.entries[j].url == url &&
               Score(s.entries[j], policy) > Score(s.entries[Newest(s.entries, url)], policy);
      var limit := HigherScoreResurfaces(s, policy, LEAST, url, j);
    }
  }

  /**
   Under LRU the entry a lookup returns is never evicted while an older entry for the
   same URL remains: after eviction the lookup gives that same entry or nothing.
   */
  lemma LruNeverResurfaces(s: Store, need: nat, limit: nat, url: string)
    ensures NotResurfaced(s, LRU, need, limit, url)
  {
    OutlivingNeverResurfaces(s, LRU, need, limit, url);
  }

  /** Nothing in `step` purges, clears, evicts or supersedes the entry a lookup of `url` returns. */
  predicate Keeps(s: State, step: Step, url: string) {
    var es := s.store.entries;
    match step
    case Lookup(_, _) => true
    case SetPolicy(_) => true
    case LatePurge(u) => u != url
    case Purge(u) => u != url
    case Clear => false
    case Add(_, _, u, _, _, _) =>
      && !(u == url && AddOutcome(s, step).ok)
      && (Newest(es, url) >= 0 ==> es[Newest(es, url)] in Next(s, step).store.entries)
  }

  predicate KeptThroughout(s: State, steps: seq<Step>, url: string)
    decreases steps
  {
    steps == [] || (Keeps(s, steps[0], url) && KeptThroughout(Next(s, steps[0]), steps[1..], url))
  }

  /** The same response: touching an entry changes neither its data nor its expiry. */
  predicate SameResponse(e: Entry, f: Entry) {
    e.url == f.url && e.data == f.data && e.expires == f.expires
  }

  lemma MoveKeeps(es: seq<Entry>, k: nat, t: Entry, url: string)
    requires k < |es| && t.url == es[k].url && SameResponse(t, es[k])
    requires Newest(es, t.url) == k && Newest(es, url) >= 0
    ensures var es' := Drop(es, k) + [t];
            Newest(es', url) >= 0 && SameResponse(es'[Newest(es', url)], es[Newest(es, url)])
  {
    var es', d := Drop(es, k) + [t], Drop(es, k);
    if t.url == url {
      CurrentIs(es', url, |es'| - 1);
    } else {
      CurrentDrop(es, url, k);
      CurrentIs(es', url, Newest(d, url));
    }
  }

  lemma LookupKeeps(es: seq<Entry>, policy: Policy, u: string, now: int, url: string)
    requires Newest(es, url) >= 0
    ensures var es' := AfterLookup(es, policy, u, now);
            Newest(es', url) >= 0 && SameResponse(es'[Newest(es', url)], es[Newest(es, url)])
  {
    var k := Newest(es, u);
    if k >= 0 && !IsExpired(es[k], now) {
      var t := Touched(es[k], now);
      if policy == LRU {
        MoveKeeps(es, k, t, url);
      } else {
        CurrentIs(es[k := t], url, Newest(es, url));
      }
    }
  }

  lemma AddKeeps(s: Store, policy: Policy, e: Entry, cacheable: bool, lim: Limits, url: string)
    requires Newest(s.entries, url) >= 0
    requires var a := AfterAdd(s, policy, e, cacheable, lim);
             s.entries[Newest(s.entries, url)] in a.store.entries && !(e.url == url && a.ok)
    ensures Current(AfterAdd(s, policy, e, cacheable, lim).store.entries, url) == Current(s.entries, url)
  {
    var need := Need(|e.data|, e.url);
    if cacheable && need <= lim.maxElement {
      var r := Evicted(s, policy, need, lim.maxCache);
      assert s.entries[Newest(s.entries, url)] in r.entries;
      EvictionKeepsLookup(s, policy, need, lim.maxCache, url);
      if !Overfull(r, need, lim.maxCache) { CurrentIs(r.entries + [e], url, Newest(r.entries, url)); }
    }
  }

  lemma PurgeKeeps(s: Store, u: string, url: string)
    requires u != url && Newest(s.entries, url) >= 0
    ensures Current(AfterPurge(s, u).entries, url) == Current(s.entries, url)
  {
    if Newest(s.entries, u) >= 0 { CurrentDrop(s.entries, url, Newest(s.entries, u)); }
  }

  lemma StepKeeps(s: State, step: Step, url: string)
    requires Newest(s.store.entries, url) >= 0 && Keeps(s, step, url)
    ensures var es, es' := s.store.entries, Next(s, step).store.entries;
            Newest(es', url) >= 0 && SameResponse(es'[Newest(es', url)], es[Newest(es, url)])
  {
    match step
    case Lookup(u, now) => LookupKeeps(s.store.entries, s.policy, u, now, url);
    case LatePurge(u) => PurgeKeeps(s.store, u, url);
    case Purge(u) => PurgeKeeps(s.store, u, url);
    case Add(data, size, u, lim, now, later) =>
      if size >= 0 {
        AddKeeps(s.store, s.policy, AddedEntry(step), !Uncacheable(data), lim, url);
      } else if !Uncacheable(data) && Need(size, u) <= lim.maxElement {
        EvictionKeepsLookup(s.store, s.policy, Need(size, u), lim.maxCache, url);
      }
    case SetPolicy(_) =>
  }

  lemma {:induction false} RunKeeps(s: State, steps: seq<Step>, url: string)
    requires Newest(s.store.entries, url) >= 0 && KeptThroughout(s, steps, url)
    ensures var es, es' := s.store.entries, Run(s, steps).store.entries;
            Newest(es', url) >= 0 && SameResponse(es'[Newest(es', url)], es[Newest(es, url)])
    decreases steps
  {
    if steps != [] {
      StepKeeps(s, steps[0], url);
      RunKeeps(Next(s, steps[0]), steps[1..], url);
    }
  }

  /**
   After a successful add, and until something purges, clears, evicts or supersedes the
   entry, a lookup returns exactly the added data if it is made by the expiry time, and
   reports the entry expired if it is made later.
   */
  lemma AddThenLookup(s: State, add: Step, steps: seq<Step>, now: int)
    requires add.Add? && add.later >= 0 && add.size <= |add.data|
    requires AddOutcome(s, add).ok
    requires KeptThroughout(Next(s, add), steps, add.url)
    ensures 0 <= add.size
    ensures var r := LookupReply(Run(Next(s, add), steps).store.entries, add.url, now);
            if now <= add.later + Lifetime(add.data)
            then r.Hit? && r.entry.data == add.data[..add.size] && r.entry.url == add.url
            else r == Expired
  {
    AddedIsNewest(s, add);
    RunKeeps(Next(s, add), steps, add.url);
  }

  /** A successful add makes its entry the newest of its URL. */
  lemma AddedIsNewest(s: State, add: Step)
    requires add.Add? && add.size <= |add.data| && AddOutcome(s, add).ok
    ensures 0 <= add.size
    ensures var es := Next(s, add).store.entries;
            Newest(es, add.url) >= 0 &&
            var e := es[Newest(es, add.url)];
            e.url == add.url && e.data == add.data[..add.size] && e.expires == add.later + Lifetime(add.data)
  {
    var es := Next(s, add).store.entries;
    CurrentIs(es, add.url, |es| - 1);
  }

  /** Any add leaves the lookups of other URLs alone, unless it evicted what they return. */
  lemma AddLeavesOthers(s: Store, policy: Policy, e: Entry, cacheable: bool, lim: Limits, url: string)
    requires url != e.url
    ensures var es, es' := s.entries, AfterAdd(s, policy, e, cacheable, lim).store.entries;
            var k := Newest(es, url);
            if k == -1 then Newest(es', url) == -1
            else es[k] in es' ==> Current(es', url) == Current(es, url)
  {
    if Newest(s.entries, url) >= 0 {
      if s.entries[Newest(s.entries, url)] in AfterAdd(s, policy, e, cacheable, lim).store.entries {
        AddKeeps(s, policy, e, cacheable, lim, url);
      }
    } else {
      EvictionAddsNothing(s, policy, Need(|e.data|, e.url), lim.maxCache, url);
    }
  }

  // ---- expiry ----

  ghost predicate Dated(es: seq<Entry>) {
    forall i :: 0 <= i < |es| ==> es[i].expires > 0
  }

  ghost predicate AfterEpoch(steps: seq<Step>) {
    forall i :: 0 <= i < |steps| && steps[i].Add? ==> steps[i].later >= 0
  }

  lemma AddDated(s: Store, policy: Policy, e: Entry, cacheable: bool, lim: Limits)
    requires Dated(s.entries) && e.expires > 0
    ensures Dated(AfterAdd(s, policy, e, cacheable, lim).store.entries)
  {
    var need := Need(|e.data|, e.url);
    var r := Evicted(s, policy, need, lim.maxCache);
    EvictedWithin(s, policy, need, lim.maxCache);
    forall i | 0 <= i < |r.entries|
      ensures r.entries[i].expires > 0
    {
      assert r.entries[i] in s.entries;
    }
  }

  lemma DatedWithin(es: seq<Entry>, fs: seq<Entry>)
    requires Dated(es) && forall e :: e in fs ==> e in es
    ensures Dated(fs)
  {
    forall i | 0 <= i < |fs|
      ensures fs[i].expires > 0
    {
      assert fs[i] in es;
    }
  }

  lemma LookupDated(es: seq<Entry>, policy: Policy, url: string, now: int)
    requires Dated(es)
    ensures Dated(AfterLookup(es, policy, url, now))
  {
  }

  lemma StepDated(s: State, step: Step)
    requires Dated(s.store.entries) && (step.Add? ==> step.later >= 0)
    ensures Dated(Next(s, step).store.entries)
  {
    match step
    case Add(data, size, url, lim, now, later) =>
      if size >= 0 {
        AddDated(s.store, s.policy, AddedEntry(step), !Uncacheable(data), lim);
      } else {
        EvictedWithin(s.store, s.policy, Need(size, url), lim.maxCache);
        DatedWithin(s.store.entries, Evicted(s.store, s.policy, Need(size, url), lim.maxCache).entries);
      }
    case Lookup(url, now) => LookupDated(s.store.entries, s.policy, url, now);
    case _ =>
  }

  lemma {:induction false} RunDated(s: State, steps: seq<Step>)
    requires Dated(s.store.entries) && AfterEpoch(steps)
    ensures Dated(Run(s, steps).store.entries)
    decreases steps
  {
    if steps != [] {
      StepDated(s, steps[0]);
      RunDated(Next(s, steps[0]), steps[1..]);
    }
  }

  /** In no run does a lookup return an entry whose expiry time has passed. */
  lemma {:induction false} NoExpiredHitInAnyRun(steps: seq<Step>, url: string, now: int)
    requires AfterEpoch(steps)
    ensures var es := Run(START, steps).store.entries;
            var r := LookupReply(es, url, now);
            r.Hit? <==> exists k :: 0 <= k < |es| && k == Newest(es, url) && now <= es[k].expires
  {
    RunDated(START, steps);
  }

  // ---- where entries come from ----

  /** Every entry's URL and data form a pair in `known`. */
  ghost predicate Known(es: seq<Entry>, known: iset<(string, string)>) {
    forall i {:trigger es[i]} :: 0 <= i < |es| ==> (es[i].url, es[i].data) in known
  }

  lemma AddKnown(s: Store, policy: Policy, e: Entry, cacheable: bool, lim: Limits, known: iset<(string, string)>)
    requires Known(s.entries, known) && (e.url, e.data) in known
    ensures Known(AfterAdd(s, policy, e, cacheable, lim).store.entries, known)
  {
    var need := Need(|e.data|, e.url);
    var r := Evicted(s, policy, need, lim.maxCache);
    EvictedWithin(s, policy, need, lim.maxCache);
    forall i | 0 <= i < |r.entries|
      ensures (r.entries[i].url, r.entries[i].data) in known
    {
      assert r.entries[i] in s.entries;
    }
  }

  lemma KnownWithin(es: seq<Entry>, fs: seq<Entry>, known: iset<(string, string)>)
    requires Known(es, known) && forall e :: e in fs ==> e in es
    ensures Known(fs, known)
  {
    forall i | 0 <= i < |fs|
      ensures (fs[i].url, fs[i].data) in known
    {
      assert fs[i] in es;
    }
  }

  lemma LookupKnown(es: seq<Entry>, policy: Policy, url: string, now: int, known: iset<(string, string)>)
    requires Known(es, known)
    ensures Known(AfterLookup(es, policy, url, now), known)
  {
  }

  /** Only an add brings in a new pair of URL and data. */
  lemma StepKnown(s: State, step: Step, known: iset<(string, string)>)
    requires Known(s.store.entries, known)
    requires step.Add? && step.size >= 0 ==> (step.url, Kept(step.data, step.size)) in known
    ensures Known(Next(s, step).store.entries, known)
  {
    match step
    case Add(data, size, url, lim, now, later) =>
      if size >= 0 {
        AddKnown(s.store, s.policy, AddedEntry(step), !Uncacheable(data), lim, known);
      } else {
        EvictedWithin(s.store, s.policy, Need(size, url), lim.maxCache);
        KnownWithin(s.store.entries, Evicted(s.store, s.policy, Need(size, url), lim.maxCache).entries, known);
      }
    case Lookup(url, now) => LookupKnown(s.store.entries, s.policy, url, now, known);
    case _ =>
  }

  // ---- purging ----

  function Count(es: seq<Entry>, url: string): nat {
    if es == [] then 0 else (if es[|es| - 1].url == url then 1 else 0) + Count(es[..|es| - 1], url)
  }

  lemma {:induction false} CountConcat(a: seq<Entry>, b: seq<Entry>, url: string)
    ensures Count(a + b, url) == Count(a, url) + Count(b, url)
  {
    if b == [] {
      assert a + b == a;
    } else {
      assert (a + b)[..|a + b| - 1] == a + b[..|b| - 1];
      CountConcat(a, b[..|b| - 1], url);
    }
  }

  lemma CountDrop(es: seq<Entry>, url: string, k: nat)
    requires k < |es|
    ensures Count(es, url) == Count(Drop(es, k), url) + (if es[k].url == url then 1 else 0)
  {
    assert es == es[..k] + ([es[k]] + es[k + 1..]);
    CountConcat(es[..k], [es[k]] + es[k + 1..], url);
    CountConcat([es[k]], es[k + 1..], url);
    assert [es[k]][..0] == [];
    CountConcat(es[..k], es[k + 1..], url);
  }

  lemma {:induction false} CountZero(es: seq<Entry>, url: string)
    ensures Count(es, url) == 0 <==> Newest(es, url) == -1
  {
    if es != [] {
      var t := es[..|es| - 1];
      CountZero(t, url);
      assert forall j :: 0 <= j < |t| ==> t[j] == es[j];
    }
  }

  /**
   A purge removes at most one entry, the newest for its URL.  So the URL misses
   afterwards exactly when it had at most one entry: earlier ones come back.
   */
  lemma PurgeRemovesOnlyNewest(s: Store, url: string, other: string)
    ensures var es, es' := s.entries, AfterPurge(s, url).entries;
            && (Newest(es', url) == -1 <==> Count(es, url) <= 1)
            && Count(es', url) == (if Count(es, url) == 0 then 0 else Count(es, url) - 1)
            && (other != url ==> Count(es', other) == Count(es, other) && Current(es', other) == Current(es, other))
  {
    var es := s.entries;
    CountZero(es, url);
    CountZero(AfterPurge(s, url).entries, url);
    var k := Newest(es, url);
    if k >= 0 {
      CountDrop(es, url, k);
      CountDrop(es, other, k);
      if other != url {
        if Newest(es, other) >= 0 { CurrentDrop(es, other, k); } else { NoneDrop(es, other, k); }
      }
    }
  }

  /**
   The expired path of a lookup: it saw an expired entry, released the lock, other threads
   ran `between`, and only then does it purge.  If they left that entry in place, the late
   purge removes exactly that entry and nothing else.
   */
  lemma LatePurgeRemovesWhatWasSeen(s: State, url: string, now: int, between: seq<Step>)
    requires LookupReply(s.store.entries, url, now) == Expired
    requires KeptThroughout(Next(s, Lookup(url, now)), between, url)
    ensures var es := s.store.entries;
            var before := Run(Next(s, Lookup(url, now)), between);
            var k := Newest(before.store.entries, url);
            && k >= 0
            && SameResponse(before.store.entries[k], es[Newest(es, url)])
            && IsExpired(before.store.entries[k], now)
            && Next(before, LatePurge(url)).store.entries == Drop(before.store.entries, k)
  {
    RunKeeps(Next(s, Lookup(url, now)), between, url);
  }

  lemma DropMultiset(es: seq<Entry>, k: nat)
    requires k < |es|
    ensures multiset(es) == multiset(Drop(es, k)) + multiset{es[k]}
  {
    assert es == es[..k] + [es[k]] + es[k + 1..];
  }

  /** `e` is what taking `fs` from `es` leaves. */
  ghost predicate Removed(es: seq<Entry>, fs: seq<Entry>, e: Entry) {
    multiset(es) == multiset(fs) + multiset{e}
  }

  lemma PurgeRemoves(es: seq<Entry>, k: nat, e: Entry)
    requires k < |es|
    ensures Removed(es, Drop(es, k), e) <==> e == es[k]
  {
    var d := multiset(Drop(es, k));
    DropMultiset(es, k);
    assert (d + multiset{e})[es[k]] == d[es[k]] + if e == es[k] then 1 else 0;
    assert (d + multiset{es[k]})[es[k]] == d[es[k]] + 1;
  }

  /**
   Whatever other threads ran in between: the late purge removes an entry that was not
   expired when its lookup read the clock, if and only if repeating that lookup's test
   under the second lock would have hit.
   */
  lemma {:induction false} LatePurgeRemovesFresh(s: State, url: string, now: int, between: seq<Step>)
    ensures var before := Run(Next(s, Lookup(url, now)), between);
            var after := Next(before, LatePurge(url));
            (exists e :: Removed(before.store.entries, after.store.entries, e) && !IsExpired(e, now))
            <==> LookupReply(before.store.entries, url, now).Hit?
  {
    PurgeRemovesFresh(Run(Next(s, Lookup(url, now)), between), url, now);
  }

  lemma PurgeRemovesFresh(before: State, url: string, now: int)
    ensures (exists e :: Removed(before.store.entries, Next(before, LatePurge(url)).store.entries, e) && !IsExpired(e, now))
            <==> LookupReply(before.store.entries, url, now).Hit?
  {
    var es, fs := before.store.entries, Next(before, LatePurge(url)).store.entries;
    var k := Newest(es, url);
    if k == -1 {
      forall e
        ensures !Removed(es, fs, e)
      {
        assert |multiset(fs) + multiset{e}| == |multiset(es)| + 1;
      }
    } else {
      forall e
        ensures Removed(es, fs, e) <==> e == es[k]
      {
        PurgeRemoves(es, k, e);
      }
    }
  }

  // ---- runs step by step ----

  lemma {:induction false} RunSnoc(s: State, steps: seq<Step>, step: Step)
    ensures Run(s, steps + [step]) == Next(Run(s, steps), step)
    ensures EnabledRun(s, steps + [step]) <==> EnabledRun(s, steps) && Enabled(Run(s, steps), step)
    decreases |steps|
  {
    var all := steps + [step];
    if steps == [] {
      assert all == [step];
      OneStep(s, step);
    } else {
      assert all[1..] == steps[1..] + [step];
      RunSnoc(Next(s, steps[0]), steps[1..], step);
    }
  }

  lemma OneStep(s: State, step: Step)
    ensures Run(s, [step]) == Next(s, step)
    ensures EnabledRun(s, [step]) <==> Enabled(s, step)
  {
    assert [step][1..] == [];
    assert Run(Next(s, step), []) == Next(s, step);
  }
}
