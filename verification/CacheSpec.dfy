/**
 The cache as its callers see it: the sequence of live entries in list order, the
 byte counter, the eviction policy and the lookups that have released the lock on the
 expired path but not yet purged.  Each constructor of `Step` is one critical section
 of src/cache.c.
 */
module CacheSpec {
  import opened CStrings

  datatype Policy = LRU | LFU | TTL

  datatype Entry = Entry(url: string, data: string, uptime: int, hits: int, expires: int)

  /** `g_config` limits, read afresh by every `AddCache`. */
  datatype Limits = Limits(maxElement: nat, maxCache: nat)

  /** sizeof(CacheModule) on a 64-bit platform. */
  const NODE_BYTES: nat := 88

  function ElementSize(url: string, data: string): nat {
    |data| + |url| + NODE_BYTES + 1
  }

  function Bytes(e: Entry): nat {
    ElementSize(e.url, e.data)
  }

  /** ELEMENT_SIZE as `AddCache` computes it from its `int` argument, in unsigned arithmetic. */
  function Need(size: int, url: string): (n: nat)
    ensures n < WORD
  {
    (size + |url| + NODE_BYTES + 1) % WORD
  }

  function Total(es: seq<Entry>): nat {
    if es == [] then 0 else Bytes(es[0]) + Total(es[1..])
  }

  function Drop(es: seq<Entry>, k: nat): seq<Entry>
    requires k < |es|
  {
    es[..k] + es[k + 1..]
  }

  /** The newest entry for `url`: a backward scan of the list; -1 if there is none. */
  function Newest(es: seq<Entry>, url: string): (k: int)
    ensures -1 <= k < |es|
    ensures k >= 0 ==> es[k].url == url
    ensures forall j :: k < j < |es| ==> es[j].url != url
  {
    NewestBelow(es, url, |es|)
  }

  function NewestBelow(es: seq<Entry>, url: string, n: nat): (k: int)
    requires n <= |es|
    ensures -1 <= k < n
    ensures k >= 0 ==> es[k].url == url
    ensures forall j :: k < j < n ==> es[j].url != url
  {
    if n == 0 then -1
    else if es[n - 1].url == url then n - 1
    else NewestBelow(es, url, n - 1)
  }

  // ---- lookup ----

  datatype Reply = Hit(entry: Entry) | Miss | Expired

  predicate IsExpired(e: Entry, now: int) {
    e.expires > 0 && e.expires < now
  }

  function Touched(e: Entry, now: int): Entry {
    e.(uptime := now, hits := e.hits + 1)
  }

  function LookupReply(es: seq<Entry>, url: string, now: int): Reply {
    var k := Newest(es, url);
    if k == -1 then Miss
    else if IsExpired(es[k], now) then Expired
    else Hit(Touched(es[k], now))
  }

  function AfterLookup(es: seq<Entry>, policy: Policy, url: string, now: int): seq<Entry> {
    var k := Newest(es, url);
    if k == -1 || IsExpired(es[k], now) then es
    else if policy == LRU then Drop(es, k) + [Touched(es[k], now)]
    else es[k := Touched(es[k], now)]
  }

  // ---- removal ----

  function Score(e: Entry, policy: Policy): int {
    match policy
    case LRU => 0
    case LFU => e.hits
    case TTL => e.expires
  }

  /** The entry `RemoveCache` evicts: the head-most one of least score (the head under LRU). */
  function Victim(es: seq<Entry>, policy: Policy): (v: nat)
    requires es != []
    ensures v < |es|
    ensures forall j :: 0 <= j < |es| ==> Score(es[v], policy) <= Score(es[j], policy)
    ensures forall j :: 0 <= j < v ==> Score(es[v], policy) < Score(es[j], policy)
  {
    VictimBelow(es, policy, |es|)
  }

  function VictimBelow(es: seq<Entry>, policy: Policy, n: nat): (v: nat)
    requires 0 < n <= |es|
    ensures v < n
    ensures forall j :: 0 <= j < n ==> Score(es[v], policy) <= Score(es[j], policy)
    ensures forall j :: 0 <= j < v ==> Score(es[v], policy) < Score(es[j], policy)
  {
    if n == 1 then 0
    else
      var w := VictimBelow(es, policy, n - 1);
      if Score(es[n - 1], policy) < Score(es[w], policy) then n - 1 else w
  }

  datatype Store = Store(entries: seq<Entry>, size: nat)

  /** `CACHE_SIZE -= ELEMENT_SIZE`, in unsigned arithmetic. */
  function Without(s: Store, k: nat): Store
    requires k < |s.entries|
  {
    Store(Drop(s.entries, k), (s.size - Bytes(s.entries[k])) % WORD)
  }

  function AfterPurge(s: Store, url: string): Store {
    var k := Newest(s.entries, url);
    if k == -1 then s else Without(s, k)
  }

  predicate Overfull(s: Store, need: nat, limit: nat) {
    (s.size + need) % WORD > limit
  }

  /** The eviction loop of `AddCache`. */
  function Evicted(s: Store, policy: Policy, need: nat, limit: nat): Store
    decreases |s.entries|
  {
    if Overfull(s, need, limit) && s.entries != []
    then Evicted(Without(s, Victim(s.entries, policy)), policy, need, limit)
    else s
  }

  /** The loop stops where there is room, or nothing left to evict. */
  lemma EvictedDone(s: Store, policy: Policy, need: nat, limit: nat)
    requires !Overfull(s, need, limit) || s.entries == []
    ensures Evicted(s, policy, need, limit) == s
  {
  }

  /** One turn of the loop. */
  lemma EvictedStep(s: Store, policy: Policy, need: nat, limit: nat)
    requires Overfull(s, need, limit) && s.entries != []
    ensures Evicted(s, policy, need, limit) ==
            Evicted(Without(s, Victim(s.entries, policy)), policy, need, limit)
  {
  }

  // ---- insertion ----

  function StrCaseFind(s: string, needle: string, from: nat): (k: int)
    requires from <= |s|
    ensures k == -1 || from <= k <= |s| - |needle|
  {
    Find(LowerAll(s), LowerAll(needle), from)
  }

  predicate Uncacheable(data: string) {
    var t := CText(data);
    StrCaseFind(t, "Cache-Control: no-store", 0) >= 0 || StrCaseFind(t, "Cache-Control: no-cache", 0) >= 0
  }

  /** The number behind the first `key` that follows the first `field`, or -1. */
  function NumberAfter(t: string, field: string, key: string): int {
    var f := StrCaseFind(t, field, 0);
    if f == -1 then -1 else
    var k := StrCaseFind(t, key, f);
    if k == -1 then -1 else Atoi(t[k + |key|..])
  }

  /** The `max-age` that follows the first `Cache-Control:`, or -1. */
  function MaxAge(data: string): int {
    NumberAfter(CText(data), "Cache-Control:", "max-age=")
  }

  function Lifetime(data: string): (n: int)
    ensures n > 0
  {
    if MaxAge(data) > 0 then MaxAge(data) else 3600
  }

  /** The SIZE bytes that are copied. */
  function Kept(data: string, size: int): string {
    if 0 <= size <= |data| then data[..size] else data
  }

  /**
   The entry for SIZE bytes of `data`, whose header lines are read from all of it.  `now` is
   the clock read for UPTIME, `later` the one read for the expiry time.
   */
  function NewEntry(url: string, data: string, size: int, now: int, later: int): Entry {
    Entry(url, Kept(data, size), now, 1, later + Lifetime(data))
  }

  datatype Added = Added(store: Store, ok: bool)

  /** Adding `e`, whose response is cacheable or not as its header lines say. */
  function AfterAdd(s: Store, policy: Policy, e: Entry, cacheable: bool, lim: Limits): Added {
    var need := Need(|e.data|, e.url);
    if !cacheable || need > lim.maxElement then Added(s, false)
    else Filled(Evicted(s, policy, need, lim.maxCache), e, lim.maxCache)
  }

  /** A negative SIZE: the allocation of that many bytes fails, after the evictions. */
  function AfterFailedAdd(s: Store, policy: Policy, need: nat, cacheable: bool, lim: Limits): Store {
    if !cacheable || need > lim.maxElement then s else Evicted(s, policy, need, lim.maxCache)
  }

  /** The last test for room, and the insertion. */
  function Filled(r: Store, e: Entry, limit: nat): Added {
    var need := Need(|e.data|, e.url);
    if Overfull(r, need, limit) then Added(r, false)
    else Added(Store(r.entries + [e], (r.size + need) % WORD), true)
  }

  // ---- critical sections ----

  datatype State = State(store: Store, policy: Policy, pending: multiset<string>)

  datatype Step =
    | Lookup(url: string, now: int)
    | LatePurge(url: string)            // the purge of a lookup that saw an expired entry
    | Purge(url: string)
    | Clear
    | Add(data: string, size: int, url: string, lim: Limits, now: int, later: int)
    | SetPolicy(policy: Policy)

  const EMPTY: Store := Store([], 0)
  const START: State := State(EMPTY, LRU, multiset{})

  /**
   Only a lookup that has seen an expired entry makes the late purge; an add is given that
   many bytes, or a negative size other than -1 (for which the code copies SIZE_MAX bytes).
   */
  predicate Enabled(s: State, step: Step) {
    match step
    case LatePurge(url) => url in s.pending
    case Add(data, size, _, _, _, _) => size <= |data| && size != -1
    case _ => true
  }

  function AddedEntry(add: Step): Entry
    requires add.Add?
  {
    NewEntry(add.url, add.data, add.size, add.now, add.later)
  }

  function AddOutcome(s: State, add: Step): Added
    requires add.Add?
  {
    if add.size >= 0
    then AfterAdd(s.store, s.policy, AddedEntry(add), !Uncacheable(add.data), add.lim)
    else Added(AfterFailedAdd(s.store, s.policy, Need(add.size, add.url), !Uncacheable(add.data), add.lim), false)
  }

  function Next(s: State, step: Step): State {
    match step
    case Lookup(url, now) =>
      s.(store := s.store.(entries := AfterLookup(s.store.entries, s.policy, url, now)),
         pending := if LookupReply(s.store.entries, url, now).Expired?
                    then s.pending + multiset{url} else s.pending)
    case LatePurge(url) => s.(store := AfterPurge(s.store, url), pending := s.pending - multiset{url})
    case Purge(url) => s.(store := AfterPurge(s.store, url))
    case Clear => s.(store := EMPTY)
    case Add(_, _, _, _, _, _) => s.(store := AddOutcome(s, step).store)
    case SetPolicy(p) => s.(policy := p)
  }

  /** The state after a run; the runs are all interleavings of the threads' critical sections. */
  function Run(s: State, steps: seq<Step>): State
    decreases steps
  {
    if steps == [] then s else Run(Next(s, steps[0]), steps[1..])
  }

  predicate EnabledRun(s: State, steps: seq<Step>)
    decreases steps
  {
    steps == [] || (Enabled(s, steps[0]) && EnabledRun(Next(s, steps[0]), steps[1..]))
  }
}
