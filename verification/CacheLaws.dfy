/**
 What the operations of the cache mean in terms of texts, sizes and times alone
 (src/cache.c): which responses are stored and for how long, what a hit changes, what is
 evicted, and what the counter counts.
 */
module CacheLaws {
  import opened CStrings
  import opened CacheSpec
  import opened CacheRuns

  // ---- searching without case ----

  /** `needle` stands in `t` at `k` and nowhere before, from `from` on. */
  predicate FirstOccurs(t: string, needle: string, from: nat, k: nat) {
    from <= k && Occurs(t, needle, k) && forall j: nat :: from <= j < k ==> !Occurs(t, needle, j)
  }

  ghost predicate OccursNowhere(t: string, needle: string, from: nat) {
    forall j: nat :: from <= j ==> !Occurs(t, needle, j)
  }

  lemma CaseFindFinds(t: string, needle: string, from: nat, k: nat)
    requires FirstOccurs(t, needle, from, k)
    ensures StrCaseFind(t, needle, from) == k
  {
    OccursIsStartsAt(t, needle, k);
    forall j | from <= j < k
      ensures !StartsAt(LowerAll(t), LowerAll(needle), j)
    {
      OccursIsStartsAt(t, needle, j);
    }
    FindFirst(LowerAll(t), LowerAll(needle), from, k);
  }

  lemma CaseFindMisses(t: string, needle: string, from: nat)
    requires from <= |t| && OccursNowhere(t, needle, from)
    ensures StrCaseFind(t, needle, from) == -1
  {
    var k := StrCaseFind(t, needle, from);
    if k >= 0 { OccursIsStartsAt(t, needle, k); }
  }

  lemma CaseFindNotMissed(t: string, needle: string, k: nat)
    requires Occurs(t, needle, k)
    ensures StrCaseFind(t, needle, 0) >= 0
  {
    OccursIsStartsAt(t, needle, k);
    FindMisses(LowerAll(t), LowerAll(needle), 0, k);
  }

  // ---- which responses are stored ----

  /** The text of the response says, anywhere and in any case, that it is not to be cached. */
  predicate ForbidsCaching(data: string) {
    exists k :: 0 <= k <= |CText(data)| &&
      (Occurs(CText(data), "Cache-Control: no-store", k) || Occurs(CText(data), "Cache-Control: no-cache", k))
  }

  lemma UncacheableIsForbidden(data: string)
    ensures Uncacheable(data) <==> ForbidsCaching(data)
  {
    var t := CText(data);
    if ForbidsCaching(data) {
      var k :| 0 <= k <= |t| && (Occurs(t, "Cache-Control: no-store", k) || Occurs(t, "Cache-Control: no-cache", k));
      if Occurs(t, "Cache-Control: no-store", k) {
        CaseFindNotMissed(t, "Cache-Control: no-store", k);
      } else {
        CaseFindNotMissed(t, "Cache-Control: no-cache", k);
      }
    }
    if Uncacheable(data) {
      var i, j := StrCaseFind(t, "Cache-Control: no-store", 0), StrCaseFind(t, "Cache-Control: no-cache", 0);
      if i >= 0 {
        OccursIsStartsAt(t, "Cache-Control: no-store", i);
        assert Occurs(t, "Cache-Control: no-store", i);
      } else {
        OccursIsStartsAt(t, "Cache-Control: no-cache", j);
        assert Occurs(t, "Cache-Control: no-cache", j);
      }
    }
  }

  /** The bytes an element of `size` bytes for `url` takes. */
  function Takes(size: nat, url: string): nat {
    size + |url| + 89
  }

  /** The last entry is new and holds the SIZE bytes for the URL. */
  predicate LastHolds(es: seq<Entry>, add: Step)
    requires add.Add? && 0 <= add.size <= |add.data|
  {
    es != [] &&
    var e := es[|es| - 1];
    e.url == add.url && e.data == add.data[..add.size] && e.uptime == add.now && e.hits == 1
  }

  /**
   While everything fits in the address space, and whatever the limits: `AddCache` succeeds
   exactly when the response does not forbid caching and fits both limits on its own; then
   the counter is within the limit and the last entry holds the SIZE bytes for that URL.
   A response that forbids it, or exceeds the element limit, changes nothing; one too large
   for the whole cache is refused only after every entry has been evicted.
   */
  lemma AddDecides(s: State, add: Step)
    requires add.Add? && 0 <= add.size <= |add.data|
    requires Counted(s.store) && Total(s.store.entries) + Takes(add.size, add.url) < WORD
    ensures var r, bytes := AddOutcome(s, add), Takes(add.size, add.url);
            && (r.ok <==> !ForbidsCaching(add.data) && bytes <= add.lim.maxElement && bytes <= add.lim.maxCache)
            && (r.ok ==> r.store.size <= add.lim.maxCache && LastHolds(r.store.entries, add))
            && (!r.ok ==> r.store == if ForbidsCaching(add.data) || bytes > add.lim.maxElement then s.store else EMPTY)
  {
    UncacheableIsForbidden(add.data);
    EntryDecides(s.store, s.policy, AddedEntry(add), !Uncacheable(add.data), add.lim);
    AddedLast(s.store, s.policy, AddedEntry(add), !Uncacheable(add.data), add.lim);
  }

  lemma AddedLast(s: Store, policy: Policy, e: Entry, cacheable: bool, lim: Limits)
    ensures var r := AfterAdd(s, policy, e, cacheable, lim);
            r.ok ==> r.store.entries != [] && r.store.entries[|r.store.entries| - 1] == e
  {
  }

  /** A negative SIZE stores nothing: it fails, and at most evicts. */
  lemma NegativeSizeFails(s: State, add: Step)
    requires add.Add? && add.size < 0
    ensures !AddOutcome(s, add).ok
    ensures forall e :: e in AddOutcome(s, add).store.entries ==> e in s.store.entries
    ensures ForbidsCaching(add.data) ==> AddOutcome(s, add).store == s.store
  {
    UncacheableIsForbidden(add.data);
    EvictedWithin(s.store, s.policy, Need(add.size, add.url), add.lim.maxCache);
  }

  // ---- for how long ----

  /**
   The lifetime of a response: the number after the first "max-age=" behind the first
   "Cache-Control:", in any case, if it is positive; 3600 seconds otherwise.
   */
  lemma LifetimeIsMaxAge(data: string, c: nat, m: nat, n: nat, rest: string)
    requires FirstOccurs(CText(data), "Cache-Control:", 0, c) && FirstOccurs(CText(data), "max-age=", c, m)
    requires CText(data)[m + 8..] == Decimal(n) + rest && n < 0x8000_0000 && (rest == "" || !IsDigit(rest[0]))
    ensures Lifetime(data) == if n > 0 then n else 3600
  {
    NumberStands(CText(data), "Cache-Control:", "max-age=", c, m);
    AtoiReads(n, rest);
  }

  lemma NumberStands(t: string, field: string, key: string, c: nat, m: nat)
    requires FirstOccurs(t, field, 0, c) && FirstOccurs(t, key, c, m)
    ensures m + |key| <= |t| && NumberAfter(t, field, key) == Atoi(t[m + |key|..])
  {
    CaseFindFinds(t, field, 0, c);
    CaseFindFinds(t, key, c, m);
  }

  lemma NumberLacks(t: string, field: string, key: string, c: nat)
    requires OccursNowhere(t, field, 0) || (FirstOccurs(t, field, 0, c) && OccursNowhere(t, key, c))
    ensures NumberAfter(t, field, key) == -1
  {
    if OccursNowhere(t, field, 0) {
      CaseFindMisses(t, field, 0);
    } else {
      CaseFindFinds(t, field, 0, c);
      CaseFindMisses(t, key, c);
    }
  }

  lemma LifetimeIsHour(data: string, c: nat)
    requires OccursNowhere(CText(data), "Cache-Control:", 0) ||
             (FirstOccurs(CText(data), "Cache-Control:", 0, c) && OccursNowhere(CText(data), "max-age=", c))
    ensures Lifetime(data) == 3600
  {
    NumberLacks(CText(data), "Cache-Control:", "max-age=", c);
  }

  // ---- what a hit changes ----

  /**
   A hit counts one use and notes the time on the newest entry of its URL and changes no
   other entry; it moves that entry to the end under LRU and nothing under the other policies.
   */
  lemma HitChangesOne(es: seq<Entry>, policy: Policy, url: string, now: int, k: nat)
    requires k < |es| && es[k].url == url && forall j :: k < j < |es| ==> es[j].url != url
    requires es[k].expires <= 0 || now <= es[k].expires
    ensures var fs := AfterLookup(es, policy, url, now);
            var to := if policy == LRU then |es| - 1 else k;
            && LookupReply(es, url, now) == Hit(fs[to]) && |fs| == |es|
            && fs[to] == Entry(url, es[k].data, now, es[k].hits + 1, es[k].expires)
            && forall i :: 0 <= i < |es| && i != k ==> fs[if policy == LRU && i > k then i - 1 else i] == es[i]
  {
    CurrentIs(es, url, k);
  }

  /** An expired newest entry, or none: a lookup changes nothing. */
  lemma NoHitChangesNothing(es: seq<Entry>, policy: Policy, url: string, now: int)
    requires !LookupReply(es, url, now).Hit?
    ensures AfterLookup(es, policy, url, now) == es
  {
  }

  // ---- what is evicted ----

  /** The victim, policy by policy: the head, the first of least uses, the first to expire. */
  lemma VictimByPolicy(es: seq<Entry>, i: nat)
    requires i < |es|
    ensures Victim(es, LRU) == 0
    ensures var v := Victim(es, LFU); es[v].hits <= es[i].hits && (i < v ==> es[v].hits < es[i].hits)
    ensures var v := Victim(es, TTL); es[v].expires <= es[i].expires && (i < v ==> es[v].expires < es[i].expires)
  {
    LruVictimIsHead(es);
    var u, v := Victim(es, LFU), Victim(es, TTL);
    assert Score(es[u], LFU) <= Score(es[i], LFU) && (i < u ==> Score(es[u], LFU) < Score(es[i], LFU));
    assert Score(es[v], TTL) <= Score(es[i], TTL) && (i < v ==> Score(es[v], TTL) < Score(es[i], TTL));
  }

  // ---- clearing and the policy ----

  /** After a clear no URL is found, the counter is zero, and policy and pending purges are as before. */
  lemma ClearEmpties(s: State, url: string, now: int)
    ensures var c := Next(s, Clear);
            && c.store.entries == [] && c.store.size == 0 && LookupReply(c.store.entries, url, now) == Miss
            && c.policy == s.policy && c.pending == s.pending
  {
  }

  /** Only setting the policy changes it, and that changes nothing else. */
  lemma PolicyIsLastSet(s: State, step: Step)
    ensures Next(s, step).policy == if step.SetPolicy? then step.policy else s.policy
    ensures step.SetPolicy? ==> Next(s, step).store == s.store && Next(s, step).pending == s.pending
  {
  }

  // ---- what the counter counts ----

  function DataBytes(es: seq<Entry>): nat {
    if es == [] then 0 else |es[0].data| + DataBytes(es[1..])
  }

  function UrlBytes(es: seq<Entry>): nat {
    if es == [] then 0 else |es[0].url| + UrlBytes(es[1..])
  }

  lemma {:induction false} TotalIsBytes(es: seq<Entry>)
    ensures Total(es) == DataBytes(es) + UrlBytes(es) + 89 * |es|
  {
    if es != [] { TotalIsBytes(es[1..]); }
  }

  ghost predicate BytesCounted(s: Store) {
    s.size == (DataBytes(s.entries) + UrlBytes(s.entries) + 89 * |s.entries|) % 0x1_0000_0000_0000_0000
  }

  /** In every run the counter is the bytes of data and URLs, and 89 for each entry, modulo 2^64. */
  lemma {:induction false} CounterCountsBytes(steps: seq<Step>)
    ensures BytesCounted(Run(START, steps).store)
  {
    CounterIsSumInEveryRun(steps);
    CountsBytes(Run(START, steps).store);
  }

  lemma CountsBytes(s: Store)
    requires s.size == Total(s.entries) % WORD
    ensures BytesCounted(s)
  {
    TotalIsBytes(s.entries);
  }
}
