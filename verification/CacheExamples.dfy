/**
 Runs of the cache, from its initial state, that show where a wider claim fails
 (src/cache.c:77-80, 98-112).
 */
module CacheExamples {
  import opened CStrings
  import opened CacheSpec
  import opened CacheRuns

  /** A text too short to hold a Cache-Control header. */
  lemma ShortIsCacheable(data: string)
    requires |data| < 14
    ensures !Uncacheable(data) && Lifetime(data) == 3600
  {
    assert |CText(data)| <= |data|;
  }

  /** An add for which there is room already. */
  lemma AddsInRoom(s: State, data: string, size: nat, url: string, lim: Limits, now: int, e: Entry)
    requires !Uncacheable(data) && NewEntry(url, data, size, now, now) == e && Counted(s.store)
    requires s.store.size + Bytes(e) <= lim.maxCache < WORD && Bytes(e) <= lim.maxElement
    ensures Next(s, Add(data, size, url, lim, now, now)) ==
            s.(store := Store(s.store.entries + [e], s.store.size + Bytes(e)))
  {
    NextAdds(s, Add(data, size, url, lim, now, now), e, true);
    AddAppends(s.store, s.policy, e, lim);
  }

  lemma NextAdds(s: State, add: Step, e: Entry, cacheable: bool)
    requires add.Add? && add.size >= 0 && AddedEntry(add) == e && !Uncacheable(add.data) == cacheable
    ensures Next(s, add) == s.(store := AfterAdd(s.store, s.policy, e, cacheable, add.lim).store)
  {
    NextIsOutcome(s, add);
    OutcomeIsAdd(s, add);
  }

  lemma NextIsOutcome(s: State, add: Step)
    requires add.Add?
    ensures Next(s, add) == s.(store := AddOutcome(s, add).store)
  {
  }

  lemma OutcomeIsAdd(s: State, add: Step)
    requires add.Add? && add.size >= 0
    ensures AddOutcome(s, add) == AfterAdd(s.store, s.policy, AddedEntry(add), !Uncacheable(add.data), add.lim)
  {
  }

  // ---- a superseded response comes back under LFU ----

  const ROOM: Limits := Limits(500, 200)
  const OLD: Entry := Entry("u", "old", 0, 1, 3600)
  const OLD_HIT: Entry := Entry("u", "old", 0, 2, 3600)
  const NEW: Entry := Entry("u", "new", 0, 1, 3600)
  const OTHER: Entry := Entry("v", "x", 0, 1, 3600)

  /** Two adds of one URL with a hit in between, under LFU. */
  function TwoAdds(): seq<Step> {
    [SetPolicy(LFU)] + [Add("old", 3, "u", ROOM, 0, 0)] + [Lookup("u", 0)] + [Add("new", 3, "u", ROOM, 0, 0)]
  }

  function ThirdAdd(): Step {
    Add("x", 1, "v", ROOM, 0, 0)
  }

  lemma KeptWhole(data: string)
    ensures Kept(data, |data|) == data
  {
    assert data[..|data|] == data;
  }

  lemma TotalOne(e: Entry)
    ensures Total([e]) == Bytes(e)
  {
    assert [e][1..] == [];
  }

  lemma FirstAdd()
    ensures Next(State(EMPTY, LFU, multiset{}), Add("old", 3, "u", ROOM, 0, 0)) == State(Store([OLD], 93), LFU, multiset{})
  {
    ShortIsCacheable("old");
    KeptWhole("old");
    AddAppends(EMPTY, LFU, OLD, ROOM);
  }

  lemma HitOld()
    ensures Next(State(Store([OLD], 93), LFU, multiset{}), Lookup("u", 0)) == State(Store([OLD_HIT], 93), LFU, multiset{})
  {
    CurrentIs([OLD], "u", 0);
  }

  lemma SecondAdd()
    ensures Next(State(Store([OLD_HIT], 93), LFU, multiset{}), Add("new", 3, "u", ROOM, 0, 0)) ==
            State(Store([OLD_HIT, NEW], 186), LFU, multiset{})
  {
    ShortIsCacheable("new");
    KeptWhole("new");
    TotalOne(OLD_HIT);
    AddAppends(Store([OLD_HIT], 93), LFU, NEW, ROOM);
  }

  lemma AfterTwoAdds()
    ensures EnabledRun(START, TwoAdds())
    ensures Run(START, TwoAdds()) == State(Store([OLD_HIT, NEW], 186), LFU, multiset{})
  {
    var a, b, c, d := SetPolicy(LFU), Add("old", 3, "u", ROOM, 0, 0), Lookup("u", 0), Add("new", 3, "u", ROOM, 0, 0);
    OneStep(START, a);
    RunSnoc(START, [a], b);
    FirstAdd();
    RunSnoc(START, [a] + [b], c);
    HitOld();
    RunSnoc(START, [a] + [b] + [c], d);
    SecondAdd();
  }

  lemma EvictsNew()
    ensures var s := Store([OLD_HIT, NEW], 186);
            Evicted(s, LFU, 91, 200) == Store([OLD_HIT], 93)
  {
    var s, r := Store([OLD_HIT, NEW], 186), Store([OLD_HIT], 93);
    assert Victim(s.entries, LFU) == 1;
    assert Drop(s.entries, 1) == [OLD_HIT];
    assert Without(s, 1) == r;
    assert Evicted(r, LFU, 91, 200) == r;
  }

  lemma ThirdAddEvicts()
    ensures Next(State(Store([OLD_HIT, NEW], 186), LFU, multiset{}), ThirdAdd()) ==
            State(Store([OLD_HIT, OTHER], 184), LFU, multiset{})
  {
    ShortIsCacheable("x");
    KeptWhole("x");
    EvictsNew();
    TotalOne(OLD_HIT);
    FilledDecides(Store([OLD_HIT], 93), OTHER, 200);
  }

  /**
   Under LFU a response that had been superseded is served again after an add of another
   URL, though the one that superseded it has not expired.
   */
  lemma LfuResurfaces()
    ensures var before, after := Run(START, TwoAdds()), Run(START, TwoAdds() + [ThirdAdd()]);
            && EnabledRun(START, TwoAdds() + [ThirdAdd()])
            && Current(before.store.entries, "u") == Some(NEW)
            && LookupReply(after.store.entries, "u", 0) == Hit(Touched(OLD_HIT, 0))
  {
    AfterTwoAdds();
    RunSnoc(START, TwoAdds(), ThirdAdd());
    ThirdAddEvicts();
    CurrentIs([OLD_HIT, NEW], "u", 1);
    CurrentIs([OLD_HIT, OTHER], "u", 0);
  }

  // ---- a late purge removes a fresh response ----

  /** A response that lives for one second: the text "Cache-Control:max-age=1". */
  predicate Brief(data: string) {
    && |data| == 23 && NUL !in data && data[22] == '1'
    && (forall i {:trigger data[i]} :: 0 <= i < 14 ==> data[i] == "Cache-Control:"[i])
    && (forall i {:trigger "max-age="[i]} :: 0 <= i < 8 ==> data[14 + i] == "max-age="[i])
  }

  lemma BriefExists()
    ensures Brief("Cache-Control:max-age=1")
  {
  }

  const WIDE: Limits := Limits(500, 500)
  const FRESH: Entry := Entry("u", "x", 9, 1, 3609)

  function Stale(data: string): Entry {
    Entry("u", data, 0, 1, 1)
  }

  lemma SameLengthMiss(s: string, needle: string, i: nat)
    requires |s| == |needle| && i < |s| && s[i] != needle[i]
    ensures Find(s, needle, 0) == -1
  {
    assert !StartsAt(s, needle, 0);
  }

  lemma BriefMisses(data: string, needle: string)
    requires Brief(data) && |needle| == 23 && needle[14] == ' '
    ensures StrCaseFind(data, needle, 0) == -1
  {
    assert "max-age="[0] == 'm';
    SameLengthMiss(LowerAll(data), LowerAll(needle), 14);
  }

  lemma BriefIsCacheable(data: string)
    requires Brief(data)
    ensures !Uncacheable(data)
  {
    CTextWhole(data);
    BriefMisses(data, "Cache-Control: no-store");
    BriefMisses(data, "Cache-Control: no-cache");
  }

  lemma FindsCacheControl(data: string)
    requires Brief(data)
    ensures StrCaseFind(data, "Cache-Control:", 0) == 0
  {
    var t, n := LowerAll(data), LowerAll("Cache-Control:");
    assert forall i :: 0 <= i < 14 ==> t[i] == n[i];
    FindFirst(t, n, 0, 0);
  }

  lemma FindsMaxAge(data: string)
    requires Brief(data)
    ensures StrCaseFind(data, "max-age=", 0) == 14
  {
    var t, n := LowerAll(data), LowerAll("max-age=");
    assert n[0] == 'm';
    assert forall j :: 0 <= j < 14 ==> Lower("Cache-Control:"[j]) != 'm';
    assert forall j :: 0 <= j < 14 ==> t[j] != 'm';
    assert forall i :: 0 <= i < 8 ==> t[14 + i] == n[i];
    FindFirst(t, n, 0, 14);
  }

  lemma ReadsOne(s: string)
    requires |s| == 1 && s[0] == '1'
    ensures Atoi(s) == 1
  {
    assert SkipSpaces(s) == s;
    assert Digits(s[1..], 1) == 1;
    assert Digits(s, 0) == 1;
  }

  lemma BriefMaxAge(data: string)
    requires Brief(data)
    ensures MaxAge(data) == 1
  {
    CTextWhole(data);
    FindsCacheControl(data);
    FindsMaxAge(data);
    ReadsOne(data[22..]);
  }

  function Interleaving(data: string): seq<Step> {
    [Add(data, 23, "u", WIDE, 0, 0)] + [Lookup("u", 9)] + [Add("x", 1, "u", WIDE, 9, 9)]
  }

  lemma BriefAdd(data: string)
    requires Brief(data)
    ensures Next(START, Add(data, 23, "u", WIDE, 0, 0)) == State(Store([Stale(data)], 113), LRU, multiset{})
  {
    BriefIsCacheable(data);
    BriefMaxAge(data);
    KeptWhole(data);
    AddsInRoom(START, data, 23, "u", WIDE, 0, Stale(data));
  }

  lemma StaleSeen(data: string)
    ensures Next(State(Store([Stale(data)], 113), LRU, multiset{}), Lookup("u", 9)) ==
            State(Store([Stale(data)], 113), LRU, multiset{"u"})
  {
    CurrentIs([Stale(data)], "u", 0);
  }

  lemma FreshAdd(data: string)
    requires |data| == 23
    ensures Next(State(Store([Stale(data)], 113), LRU, multiset{"u"}), Add("x", 1, "u", WIDE, 9, 9)) ==
            State(Store([Stale(data), FRESH], 204), LRU, multiset{"u"})
  {
    ShortIsCacheable("x");
    KeptWhole("x");
    TotalOne(Stale(data));
    AddsInRoom(State(Store([Stale(data)], 113), LRU, multiset{"u"}), "x", 1, "u", WIDE, 9, FRESH);
  }

  lemma AfterInterleaving(data: string)
    requires Brief(data)
    ensures EnabledRun(START, Interleaving(data))
    ensures Run(START, Interleaving(data)) == State(Store([Stale(data), FRESH], 204), LRU, multiset{"u"})
  {
    var a, b, c := Add(data, 23, "u", WIDE, 0, 0), Lookup("u", 9), Add("x", 1, "u", WIDE, 9, 9);
    OneStep(START, a);
    BriefAdd(data);
    RunSnoc(START, [a], b);
    StaleSeen(data);
    RunSnoc(START, [a] + [b], c);
    FreshAdd(data);
  }

  /** The late purge removes the response another thread has just stored, and leaves the stale one. */
  lemma LatePurgeCanRemoveFresh(data: string)
    requires Brief(data)
    ensures var before, after := Run(START, Interleaving(data)), Run(START, Interleaving(data) + [LatePurge("u")]);
            && EnabledRun(START, Interleaving(data) + [LatePurge("u")])
            && before.store.entries == [Stale(data), FRESH] && after.store.entries == [Stale(data)]
            && !IsExpired(FRESH, 9) && IsExpired(Stale(data), 9)
  {
    AfterInterleaving(data);
    RunSnoc(START, Interleaving(data), LatePurge("u"));
    CurrentIs([Stale(data), FRESH], "u", 1);
    assert Drop([Stale(data), FRESH], 1) == [Stale(data)];
  }

  /** ... as happens with an actual response. */
  lemma LatePurgeCanRemoveFreshAt() returns (data: string)
    ensures data == "Cache-Control:max-age=1"
    ensures var after := Run(START, Interleaving(data) + [LatePurge("u")]);
            && EnabledRun(START, Interleaving(data) + [LatePurge("u")])
            && Run(START, Interleaving(data)).store.entries == [Stale(data), FRESH] && after.store.entries == [Stale(data)]
  {
    data := "Cache-Control:max-age=1";
    BriefExists();
    LatePurgeCanRemoveFresh(data);
  }
}
