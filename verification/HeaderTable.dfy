/**
 The header table of a parsed request (src/proxy_parse.c:40-139): a growable array in
 which removing a header leaves a tombstone and setting one always appends.
 */
module HeaderTable {
  import opened CStrings

  datatype Header = Header(key: string, value: string)

  /** A slot of the array; a removed header keeps its slot with a NULL key. */
  datatype Slot = Slot(key: Option<string>, value: string)

  const DEFAULT_NHDRS: nat := 8

  /** The live headers, oldest first. */
  function Live(s: seq<Slot>): seq<Header> {
    if s == [] then [] else Live(s[..|s| - 1]) + LiveSlot(s[|s| - 1])
  }

  function LiveSlot(x: Slot): seq<Header> {
    if x.key.Some? then [Header(x.key.value, x.value)] else []
  }

  /** The headers other than those named `key`, in order. */
  function Others(hs: seq<Header>, key: string): seq<Header> {
    OthersBelow(hs, key, |hs|)
  }

  function OthersBelow(hs: seq<Header>, key: string, n: nat): seq<Header>
    requires n <= |hs|
  {
    if n == 0 then []
    else OthersBelow(hs, key, n - 1) + if hs[n - 1].key == key then [] else [hs[n - 1]]
  }

  function WithSet(hs: seq<Header>, key: string, value: string): seq<Header> {
    Others(hs, key) + [Header(key, value)]
  }

  /** `ParsedHeader_get` on the live headers: the value of the first header named `key`. */
  function Lookup(hs: seq<Header>, key: string): (v: Option<string>)
    ensures v == None <==> forall i :: 0 <= i < |hs| ==> hs[i].key != key
    ensures v.Some? ==> exists i :: 0 <= i < |hs| && hs[i] == Header(key, v.value)
  {
    if hs == [] then None
    else if hs[0].key == key then Some(hs[0].value)
    else
      var v := Lookup(hs[1..], key);
      assert forall i :: 0 < i < |hs| ==> hs[i] == hs[1..][i - 1];
      v
  }

  ghost predicate DistinctKeys(hs: seq<Header>) {
    forall i, j :: 0 <= i < j < |hs| ==> hs[i].key != hs[j].key
  }

  ghost predicate OneSlotPerKey(s: seq<Slot>) {
    forall i, j :: 0 <= i < j < |s| && s[i].key.Some? ==> s[i].key != s[j].key
  }

  // ---- facts about the live headers ----

  lemma LiveSnoc(s: seq<Slot>, x: Slot)
    ensures Live(s + [x]) == Live(s) + LiveSlot(x)
  {
    assert (s + [x])[..|s|] == s;
  }

  lemma {:induction false} LiveKeys(s: seq<Slot>, key: string)
    ensures Lookup(Live(s), key) == None <==> forall i :: 0 <= i < |s| ==> s[i].key != Some(key)
  {
    if s != [] {
      var t, x := s[..|s| - 1], s[|s| - 1];
      LiveKeys(t, key);
      var a, b := Live(t), LiveSlot(x);
      assert forall i :: 0 <= i < |s| - 1 ==> s[i] == t[i];
      assert forall i :: 0 <= i < |a| ==> (a + b)[i] == a[i];
      if x.key == Some(key) {
        assert (a + b)[|a|].key == key;
      }
    }
  }

  lemma {:induction false} OthersBelowSame(a: seq<Header>, b: seq<Header>, key: string, n: nat)
    requires n <= |a| && n <= |b| && a[..n] == b[..n]
    ensures OthersBelow(a, key, n) == OthersBelow(b, key, n)
  {
    if n > 0 {
      assert a[n - 1] == a[..n][n - 1] == b[..n][n - 1] == b[n - 1];
      assert a[..n - 1] == a[..n][..n - 1] == b[..n][..n - 1] == b[..n - 1];
      OthersBelowSame(a, b, key, n - 1);
    }
  }

  lemma {:induction false} OthersBelowAbsent(hs: seq<Header>, key: string, n: nat)
    requires n <= |hs| && forall i :: 0 <= i < n ==> hs[i].key != key
    ensures OthersBelow(hs, key, n) == hs[..n]
  {
    if n > 0 { OthersBelowAbsent(hs, key, n - 1); }
  }

  lemma OthersAbsent(hs: seq<Header>, key: string)
    requires forall i :: 0 <= i < |hs| ==> hs[i].key != key
    ensures Others(hs, key) == hs
  {
    OthersBelowAbsent(hs, key, |hs|);
    assert hs[..|hs|] == hs;
  }

  lemma OthersSnoc(hs: seq<Header>, h: Header, key: string)
    ensures Others(hs + [h], key) == Others(hs, key) + if h.key == key then [] else [h]
  {
    assert (hs + [h])[..|hs|] == hs[..|hs|];
    OthersBelowSame(hs + [h], hs, key, |hs|);
  }

  lemma OthersLiveSlot(hs: seq<Header>, x: Slot, key: string)
    requires x.key != Some(key)
    ensures Others(hs + LiveSlot(x), key) == Others(hs, key) + LiveSlot(x)
  {
    if x.key.Some? {
      OthersSnoc(hs, Header(x.key.value, x.value), key);
    } else {
      assert hs + [] == hs;
    }
  }

  lemma TombstoneLast(t: seq<Slot>, x: Slot)
    requires OneSlotPerKey(t + [x]) && x.key.Some?
    ensures Others(Live(t + [x]), x.key.value) == Live(t)
  {
    var key := x.key.value;
    assert forall i :: 0 <= i < |t| ==> (t + [x])[i] == t[i];
    assert (t + [x])[|t|] == x;
    LiveKeys(t, key);
    OthersAbsent(Live(t), key);
    LiveSnoc(t, x);
    OthersSnoc(Live(t), Header(key, x.value), key);
  }

  function Tombstoned(s: seq<Slot>, k: nat): seq<Slot>
    requires k < |s|
  {
    s[k := s[k].(key := None)]
  }

  lemma TombstonedSnoc(t: seq<Slot>, x: Slot, k: nat)
    requires k <= |t|
    ensures k < |t| ==> Tombstoned(t + [x], k) == Tombstoned(t, k) + [x]
    ensures k == |t| ==> Tombstoned(t + [x], k) == t + [x.(key := None)]
  {
  }

  lemma TombstoneInner(t: seq<Slot>, x: Slot, k: nat)
    requires k < |t| && t[k].key.Some? && x.key != t[k].key
    requires Live(Tombstoned(t, k)) == Others(Live(t), t[k].key.value)
    ensures Live(Tombstoned(t + [x], k)) == Others(Live(t + [x]), t[k].key.value)
  {
    TombstonedSnoc(t, x, k);
    LiveSnoc(Tombstoned(t, k), x);
    LiveSnoc(t, x);
    OthersLiveSlot(Live(t), x, t[k].key.value);
  }

  lemma TombstoneOuter(t: seq<Slot>, x: Slot)
    requires OneSlotPerKey(t + [x]) && x.key.Some?
    ensures Live(Tombstoned(t + [x], |t|)) == Others(Live(t + [x]), x.key.value)
  {
    TombstoneLast(t, x);
    TombstonedSnoc(t, x, |t|);
    LiveSnoc(t, x.(key := None));
    assert Live(t) + [] == Live(t);
  }

  lemma OneSlotPrefix(s: seq<Slot>, k: nat)
    requires OneSlotPerKey(s) && k < |s| - 1 && s[k].key.Some?
    ensures OneSlotPerKey(s[..|s| - 1]) && s[..|s| - 1][k] == s[k] && s[|s| - 1].key != s[k].key
  {
  }

  /** Turning the only slot of a key into a tombstone removes just that header. */
  lemma {:induction false} LiveTombstone(s: seq<Slot>, k: nat)
    requires OneSlotPerKey(s) && k < |s| && s[k].key.Some?
    ensures Live(Tombstoned(s, k)) == Others(Live(s), s[k].key.value)
  {
    var t, x := s[..|s| - 1], s[|s| - 1];
    assert s == t + [x];
    if k == |t| {
      TombstoneOuter(t, x);
    } else {
      OneSlotPrefix(s, k);
      LiveTombstone(t, k);
      TombstoneInner(t, x, k);
    }
  }

  lemma {:induction false} LiveDistinct(s: seq<Slot>)
    requires OneSlotPerKey(s)
    ensures DistinctKeys(Live(s))
  {
    if s != [] {
      var t, x := s[..|s| - 1], s[|s| - 1];
      LiveDistinct(t);
      if x.key.Some? { LiveKeys(t, x.key.value); }
    }
  }

  // ---- the table itself ----

  class Table {
    var slots: array<Slot>
    var used: nat

    ghost predicate Valid()
      reads this, slots
    {
      used < slots.Length && OneSlotPerKey(slots[..used])
    }

    function Headers(): seq<Header>
      requires used <= slots.Length
      reads this, slots
    {
      Live(slots[..used])
    }

    /** `ParsedHeader_create` */
    constructor ()
      ensures Valid() && Headers() == [] && fresh(slots)
    {
      slots := new Slot[DEFAULT_NHDRS];
      used := 0;
    }

    /** The slot `ParsedHeader_get` returns, or -1 for NULL. */
    method Find(key: string) returns (k: int)
      requires Valid()
      ensures -1 <= k < used
      ensures k == -1 <==> Lookup(Headers(), key) == None
      ensures k >= 0 ==> slots[k].key == Some(key)
    {
      k := -1;
      var i := 0;
      while used > i
        invariant i <= used && k == -1
        invariant forall j :: 0 <= j < i ==> slots[j].key != Some(key)
      {
        if slots[i].key == Some(key) {
          k := i;
          break;
        }
        i := i + 1;
      }
      LiveKeys(slots[..used], key);
      assert k >= 0 ==> slots[..used][k].key == Some(key);
    }

    /** `ParsedHeader_get` */
    method Get(key: string) returns (v: Option<string>)
      requires Valid()
      ensures v == Lookup(Headers(), key)
    {
      var k := Find(key);
      if k == -1 { return None; }
      LiveDistinct(slots[..used]);
      ValueOfSlot(slots[..used], k);
      return Some(slots[k].value);
    }

    /** `ParsedHeader_remove` */
    method Remove(key: string) returns (rc: int)
      requires Valid()
      modifies slots
      ensures Valid() && Headers() == Others(old(Headers()), key)
      ensures rc == if Lookup(old(Headers()), key) == None then -1 else 0
      ensures Lookup(Headers(), key) == None
    {
      var k := Find(key);
      ghost var s := slots[..used];
      if k == -1 {
        OthersAbsent(Live(s), key);
        return -1;
      }
      LiveTombstone(s, k);
      slots[k] := slots[k].(key := None);
      assert slots[..used] == Tombstoned(s, k);
      LiveKeys(slots[..used], key);
      return 0;
    }

    /** The doubling of the array (src/proxy_parse.c:47-54). */
    method Reserve()
      requires Valid()
      modifies this`slots
      ensures used + 1 < slots.Length && slots[..used] == old(slots[..used])
      ensures slots == old(slots) || fresh(slots)
    {
      if slots.Length <= used + 1 {
        var bigger := new Slot[slots.Length * 2];
        forall i | 0 <= i < used { bigger[i] := slots[i]; }
        slots := bigger;
      }
    }

    /** Fills the next slot (src/proxy_parse.c:56-68). */
    method Append(key: string, value: string)
      requires Valid() && used + 1 < slots.Length && Lookup(Headers(), key) == None
      modifies this`used, slots
      ensures Valid() && Headers() == old(Headers()) + [Header(key, value)]
    {
      var x := Slot(Some(key), value);
      ghost var s := slots[..used];
      LiveKeys(s, key);
      LiveSnoc(s, x);
      slots[used] := x;
      used := used + 1;
      assert slots[..used] == s + [x];
    }

    /** `ParsedHeader_set` */
    method Set(key: string, value: string)
      requires Valid()
      modifies this, slots
      ensures Valid() && (slots == old(slots) || fresh(slots))
      ensures Headers() == WithSet(old(Headers()), key, value)
    {
      var _ := Remove(key);
      Reserve();
      Append(key, value);
    }
  }

  /** With distinct keys, the header in a live slot is the one `Lookup` finds. */
  lemma {:induction false} ValueOfSlot(s: seq<Slot>, k: nat)
    requires OneSlotPerKey(s) && k < |s| && s[k].key.Some?
    ensures Lookup(Live(s), s[k].key.value) == Some(s[k].value)
  {
    var h := Header(s[k].key.value, s[k].value);
    LiveDistinct(s);
    LiveHolds(s, k);
    var i :| 0 <= i < |Live(s)| && Live(s)[i] == h;
    var v := Lookup(Live(s), h.key);
    assert v != None;
    var j :| 0 <= j < |Live(s)| && Live(s)[j] == Header(h.key, v.value);
  }

  lemma {:induction false} LiveHolds(s: seq<Slot>, k: nat)
    requires k < |s| && s[k].key.Some?
    ensures Header(s[k].key.value, s[k].value) in Live(s)
  {
    if k < |s| - 1 { LiveHolds(s[..|s| - 1], k); }
  }

  // ---- every sequence of calls ----

  datatype Call = Set(key: string, value: string) | Remove(key: string)

  function After(hs: seq<Header>, c: Call): seq<Header> {
    match c
    case Set(k, v) => WithSet(hs, k, v)
    case Remove(k) => Others(hs, k)
  }

  function AfterAll(calls: seq<Call>): seq<Header> {
    if calls == [] then [] else After(AfterAll(calls[..|calls| - 1]), calls[|calls| - 1])
  }

  /** No call after the `i`th names its key. */
  predicate LastOnKey(calls: seq<Call>, i: nat)
    requires i < |calls|
  {
    forall j :: i < j < |calls| ==> calls[j].key != calls[i].key
  }

  /** The reference: the `Set` calls among the first `n` that no later call overrides, in call order. */
  function LastSets(calls: seq<Call>, n: nat): seq<Header>
    requires n <= |calls|
  {
    if n == 0 then []
    else LastSets(calls, n - 1) +
         if calls[n - 1].Set? && LastOnKey(calls, n - 1)
         then [Header(calls[n - 1].key, calls[n - 1].value)] else []
  }

  lemma LastOnKeySnoc(calls: seq<Call>, c: Call, k: nat)
    requires k < |calls|
    ensures LastOnKey(calls + [c], k) <==> LastOnKey(calls, k) && c.key != calls[k].key
  {
    var all := calls + [c];
    assert all[|calls|] == c;
    assert forall j :: 0 <= j < |calls| ==> all[j] == calls[j];
  }

  lemma {:induction false} LastSetsSnoc(calls: seq<Call>, c: Call, n: nat)
    requires n <= |calls|
    ensures LastSets(calls + [c], n) == Others(LastSets(calls, n), c.key)
  {
    if n > 0 {
      var k := n - 1;
      LastSetsSnoc(calls, c, k);
      LastOnKeySnoc(calls, c, k);
      if calls[k].Set? && LastOnKey(calls, k) {
        OthersSnoc(LastSets(calls, k), Header(calls[k].key, calls[k].value), c.key);
      } else {
        assert LastSets(calls, n) == LastSets(calls, k);
      }
    }
  }

  /**
   After any sequence of calls the table holds, in call order, exactly the last value set
   for every key not removed since.
   */
  lemma {:induction false} TableIsLastSets(calls: seq<Call>)
    ensures AfterAll(calls) == LastSets(calls, |calls|)
  {
    if calls != [] {
      var n := |calls| - 1;
      var t, c := calls[..n], calls[n];
      TableIsLastSets(t);
      assert calls == t + [c];
      LastSetsSnoc(t, c, n);
    }
  }

  lemma {:induction false} KeysStayDistinct(calls: seq<Call>)
    ensures DistinctKeys(AfterAll(calls))
  {
    if calls != [] {
      var t := calls[..|calls| - 1];
      KeysStayDistinct(t);
      OthersDistinct(AfterAll(t), calls[|calls| - 1].key);
    }
  }

  /** What the last call naming `key` left there. */
  function LastValue(calls: seq<Call>, key: string): Option<string> {
    if calls == [] then None
    else
      var c := calls[|calls| - 1];
      if c.key != key then LastValue(calls[..|calls| - 1], key)
      else if c.Set? then Some(c.value) else None
  }

  lemma LookupMember(hs: seq<Header>, h: Header)
    requires DistinctKeys(hs) && h in hs
    ensures Lookup(hs, h.key) == Some(h.value)
  {
    var i :| 0 <= i < |hs| && hs[i] == h;
    var v := Lookup(hs, h.key);
    var j :| 0 <= j < |hs| && hs[j] == Header(h.key, v.value);
  }

  /** A call changes what `ParsedHeader_get` says of its own key and of no other. */
  lemma LookupAfter(hs: seq<Header>, c: Call, key: string)
    requires DistinctKeys(hs)
    ensures Lookup(After(hs, c), key) ==
            if c.key != key then Lookup(hs, key) else if c.Set? then Some(c.value) else None
  {
    var o := Others(hs, c.key);
    OthersDistinct(hs, c.key);
    if c.key == key {
      if c.Set? {
        assert After(hs, c)[|o|] == Header(key, c.value);
        LookupMember(After(hs, c), Header(key, c.value));
      }
    } else {
      var r := After(hs, c);
      assert forall h :: h in r && h.key == key ==> h in hs;
      if Lookup(hs, key) == None {
        forall i | 0 <= i < |r|
          ensures r[i].key != key
        {
          assert r[i] in r;
        }
      } else {
        var h := Header(key, Lookup(hs, key).value);
        assert h in hs;
        assert h in o;
        LookupMember(r, h);
      }
    }
  }

  /** After any sequence of calls `ParsedHeader_get` returns the last value set. */
  lemma {:induction false} GetReturnsLastSet(calls: seq<Call>, key: string)
    ensures Lookup(AfterAll(calls), key) == LastValue(calls, key)
  {
    if calls != [] {
      var t := calls[..|calls| - 1];
      GetReturnsLastSet(t, key);
      KeysStayDistinct(t);
      LookupAfter(AfterAll(t), calls[|calls| - 1], key);
    }
  }

  lemma {:induction false} OthersBelowIn(hs: seq<Header>, key: string, n: nat)
    requires n <= |hs| && DistinctKeys(hs)
    ensures var o := OthersBelow(hs, key, n);
            DistinctKeys(o) && forall h :: h in o <==> h in hs[..n] && h.key != key
  {
    if n > 0 {
      OthersBelowIn(hs, key, n - 1);
      assert hs[..n] == hs[..n - 1] + [hs[n - 1]];
      var o, p := OthersBelow(hs, key, n), OthersBelow(hs, key, n - 1);
      forall i, j | 0 <= i < j < |o|
        ensures o[i].key != o[j].key
      {
        if j == |p| { assert p[i] in hs[..n - 1]; }
      }
    }
  }

  lemma OthersDistinct(hs: seq<Header>, key: string)
    requires DistinctKeys(hs)
    ensures DistinctKeys(Others(hs, key))
    ensures forall h :: h in Others(hs, key) <==> h in hs && h.key != key
  {
    OthersBelowIn(hs, key, |hs|);
    assert hs[..|hs|] == hs;
  }
}
