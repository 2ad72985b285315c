/**
 The cache of src/cache.c on the heap: nodes linked through `next` (hash chain) and
 `prevLru`/`nextLru` (list).  Each public method is one critical section; its contract
 equates the new abstract state with `CacheSpec.Next` of the old one.
 */
module CacheStore {
  import opened CStrings
  import opened CacheIndex
  import opened CacheSpec

  /** `hash_url` in 64-bit unsigned arithmetic: the wrap-around does not change the bucket. */
  method HashUrl(url: string) returns (h: nat)
    ensures h == Bucket(url)
  {
    var hash: nat := 5381;
    for i := 0 to |url|
      invariant hash == Djb2(url[..i]) % WORD
    {
      assert url[..i + 1][..i] == url[..i];
      HashStep(Djb2(url[..i]), SignedChar(url[i]));
      hash := (((hash * 32) % WORD + hash) % WORD + SignedChar(url[i])) % WORD;
    }
    assert url[..|url|] == url;
    WrapKeepsBucket(Djb2(url));
    h := hash % BUCKETS;
  }

  lemma HashStep(d: int, c: int)
    ensures (((d % WORD * 32) % WORD + d % WORD) % WORD + c) % WORD == (33 * d + c) % WORD
  {
  }

  lemma WrapKeepsBucket(x: int)
    ensures (x % WORD) % BUCKETS == x % BUCKETS
  {
  }

  // ---- what the pointers say ----

  ghost function EntryOf(n: Node): Entry
    reads n`uptime, n`hits
  {
    Entry(n.url, n.data, n.uptime, n.hits, n.expires)
  }

  /** `es` is what the fields of the nodes say. */
  ghost predicate Shows(s: seq<Node>, es: seq<Entry>)
    reads s`uptime, s`hits
  {
    |es| == |s| && forall i {:trigger es[i]} :: 0 <= i < |s| ==> es[i] == EntryOf(s[i])
  }

  ghost predicate Listed(s: seq<Node>, head: Node?, tail: Node?)
    reads s`prevLru, s`nextLru
  {
    && head == (if s == [] then null else s[0])
    && tail == (if s == [] then null else s[|s| - 1])
    && (forall i {:trigger s[i].prevLru} :: 0 <= i < |s| ==> s[i].prevLru == if i == 0 then null else s[i - 1])
    && (forall i {:trigger s[i].nextLru} :: 0 <= i < |s| ==> s[i].nextLru == if i + 1 < |s| then s[i + 1] else null)
  }

  /** The list `s` with the pointers led around its `k`th node. */
  ghost predicate Bypassed(s: seq<Node>, k: nat, head: Node?, tail: Node?)
    requires k < |s|
    reads s`prevLru, s`nextLru
  {
    && head == (if k > 0 then s[0] else if |s| > 1 then s[1] else null)
    && tail == (if k < |s| - 1 then s[|s| - 1] else if |s| > 1 then s[|s| - 2] else null)
    && (forall i {:trigger s[i].prevLru} :: 0 <= i < |s| && i != k ==>
          s[i].prevLru == Before(s, if i - 1 == k then k else i))
    && (forall i {:trigger s[i].nextLru} :: 0 <= i < |s| && i != k ==>
          s[i].nextLru == After(s, if i + 1 == k then k else i))
  }

  ghost function Before(s: seq<Node>, i: int): Node?
    requires 0 <= i < |s|
  {
    if i == 0 then null else s[i - 1]
  }

  ghost function After(s: seq<Node>, i: int): Node?
    requires 0 <= i < |s|
  {
    if i + 1 < |s| then s[i + 1] else null
  }

  /** What stands where once the `k`th node is out. */
  lemma OutAt(s: seq<Node>, k: nat, i: nat)
    requires k < |s| && i < |s| - 1
    ensures (s[..k] + s[k + 1..])[i] == s[if i < k then i else i + 1]
  {
  }

  lemma OutDistinct(s: seq<Node>, k: nat)
    requires k < |s| && Distinct(s)
    ensures Distinct(s[..k] + s[k + 1..])
  {
    var t := s[..k] + s[k + 1..];
    forall i, j | 0 <= i < j < |t|
      ensures t[i] != t[j]
    {
      OutAt(s, k, i);
      OutAt(s, k, j);
    }
  }

  lemma OutPrev(s: seq<Node>, k: nat, head: Node?, tail: Node?, i: nat)
    requires k < |s| && Bypassed(s, k, head, tail) && i < |s| - 1
    ensures var t := s[..k] + s[k + 1..]; t[i].prevLru == if i == 0 then null else t[i - 1]
  {
    OutAt(s, k, i);
    if i > 0 { OutAt(s, k, i - 1); }
  }

  lemma OutNext(s: seq<Node>, k: nat, head: Node?, tail: Node?, i: nat)
    requires k < |s| && Bypassed(s, k, head, tail) && i < |s| - 1
    ensures var t := s[..k] + s[k + 1..]; t[i].nextLru == if i + 1 < |t| then t[i + 1] else null
  {
    OutAt(s, k, i);
    if i + 1 < |s| - 1 { OutAt(s, k, i + 1); }
  }

  lemma OutEnds(s: seq<Node>, k: nat, head: Node?, tail: Node?)
    requires k < |s| && Bypassed(s, k, head, tail)
    ensures var t := s[..k] + s[k + 1..];
            && head == (if t == [] then null else t[0]) && tail == (if t == [] then null else t[|t| - 1])
  {
    if |s| > 1 {
      OutAt(s, k, 0);
      OutAt(s, k, |s| - 2);
    }
  }

  lemma Relisted(s: seq<Node>, k: nat, head: Node?, tail: Node?)
    requires k < |s| && Distinct(s) && Bypassed(s, k, head, tail)
    ensures Distinct(s[..k] + s[k + 1..]) && Listed(s[..k] + s[k + 1..], head, tail)
  {
    var t := s[..k] + s[k + 1..];
    OutDistinct(s, k);
    OutEnds(s, k, head, tail);
    forall i | 0 <= i < |t|
      ensures t[i].prevLru == (if i == 0 then null else t[i - 1]) && t[i].nextLru == if i + 1 < |t| then t[i + 1] else null
    {
      OutPrev(s, k, head, tail, i);
      OutNext(s, k, head, tail, i);
    }
  }

  ghost predicate Chained(c: seq<Node>, head: Node?)
    reads c`next
  {
    && head == (if c == [] then null else c[0])
    && (forall i {:trigger c[i].next} :: 0 <= i < |c| ==> c[i].next == if i + 1 < |c| then c[i + 1] else null)
  }

  /** The newest entry is the node the backward scan of the list finds. */
  lemma NewestIsBackwardScan(s: seq<Node>, es: seq<Entry>, url: string)
    requires |es| == |s| && forall i :: 0 <= i < |s| ==> es[i].url == s[i].url
    ensures Newest(es, url) == BackwardScan(s, url)
  {
    var k, m := Newest(es, url), BackwardScan(s, url);
    assert k >= 0 ==> s[k].url == url;
    assert m >= 0 ==> es[m].url == url;
    assert forall j :: k < j < |s| ==> s[j].url != url;
  }

  lemma ShowsDrop(s: seq<Node>, es: seq<Entry>, k: nat)
    requires k < |s| && Shows(s, es)
    ensures Shows(s[..k] + s[k + 1..], Drop(es, k))
  {
  }

  lemma MembersMoved(s: seq<Node>, k: nat)
    requires k < |s|
    ensures forall n :: n in MovedToEnd(s, k) <==> n in s
  {
    forall n | n in s
      ensures n in MovedToEnd(s, k)
    {
      var i :| 0 <= i < |s| && s[i] == n;
      assert MovedToEnd(s, k)[if i < k then i else if i == k then |s| - 1 else i - 1] == n;
    }
  }

  ghost predicate EvictsTo(s: Store, policy: Policy, need: nat, limit: nat, goal: Store) {
    Evicted(s, policy, need, limit) == goal
  }

  lemma EvictsDone(s: Store, policy: Policy, need: nat, limit: nat, goal: Store)
    requires EvictsTo(s, policy, need, limit, goal) && (!Overfull(s, need, limit) || s.entries == [])
    ensures s == goal
  {
    EvictedDone(s, policy, need, limit);
  }

  /** The contract of `Victim` picks out one index. */
  lemma VictimIs(es: seq<Entry>, policy: Policy, v: nat)
    requires v < |es|
    requires forall j :: 0 <= j < |es| ==> Score(es[v], policy) <= Score(es[j], policy)
    requires forall j :: 0 <= j < v ==> Score(es[v], policy) < Score(es[j], policy)
    ensures Victim(es, policy) == v
  {
    var w := Victim(es, policy);
    assert Score(es[w], policy) <= Score(es[v], policy) <= Score(es[w], policy);
  }

  class List {
    var head: Node?
    var tail: Node?
    ghost var nodes: seq<Node>
    ghost var entries: seq<Entry>

    ghost predicate Valid()
      reads this, nodes`prevLru, nodes`nextLru, nodes`uptime, nodes`hits
    {
      Distinct(nodes) && Listed(nodes, head, tail) && Shows(nodes, entries)
    }

    constructor ()
      ensures Valid() && nodes == [] && entries == []
    {
      head, tail, nodes, entries := null, null, [], [];
    }

    method Reset()
      modifies this
      ensures Valid() && nodes == [] && entries == []
    {
      head, tail, nodes, entries := null, null, [], [];
    }

    /** `list_remove` */
    method Remove(n: Node, ghost k: nat)
      requires Valid() && k < |nodes| && nodes[k] == n
      modifies this, nodes`prevLru, nodes`nextLru
      ensures Valid() && nodes == old(nodes[..k] + nodes[k + 1..])
      ensures entries == Drop(old(entries), k)
    {
      ShowsDrop(nodes, entries, k);
      Bypass(n, k);
      entries := Drop(entries, k);
    }

    method Bypass(n: Node, ghost k: nat)
      requires Distinct(nodes) && Listed(nodes, head, tail) && k < |nodes| && nodes[k] == n
      modifies this`head, this`tail, this`nodes, nodes`prevLru, nodes`nextLru
      ensures Distinct(nodes) && Listed(nodes, head, tail) && nodes == old(nodes[..k] + nodes[k + 1..])
    {
      BypassNext(n, k);
      BypassPrev(n, k);
      Relisted(nodes, k, head, tail);
      nodes := nodes[..k] + nodes[k + 1..];
    }

    /** The predecessor's pointer, or the head (src/cache.c:31-32). */
    method BypassNext(n: Node, ghost k: nat)
      requires Distinct(nodes) && Listed(nodes, head, tail) && k < |nodes| && nodes[k] == n
      modifies this`head, nodes`nextLru
      ensures head == if k > 0 then nodes[0] else if |nodes| > 1 then nodes[1] else null
      ensures n.nextLru == After(nodes, k)
      ensures forall i {:trigger nodes[i].nextLru} :: 0 <= i < |nodes| && i != k ==>
        nodes[i].nextLru == After(nodes, if i + 1 == k then k else i)
    {
      assert n.prevLru == Before(nodes, k) && n.nextLru == After(nodes, k);
      if n.prevLru != null { n.prevLru.nextLru := n.nextLru; } else { head := n.nextLru; }
    }

    /** The successor's pointer, or the tail (src/cache.c:34-35). */
    method BypassPrev(n: Node, ghost k: nat)
      requires Distinct(nodes) && k < |nodes| && nodes[k] == n && n.nextLru == After(nodes, k) && tail == nodes[|nodes| - 1]
      requires forall i {:trigger nodes[i].prevLru} :: 0 <= i < |nodes| ==> nodes[i].prevLru == Before(nodes, i)
      modifies this`tail, nodes`prevLru
      ensures tail == if k < |nodes| - 1 then nodes[|nodes| - 1] else if |nodes| > 1 then nodes[|nodes| - 2] else null
      ensures forall i {:trigger nodes[i].prevLru} :: 0 <= i < |nodes| && i != k ==>
        nodes[i].prevLru == Before(nodes, if i - 1 == k then k else i)
    {
      if n.nextLru != null { n.nextLru.prevLru := n.prevLru; } else { tail := n.prevLru; }
    }

    /** `list_append` */
    method Append(n: Node)
      requires Valid() && n !in nodes
      modifies this, nodes`nextLru, n`prevLru, n`nextLru
      ensures Valid() && nodes == old(nodes) + [n]
      ensures entries == old(entries) + [EntryOf(n)]
    {
      assert nodes != [] ==> tail == nodes[|nodes| - 1];
      n.nextLru := null;
      n.prevLru := tail;
      if tail != null { tail.nextLru := n; } else { head := n; }
      tail := n;
      nodes := nodes + [n];
      entries := entries + [EntryOf(n)];
    }

    /** `list_move_to_end` */
    method MoveToEnd(n: Node, ghost k: nat)
      requires Valid() && k < |nodes| && nodes[k] == n
      modifies this, nodes`prevLru, nodes`nextLru
      ensures Valid() && nodes == MovedToEnd(old(nodes), k)
      ensures entries == Drop(old(entries), k) + [old(entries)[k]]
    {
      Remove(n, k);
      Append(n);
    }

    /** The fields a hit updates (src/cache.c:83-84). */
    method Stamp(n: Node, now: int, ghost k: nat)
      requires Valid() && k < |nodes| && nodes[k] == n
      modifies this`entries, n`uptime, n`hits
      ensures Valid() && entries == old(entries)[k := Touched(old(entries)[k], now)]
      ensures EntryOf(n) == entries[k]
    {
      n.uptime := now;
      n.hits := n.hits + 1;
      entries := entries[k := EntryOf(n)];
    }

    /** The first node of least `access_count` (src/cache.c:103-112). */
    method LeastUsed() returns (lfu: Node, ghost k: nat)
      requires Valid() && nodes != []
      ensures k == Victim(entries, LFU) && lfu == nodes[k]
    {
      var curr: Node? := head;
      lfu, k := head, 0;
      ghost var i := 0;
      while curr != null
        invariant i <= |nodes| && curr == if i < |nodes| then nodes[i] else null
        invariant k < |nodes| && lfu == nodes[k]
        invariant forall j :: 0 <= j < i ==> entries[k].hits <= entries[j].hits
        invariant forall j :: 0 <= j < k ==> entries[k].hits < entries[j].hits
        decreases |nodes| - i
      {
        if curr.hits < lfu.hits { lfu, k := curr, i; }
        curr := curr.nextLru;
        i := i + 1;
      }
      VictimIs(entries, LFU, k);
    }

    /** The first node of least `expires_at` (src/cache.c:113-123). */
    method EarliestExpiry() returns (earliest: Node, ghost k: nat)
      requires Valid() && nodes != []
      ensures k == Victim(entries, TTL) && earliest == nodes[k]
    {
      var curr: Node? := head;
      earliest, k := head, 0;
      ghost var i := 0;
      while curr != null
        invariant i <= |nodes| && curr == if i < |nodes| then nodes[i] else null
        invariant k < |nodes| && earliest == nodes[k]
        invariant forall j :: 0 <= j < i ==> entries[k].expires <= entries[j].expires
        invariant forall j :: 0 <= j < k ==> entries[k].expires < entries[j].expires
        decreases |nodes| - i
      {
        if curr.expires < earliest.expires { earliest, k := curr, i; }
        curr := curr.nextLru;
        i := i + 1;
      }
      VictimIs(entries, TTL, k);
    }
  }

  class HashTable {
    const slots: array<Node?>
    ghost var chains: seq<seq<Node>>
    ghost var nodes: set<Node>

    ghost predicate ChainOk(b: nat)
      requires slots.Length == BUCKETS && |chains| == BUCKETS && b < BUCKETS
      reads this, slots, nodes`next
    {
      && (forall n :: n in chains[b] ==> n in nodes)
      && Housed(chains[b], b) && Distinct(chains[b])
      && Chained(chains[b], slots[b])
    }

    ghost predicate Valid()
      reads this, slots, nodes`next
    {
      && slots.Length == BUCKETS && |chains| == BUCKETS
      && (forall b: nat :: b < BUCKETS ==> ChainOk(b))
    }

    constructor ()
      ensures Valid() && nodes == {} && chains == seq(BUCKETS, _ => []) && fresh(slots)
    {
      slots := new Node?[BUCKETS](_ => null);
      chains, nodes := seq(BUCKETS, _ => []), {};
    }

    /** Walks a chain for `url`, remembering the node before (src/cache.c:74-93, 158-183). */
    method Seek(h: nat, url: string) returns (prev: Node?, curr: Node?, ghost j: nat)
      requires Valid() && h < BUCKETS
      ensures j == ForwardScan(chains[h], url)
      ensures curr == if j < |chains[h]| then chains[h][j] else null
      ensures prev == if j == 0 then null else chains[h][j - 1]
    {
      ghost var c := chains[h];
      assert ChainOk(h);
      prev, curr, j := null, slots[h], 0;
      while curr != null && curr.url != url
        invariant j <= |c|
        invariant curr == if j < |c| then c[j] else null
        invariant prev == if j == 0 then null else c[j - 1]
        invariant forall i :: 0 <= i < j ==> c[i].url != url
        decreases |c| - j
      {
        prev := curr;
        curr := curr.next;
        j := j + 1;
      }
    }

    /** The node before `victim` in its chain (src/cache.c:133-136). */
    method Predecessor(h: nat, victim: Node, ghost j: nat) returns (curr: Node?)
      requires Valid() && h < BUCKETS && 0 < j < |chains[h]| && chains[h][j] == victim
      ensures curr == chains[h][j - 1]
    {
      ghost var c := chains[h];
      assert ChainOk(h);
      curr := slots[h];
      ghost var i := 0;
      while curr != null && curr.next != victim
        invariant i < j && curr == c[i]
        decreases j - i
      {
        curr := curr.next;
        i := i + 1;
      }
    }

    method Unlink(h: nat, prev: Node?, n: Node, ghost j: nat)
      requires Valid() && h < BUCKETS && j < |chains[h]| && chains[h][j] == n
      requires prev == if j == 0 then null else chains[h][j - 1]
      modifies this, slots, nodes`next
      ensures Valid() && nodes == old(nodes) - {n}
      ensures chains == old(chains)[h := old(chains)[h][..j] + old(chains)[h][j + 1..]]
    {
      ghost var c, all := chains[h], chains;
      assert ChainOk(h);
      assert n.next == if j + 1 < |c| then c[j + 1] else null;
      if prev != null { prev.next := n.next; } else { slots[h] := n.next; }
      chains := chains[h := c[..j] + c[j + 1..]];
      nodes := nodes - {n};
      forall b: nat | b < BUCKETS
        ensures ChainOk(b)
      {
        assert old(ChainOk(b));
      }
    }

    /** `CACHE->NEXT = HASH_TABLE[h]; HASH_TABLE[h] = CACHE` */
    method Prepend(h: nat, n: Node)
      requires Valid() && h == Bucket(n.url) && n !in nodes
      modifies this, slots, n`next
      ensures Valid() && nodes == old(nodes) + {n}
      ensures chains == old(chains)[h := [n] + old(chains)[h]]
    {
      assert ChainOk(h);
      n.next := slots[h];
      slots[h] := n;
      chains := chains[h := [n] + chains[h]];
      nodes := nodes + {n};
      forall b: nat | b < BUCKETS
        ensures ChainOk(b)
      {
        assert old(ChainOk(b));
      }
    }

    /** Frees every chain, node by node; no node is freed twice (src/cache.c:189-205). */
    method Wipe() returns (ghost freed: set<Node>)
      requires Valid()
      modifies this, slots
      ensures Valid() && nodes == {} && chains == seq(BUCKETS, _ => [])
      ensures forall n :: n in freed <==> n in old(chains)[Bucket(n.url)]
    {
      freed := {};
      for i := 0 to BUCKETS
        modifies slots
        invariant forall b: nat :: i <= b < BUCKETS ==> slots[b] == old(slots[b])
        invariant forall b: nat :: b < i ==> slots[b] == null
        invariant forall n :: n in freed <==> Bucket(n.url) < i && n in chains[Bucket(n.url)]
      {
        assert old(ChainOk(i));
        var more := FreeChain(i, freed);
        freed := freed + more;
        slots[i] := null;
      }
      chains, nodes := seq(BUCKETS, _ => []), {};
    }

    method FreeChain(i: nat, ghost before: set<Node>) returns (ghost freed: set<Node>)
      requires slots.Length == BUCKETS && |chains| == BUCKETS && i < BUCKETS && ChainOk(i)
      requires forall n :: n in before ==> Bucket(n.url) < i
      ensures forall n :: n in freed <==> n in chains[i]
    {
      freed := {};
      ghost var c := chains[i];
      ghost var j := 0;
      var curr := slots[i];
      while curr != null
        invariant j <= |c| && curr == if j < |c| then c[j] else null
        invariant forall n :: n in freed <==> n in c[..j]
        decreases |c| - j
      {
        var next := curr.next;
        assert curr !in freed && curr !in before;
        freed := freed + {curr};
        assert c[..j + 1] == c[..j] + [c[j]];
        curr := next;
        j := j + 1;
      }
      assert c[..|c|] == c;
    }
  }

  class Cache {
    const table: HashTable
    const lru: List
    var size: nat
    var policy: Policy
    /** Lookups between releasing the lock on an expired entry and purging it. */
    ghost var pending: multiset<string>

    ghost predicate Valid()
      reads this, table, table.slots, table.nodes`next
      reads lru, lru.nodes`prevLru, lru.nodes`nextLru, lru.nodes`uptime, lru.nodes`hits
    {
      && table.Valid() && lru.Valid()
      && Agree(lru.nodes, table.chains)
      && (forall n :: n in table.nodes ==> n in lru.nodes)
      && (forall n :: n in lru.nodes ==> n in table.nodes)
    }

    ghost function Abstract(): State
      reads this, lru
    {
      State(Store(lru.entries, size), policy, pending)
    }

    /** `Cache_init` */
    constructor ()
      ensures Valid() && Abstract() == START
      ensures fresh(table) && fresh(table.slots) && fresh(lru)
    {
      table := new HashTable();
      lru := new List();
      size, policy, pending := 0, LRU, multiset{};
      new;
      AgreeEmpty();
    }

    /** The move of a hit to the end of the list (src/cache.c:86-88). */
    method Promote(n: Node, ghost k: nat)
      requires Valid() && k < |lru.nodes| && lru.nodes[k] == n
      requires forall j :: k < j < |lru.nodes| ==> lru.nodes[j].url != n.url
      modifies lru, table.nodes`prevLru, table.nodes`nextLru
      ensures Valid() && lru.entries == Drop(old(lru.entries), k) + [old(lru.entries)[k]]
    {
      AgreeRefresh(lru.nodes, table.chains, k);
      MembersMoved(lru.nodes, k);
      lru.MoveToEnd(n, k);
    }

    /** What a hit changes (src/cache.c:83-88). */
    method Touch(n: Node, now: int, ghost k: nat)
      requires Valid() && k < |lru.nodes| && lru.nodes[k] == n
      requires forall j :: k < j < |lru.entries| ==> lru.entries[j].url != n.url
      modifies lru, table.nodes`prevLru, table.nodes`nextLru, n`uptime, n`hits
      ensures Valid() && EntryOf(n) == Touched(old(lru.entries)[k], now)
      ensures lru.entries == if policy == LRU
                             then Drop(old(lru.entries), k) + [Touched(old(lru.entries)[k], now)]
                             else old(lru.entries)[k := Touched(old(lru.entries)[k], now)]
    {
      ghost var es := lru.entries;
      assert forall j :: k < j < |lru.nodes| ==> es[j].url == lru.nodes[j].url;
      lru.Stamp(n, now, k);
      assert Drop(lru.entries, k) == Drop(es, k);
      if policy == LRU { Promote(n, k); }
    }

    /** Walking the chain finds the newest entry of the list. */
    method Locate(url: string) returns (h: nat, prev: Node?, curr: Node?, ghost j: nat, ghost k: int)
      requires Valid()
      ensures h == Bucket(url) && k == Newest(lru.entries, url)
      ensures curr == null <==> k == -1
      ensures curr != null ==> curr == lru.nodes[k] && curr.url == url
      ensures curr != null ==> j < |table.chains[h]| && curr == table.chains[h][j]
      ensures curr != null ==> prev == if j == 0 then null else table.chains[h][j - 1]
    {
      h := HashUrl(url);
      prev, curr, j := table.Seek(h, url);
      FirstInChainIsLastInList(lru.nodes, table.chains, url);
      NewestIsBackwardScan(lru.nodes, lru.entries, url);
      k := Newest(lru.entries, url);
    }

    /** The first critical section of `FindCache` (src/cache.c:69-95). */
    method Lookup(url: string, now: int) returns (reply: Reply)
      requires Valid()
      modifies this, lru, table.nodes
      ensures Valid() && Abstract() == Next(old(Abstract()), CacheSpec.Lookup(url, now))
      ensures reply == LookupReply(old(Abstract()).store.entries, url, now)
    {
      var _, _, curr, _, k := Locate(url);
      if curr == null {
        return Miss;
      }
      if curr.expires > 0 && curr.expires < now {
        pending := pending + multiset{url};
        return Expired;
      }
      Touch(curr, now, k);
      return Hit(Entry(curr.url, curr.data, curr.uptime, curr.hits, curr.expires));
    }

    /** The list and its chain without the node at list position `k`, chain position `j`. */
    ghost predicate Unlinkable(h: nat, n: Node, j: nat, k: nat)
      reads this, table, lru
    {
      && |table.chains| == BUCKETS && h == Bucket(n.url)
      && j < |table.chains[h]| && table.chains[h][j] == n
      && k < |lru.nodes| && lru.nodes[k] == n
    }

    lemma AgreeUnlinked(h: nat, n: Node, j: nat, k: nat)
      requires Agree(lru.nodes, table.chains) && Unlinkable(h, n, j, k)
      ensures var c, l := table.chains[h], lru.nodes;
              && Agree(l[..k] + l[k + 1..], table.chains[h := c[..j] + c[j + 1..]])
              && (forall x :: x in l[..k] + l[k + 1..] <==> x in l && x != n)
    {
      var c, l := table.chains[h], lru.nodes;
      AgreeDelete(l, table.chains, n);
      ChainsDistinct(l, table.chains, h);
      MinusAt(c, j);
      MinusAt(l, k);
      forall x: Node
        ensures x in l[..k] + l[k + 1..] <==> x in l && x != n
      {
        MinusIn(l, n, x);
      }
    }

    /** Unlinks a node from both threadings. */
    method Detach(h: nat, prev: Node?, n: Node, ghost j: nat, ghost k: nat)
      requires Valid() && Unlinkable(h, n, j, k)
      requires prev == if j == 0 then null else table.chains[h][j - 1]
      modifies table, table.slots, table.nodes`next, lru, table.nodes`prevLru, table.nodes`nextLru
      ensures Valid() && lru.entries == Drop(old(lru.entries), k)
      ensures table.nodes <= old(table.nodes)
    {
      AgreeUnlinked(h, n, j, k);
      ghost var l := lru.nodes[..k] + lru.nodes[k + 1..];
      ghost var c := table.chains[h := table.chains[h][..j] + table.chains[h][j + 1..]];
      table.Unlink(h, prev, n, j);
      lru.Remove(n, k);
      assert lru.nodes == l && table.chains == c;
    }

    /** Unlinks a node and takes its bytes off the counter (src/cache.c:140-141, 167-168). */
    method Discard(h: nat, prev: Node?, n: Node, ghost j: nat, ghost k: nat)
      requires Valid() && Unlinkable(h, n, j, k)
      requires prev == if j == 0 then null else table.chains[h][j - 1]
      modifies this`size, table, table.slots, table.nodes`next, lru, table.nodes`prevLru, table.nodes`nextLru
      ensures Valid() && Store(lru.entries, size) == Without(old(Abstract()).store, k)
      ensures table.nodes <= old(table.nodes)
    {
      assert lru.entries[k] == EntryOf(n);
      size := (size - ElementSize(n.url, n.data)) % WORD;
      Detach(h, prev, n, j, k);
    }

    /** The node to evict under the current policy (src/cache.c:101-123). */
    method PickVictim() returns (victim: Node, ghost k: nat)
      requires Valid() && lru.nodes != []
      ensures k == Victim(lru.entries, policy) && victim == lru.nodes[k]
    {
      match policy
      case LRU =>
        victim, k := lru.head, 0;
        assert Score(lru.entries[0], LRU) == 0;
      case LFU => victim, k := lru.LeastUsed();
      case TTL => victim, k := lru.EarliestExpiry();
    }

    /** The chain position of a listed node. */
    lemma ChainPosition(n: Node) returns (j: nat)
      requires Agree(lru.nodes, table.chains) && n in lru.nodes
      ensures j < |table.chains[Bucket(n.url)]| && table.chains[Bucket(n.url)][j] == n
    {
      SameNodes(lru.nodes, table.chains, n);
      j :| 0 <= j < |table.chains[Bucket(n.url)]| && table.chains[Bucket(n.url)][j] == n;
    }

    /** A node's bucket and the node before it in the chain (src/cache.c:129-136). */
    method Before(victim: Node) returns (h: nat, prev: Node?, ghost j: nat)
      requires Valid() && victim in lru.nodes
      ensures h == Bucket(victim.url) && j < |table.chains[h]| && table.chains[h][j] == victim
      ensures prev == if j == 0 then null else table.chains[h][j - 1]
    {
      h := HashUrl(victim.url);
      j := ChainPosition(victim);
      assert table.ChainOk(h);
      prev := null;
      if table.slots[h] != victim { prev := table.Predecessor(h, victim, j); }
    }

    /** `RemoveCache` */
    method Evict()
      requires Valid()
      modifies this`size, table, table.slots, table.nodes`next, lru, table.nodes`prevLru, table.nodes`nextLru
      ensures Valid() && (table.nodes <= old(table.nodes))
      ensures Store(lru.entries, size) ==
              if old(lru.entries) == [] then old(Abstract()).store
              else Without(old(Abstract()).store, Victim(old(lru.entries), policy))
    {
      if lru.head == null { return; }
      var victim, k := PickVictim();
      var h, prev, j := Before(victim);
      Discard(h, prev, victim, j, k);
    }

    /** `Cache_purge` */
    method Purge(url: string)
      requires Valid()
      modifies this, table, table.slots, lru, table.nodes
      ensures Valid() && Abstract() == Next(old(Abstract()), CacheSpec.Purge(url))
      ensures table.nodes <= old(table.nodes)
    {
      var h, prev, curr, j, k := Locate(url);
      if curr != null {
        Discard(h, prev, curr, j, k);
      }
    }

    /** The second critical section of a lookup that saw an expired entry (src/cache.c:79). */
    method LatePurge(url: string)
      requires Valid() && url in pending
      modifies this, table, table.slots, lru, table.nodes
      ensures Valid() && Abstract() == Next(old(Abstract()), CacheSpec.LatePurge(url))
      ensures table.nodes <= old(table.nodes)
    {
      Purge(url);
      pending := pending - multiset{url};
    }

    /** `Cache_clear`: frees exactly the live nodes, each once. */
    method Clear() returns (ghost freed: set<Node>)
      requires Valid()
      modifies this`size, table, table.slots, lru
      ensures Valid() && Abstract() == Next(old(Abstract()), CacheSpec.Clear)
      ensures forall n :: n in freed <==> n in old(lru.nodes)
    {
      ghost var l, c := lru.nodes, table.chains;
      freed := table.Wipe();
      forall n: Node
        ensures n in freed <==> n in l
      {
        SameNodes(l, c, n);
      }
      lru.Reset();
      size := 0;
      AgreeEmpty();
    }

    /** `Cache_set_eviction_policy` */
    method SetPolicy(p: Policy)
      requires Valid()
      modifies this`policy
      ensures Valid() && Abstract() == Next(old(Abstract()), CacheSpec.SetPolicy(p))
    {
      policy := p;
    }

    /** One turn of the eviction loop. */
    method EvictOne(need: nat, limit: nat, ghost goal: Store)
      requires Valid() && (size + need) % WORD > limit && lru.head != null
      requires EvictsTo(Abstract().store, policy, need, limit, goal)
      modifies this`size, table, table.slots, table.nodes`next, lru, table.nodes`prevLru, table.nodes`nextLru
      ensures Valid() && table.nodes <= old(table.nodes) && |lru.entries| < old(|lru.entries|)
      ensures EvictsTo(Abstract().store, policy, need, limit, goal)
    {
      EvictedStep(Abstract().store, policy, need, limit);
      Evict();
    }

    /** The eviction loop (src/cache.c:235-237). */
    method EvictLoop(need: nat, limit: nat, ghost goal: Store)
      requires Valid() && EvictsTo(Abstract().store, policy, need, limit, goal)
      modifies this`size, table, table.slots, table.nodes`next, lru, table.nodes`prevLru, table.nodes`nextLru
      ensures Valid() && table.nodes <= old(table.nodes)
      ensures EvictsTo(Abstract().store, policy, need, limit, goal)
      ensures (size + need) % WORD <= limit || lru.head == null
    {
      while (size + need) % WORD > limit && lru.head != null
        invariant Valid() && table.nodes <= old(table.nodes)
        invariant EvictsTo(Abstract().store, policy, need, limit, goal)
        decreases |lru.entries|
      {
        EvictOne(need, limit, goal);
      }
    }

    lemma NoHead()
      requires lru.Valid() && lru.head == null
      ensures lru.entries == []
    {
    }

    lemma Settled(need: nat, limit: nat, goal: Store)
      requires lru.Valid() && ((size + need) % WORD <= limit || lru.head == null)
      requires EvictsTo(Abstract().store, policy, need, limit, goal)
      ensures Abstract().store == goal
    {
      if lru.head == null { NoHead(); }
      EvictsDone(Abstract().store, policy, need, limit, goal);
    }

    method MakeRoom(need: nat, limit: nat)
      requires Valid()
      modifies this`size, table, table.slots, table.nodes`next, lru, table.nodes`prevLru, table.nodes`nextLru
      ensures Valid() && table.nodes <= old(table.nodes)
      ensures Abstract().store == Evicted(old(Abstract()).store, policy, need, limit)
    {
      ghost var goal := Evicted(Abstract().store, policy, need, limit);
      EvictLoop(need, limit, goal);
      Settled(need, limit, goal);
    }

    /** Links a fresh node into both threadings (src/cache.c:293-297). */
    method Link(n: Node)
      requires Valid() && n !in lru.nodes
      modifies table, table.slots, lru, table.nodes`nextLru, n`next, n`prevLru, n`nextLru
      ensures Valid() && lru.entries == old(lru.entries) + [EntryOf(n)]
    {
      AgreeInsert(lru.nodes, table.chains, n);
      var h := HashUrl(n.url);
      table.Prepend(h, n);
      lru.Append(n);
    }

    /** Allocates and links the entry once there is room (src/cache.c:244-299). */
    method Insert(data: string, url: string, now: int, expires: int)
      requires Valid()
      modifies this`size, table, table.slots, lru, table.nodes`nextLru
      ensures Valid() && lru.entries == old(lru.entries) + [Entry(url, data, now, 1, expires)]
      ensures size == (old(size) + Need(|data|, url)) % WORD
    {
      var n := new Node(url, data, now, expires);
      Link(n);
      size := (size + Need(|data|, url)) % WORD;
    }

    /**
     `AddCache` on SIZE bytes at `data`; `now` and `later` are the clock readings for UPTIME
     and the expiry time.
     */
    method Add(data: string, bytes: int, url: string, lim: Limits, now: int, later: int) returns (ok: bool)
      requires Valid() && bytes <= |data| && bytes != -1
      modifies this`size, table, table.slots, table.nodes`next, lru, table.nodes`prevLru, table.nodes`nextLru
      ensures Valid() && Added(Abstract().store, ok) == AddOutcome(old(Abstract()), CacheSpec.Add(data, bytes, url, lim, now, later))
      ensures Abstract() == old(Abstract()).(store := Abstract().store)
    {
      if bytes < 0 {
        FailToAdmit(Need(bytes, url), !Uncacheable(data), lim);
        return false;
      }
      ok := Admit(NewEntry(url, data, bytes, now, later), !Uncacheable(data), lim);
    }

    /** Makes room for an element whose allocation then fails (src/cache.c:227-281). */
    method FailToAdmit(need: nat, cacheable: bool, lim: Limits)
      requires Valid()
      modifies this`size, table, table.slots, table.nodes`next, lru, table.nodes`prevLru, table.nodes`nextLru
      ensures Valid() && Abstract().store == AfterFailedAdd(old(Abstract()).store, policy, need, cacheable, lim)
    {
      if cacheable && need <= lim.maxElement { MakeRoom(need, lim.maxCache); }
    }

    /** The last test for room, and the insertion (src/cache.c:239-299). */
    method Fill(e: Entry, limit: nat) returns (ok: bool)
      requires Valid() && e.hits == 1
      modifies this`size, table, table.slots, lru, table.nodes`nextLru
      ensures Valid() && Added(Abstract().store, ok) == Filled(old(Abstract()).store, e, limit)
    {
      var need := Need(|e.data|, e.url);
      if (size + need) % WORD > limit { return false; }
      Insert(e.data, e.url, e.uptime, e.expires);
      return true;
    }

    method Admit(e: Entry, cacheable: bool, lim: Limits) returns (ok: bool)
      requires Valid() && e.hits == 1
      modifies this`size, table, table.slots, table.nodes`next, lru, table.nodes`prevLru, table.nodes`nextLru
      ensures Valid()
      ensures Added(Abstract().store, ok) == AfterAdd(old(Abstract()).store, policy, e, cacheable, lim)
    {
      if !cacheable { return false; }
      var need := Need(|e.data|, e.url);
      if need > lim.maxElement { return false; }
      MakeRoom(need, lim.maxCache);
      ok := Fill(e, lim.maxCache);
    }
  }
}
