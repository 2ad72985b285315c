/**
 The two threadings of the cache's nodes (src/cache.c): 1024 hash chains and one
 doubly linked list.  Here both are sequences of nodes; `CacheStore` ties them to
 the pointers.  The invariant `Agree` says, for every URL, that the nodes of that
 URL stand in its hash chain in exactly the reverse of their list order.
 */
module CacheIndex {

  /** One `CacheModule`.  URL, data and expiry time are written once, at creation. */
  class Node {
    const url: string
    const data: string
    const expires: int
    var uptime: int
    var hits: int
    var next: Node?
    var prevLru: Node?
    var nextLru: Node?

    constructor (url: string, data: string, uptime: int, expires: int)
      ensures this.url == url && this.data == data && this.expires == expires
      ensures this.uptime == uptime && hits == 1
    {
      this.url, this.data, this.expires := url, data, expires;
      this.uptime, hits := uptime, 1;
      next, prevLru, nextLru := null, null, null;
    }
  }

  const BUCKETS: nat := 1024

  /** A `char` of the source is a signed byte. */
  function SignedChar(c: char): int {
    if c as int < 128 then c as int else c as int - 256
  }

  /** The hash polynomial over unbounded integers, before any machine wrap-around. */
  function Djb2(url: string): int {
    if url == [] then 5381 else 33 * Djb2(url[..|url| - 1]) + SignedChar(url[|url| - 1])
  }

  /** The bucket of a text of one letter, as the source computes it. */
  lemma BucketOfLetter(c: char)
    requires c as int < 128
    ensures Bucket([c]) == (177573 + c as int) % 1024
  {
    assert Djb2([]) == 5381;
    assert [c][..0] == [];
    assert Djb2([c]) == 33 * Djb2([]) + c as int;
  }

  function Bucket(url: string): (b: nat)
    ensures b < BUCKETS
  {
    Djb2(url) % BUCKETS
  }

  /** The nodes of `s` that hold `url`, in the order of `s`. */
  ghost function Matches(s: seq<Node>, url: string): seq<Node> {
    if s == [] then []
    else if s[0].url == url then [s[0]] + Matches(s[1..], url)
    else Matches(s[1..], url)
  }

  ghost function Reversed(s: seq<Node>): seq<Node> {
    if s == [] then [] else Reversed(s[1..]) + [s[0]]
  }

  /** `s` without the node `n`. */
  ghost function Minus(s: seq<Node>, n: Node): seq<Node> {
    if s == [] then []
    else if s[0] == n then Minus(s[1..], n)
    else [s[0]] + Minus(s[1..], n)
  }

  ghost predicate Distinct(s: seq<Node>) {
    forall i, j :: 0 <= i < j < |s| ==> s[i] != s[j]
  }

  /** For one URL, the chain `c` is the list `l` reversed. */
  ghost predicate Mirrors(c: seq<Node>, l: seq<Node>, url: string) {
    Matches(c, url) == Reversed(Matches(l, url))
  }

  ghost predicate Housed(c: seq<Node>, b: nat) {
    forall n :: n in c ==> Bucket(n.url) == b
  }

  /** Every node sits in the chain of its URL, and per URL the chain is the list reversed. */
  ghost predicate Agree(list: seq<Node>, chains: seq<seq<Node>>) {
    && |chains| == BUCKETS
    && Distinct(list)
    && (forall b {:trigger Housed(chains[b], b)} :: 0 <= b < BUCKETS ==> Housed(chains[b], b))
    && (forall url {:trigger Mirrors(chains[Bucket(url)], list, url)} :: Mirrors(chains[Bucket(url)], list, url))
  }

  // ---- sequence facts ----

  lemma {:induction false} MatchesConcat(a: seq<Node>, b: seq<Node>, url: string)
    ensures Matches(a + b, url) == Matches(a, url) + Matches(b, url)
  {
    if a == [] {
      assert a + b == b;
    } else {
      var t := a[1..];
      assert (a + b)[1..] == t + b;
      MatchesConcat(t, b, url);
      if a[0].url == url {
        assert [a[0]] + (Matches(t, url) + Matches(b, url)) == ([a[0]] + Matches(t, url)) + Matches(b, url);
      }
    }
  }

  lemma {:induction false} MatchesIn(s: seq<Node>, url: string, n: Node)
    ensures n in Matches(s, url) <==> n in s && n.url == url
  {
    if s != [] {
      MatchesIn(s[1..], url, n);
      assert n in s <==> n == s[0] || n in s[1..];
    }
  }

  lemma {:induction false} NoMatches(s: seq<Node>, url: string)
    requires forall i :: 0 <= i < |s| ==> s[i].url != url
    ensures Matches(s, url) == []
  {
    if s != [] { NoMatches(s[1..], url); }
  }

  lemma {:induction false} ReversedSnoc(s: seq<Node>, n: Node)
    ensures Reversed(s + [n]) == [n] + Reversed(s)
  {
    if s == [] {
      assert s + [n] == [n];
    } else {
      var t := s[1..];
      assert (s + [n])[1..] == t + [n];
      ReversedSnoc(t, n);
      assert ([n] + Reversed(t)) + [s[0]] == [n] + (Reversed(t) + [s[0]]);
    }
  }

  /** The reversal, position by position: peel the last node off the list, the first off the result. */
  lemma {:induction false} ReversedAt(s: seq<Node>, k: nat)
    requires k < |s|
    ensures |Reversed(s)| == |s| && Reversed(s)[k] == s[|s| - 1 - k]
    decreases |s|
  {
    var front, last := s[..|s| - 1], s[|s| - 1];
    assert s == front + [last];
    ReversedSnoc(front, last);
    if k > 0 {
      ReversedAt(front, k - 1);
    } else if front != [] {
      ReversedAt(front, 0);
    }
  }

  lemma {:induction false} ReversedIn(s: seq<Node>, n: Node)
    ensures n in Reversed(s) <==> n in s
  {
    if s != [] {
      ReversedIn(s[1..], n);
      assert n in s <==> n == s[0] || n in s[1..];
    }
  }

  lemma {:induction false} MinusIn(s: seq<Node>, n: Node, x: Node)
    ensures x in Minus(s, n) <==> x in s && x != n
  {
    if s != [] {
      MinusIn(s[1..], n, x);
      assert x in s <==> x == s[0] || x in s[1..];
    }
  }

  lemma {:induction false} MinusSnoc(s: seq<Node>, n: Node, x: Node)
    ensures Minus(s + [x], n) == Minus(s, n) + (if x == n then [] else [x])
  {
    if s == [] {
      assert s + [x] == [x];
      assert [x][1..] == [];
    } else {
      var t := s[1..];
      assert (s + [x])[1..] == t + [x];
      MinusSnoc(t, n, x);
    }
  }

  lemma {:induction false} MinusAbsent(s: seq<Node>, n: Node)
    requires n !in s
    ensures Minus(s, n) == s
  {
    if s != [] {
      MinusAbsent(s[1..], n);
      assert s == [s[0]] + s[1..];
    }
  }

  lemma {:induction false} MinusAt(s: seq<Node>, k: nat)
    requires Distinct(s) && k < |s|
    ensures Minus(s, s[k]) == s[..k] + s[k + 1..]
  {
    var n, t := s[k], s[1..];
    if k == 0 {
      MinusAbsent(t, n);
      assert s[..0] + s[1..] == t;
    } else {
      assert s[0] != n && t[k - 1] == n;
      MinusAt(t, k - 1);
      assert [s[0]] + (t[..k - 1] + t[k..]) == s[..k] + s[k + 1..];
    }
  }

  lemma {:induction false} ReversedMinus(s: seq<Node>, n: Node)
    ensures Reversed(Minus(s, n)) == Minus(Reversed(s), n)
  {
    if s != [] {
      var t := s[1..];
      ReversedMinus(t, n);
      MinusSnoc(Reversed(t), n, s[0]);
      if s[0] != n {
        assert ([s[0]] + Minus(t, n))[1..] == Minus(t, n);
      }
    }
  }

  lemma {:induction false} MatchesMinus(s: seq<Node>, n: Node, url: string)
    ensures Matches(Minus(s, n), url) == Minus(Matches(s, url), n)
  {
    if s != [] {
      var t := s[1..];
      MatchesMinus(t, n, url);
      if s[0] != n {
        assert ([s[0]] + Minus(t, n))[1..] == Minus(t, n);
      }
      if s[0].url == url {
        assert ([s[0]] + Matches(t, url))[1..] == Matches(t, url);
      }
    }
  }

  lemma {:induction false} MatchesDistinct(s: seq<Node>, url: string)
    requires Distinct(s)
    ensures Distinct(Matches(s, url))
  {
    if s != [] {
      MatchesDistinct(s[1..], url);
      MatchesIn(s[1..], url, s[0]);
    }
  }

  lemma ReversedDistinct(s: seq<Node>)
    requires Distinct(s)
    ensures Distinct(Reversed(s))
  {
    var r := Reversed(s);
    if s != [] { ReversedAt(s, 0); }
    forall i, j | 0 <= i < j < |r|
      ensures r[i] != r[j]
    {
      ReversedAt(s, i);
      ReversedAt(s, j);
    }
  }

  /** A node that stands twice in a chain stands twice among the matches of its URL. */
  lemma {:induction false} DistinctFromMatches(c: seq<Node>, i: nat, j: nat)
    requires i < j < |c| && Distinct(Matches(c, c[i].url))
    ensures c[i] != c[j]
  {
    if c[i] == c[j] {
      var n := c[i];
      var a, b := c[..j], c[j..];
      assert c == a + b;
      MatchesConcat(a, b, n.url);
      assert a[i] == n && b[0] == n;
      MatchesIn(a, n.url, n);
      MatchesIn(b, n.url, n);
      SharedNotDistinct(Matches(a, n.url), Matches(b, n.url), n);
    }
  }

  lemma SharedNotDistinct(a: seq<Node>, b: seq<Node>, n: Node)
    requires n in a && n in b
    ensures !Distinct(a + b)
  {
    var i :| 0 <= i < |a| && a[i] == n;
    var j :| 0 <= j < |b| && b[j] == n;
    assert (a + b)[i] == (a + b)[|a| + j];
  }

  // ---- consequences of the invariant ----

  /** A node is in the list exactly when it is in the chain of its URL's bucket. */
  lemma SameNodes(list: seq<Node>, chains: seq<seq<Node>>, n: Node)
    requires Agree(list, chains)
    ensures n in list <==> n in chains[Bucket(n.url)]
  {
    var c := chains[Bucket(n.url)];
    assert Mirrors(c, list, n.url);
    MatchesIn(list, n.url, n);
    MatchesIn(c, n.url, n);
    ReversedIn(Matches(list, n.url), n);
  }

  /** No chain holds a node twice. */
  lemma ChainsDistinct(list: seq<Node>, chains: seq<seq<Node>>, b: nat)
    requires Agree(list, chains) && b < BUCKETS
    ensures Distinct(chains[b])
  {
    var c := chains[b];
    forall i, j | 0 <= i < j < |c|
      ensures c[i] != c[j]
    {
      var url := c[i].url;
      assert Housed(c, b) && c[i] in c;
      assert Mirrors(c, list, url);
      MatchesDistinct(list, url);
      ReversedDistinct(Matches(list, url));
      DistinctFromMatches(c, i, j);
    }
  }

  /** The index of the last node holding `url`, by a backward scan of the list; -1 if none. */
  ghost function BackwardScan(list: seq<Node>, url: string): (k: int)
    ensures -1 <= k < |list|
    ensures k >= 0 ==> list[k].url == url
    ensures forall j :: k < j < |list| ==> list[j].url != url
  {
    if list == [] then -1
    else if list[|list| - 1].url == url then |list| - 1
    else BackwardScan(list[..|list| - 1], url)
  }

  /** The index of the first node holding `url` in a chain; |c| if none. */
  ghost function ForwardScan(c: seq<Node>, url: string): (k: nat)
    ensures k <= |c|
    ensures k < |c| ==> c[k].url == url
    ensures forall j :: 0 <= j < k ==> c[j].url != url
  {
    if c == [] then 0
    else if c[0].url == url then 0
    else 1 + ForwardScan(c[1..], url)
  }

  lemma {:induction false} FirstMatch(c: seq<Node>, url: string)
    ensures var f := ForwardScan(c, url);
            if f == |c| then Matches(c, url) == []
            else Matches(c, url) != [] && Matches(c, url)[0] == c[f]
  {
    if c != [] && c[0].url != url { FirstMatch(c[1..], url); }
  }

  lemma {:induction false} LastMatch(l: seq<Node>, url: string)
    ensures var k := BackwardScan(l, url); var m := Matches(l, url);
            if k == -1 then m == [] else m != [] && m[|m| - 1] == l[k]
  {
    if l != [] {
      var a, n := l[..|l| - 1], l[|l| - 1];
      assert l == a + [n];
      MatchesConcat(a, [n], url);
      if n.url == url {
        assert Matches([n], url) == [n];
      } else {
        NoMatches([n], url);
        LastMatch(a, url);
      }
    }
  }

  /** The hash index agrees with a backward linear scan of the list. */
  lemma FirstInChainIsLastInList(list: seq<Node>, chains: seq<seq<Node>>, url: string)
    requires Agree(list, chains)
    ensures var c := chains[Bucket(url)];
            var f, k := ForwardScan(c, url), BackwardScan(list, url);
            (f == |c| <==> k == -1) && (f < |c| ==> c[f] == list[k])
  {
    var c := chains[Bucket(url)];
    assert Mirrors(c, list, url);
    FirstMatch(c, url);
    LastMatch(list, url);
    var m := Matches(list, url);
    if m != [] { ReversedAt(m, 0); }
  }

  // ---- the four ways the source relinks nodes ----

  lemma AgreeEmpty()
    ensures Agree([], seq(BUCKETS, _ => []))
  {
  }

  lemma MirrorsInsert(c: seq<Node>, l: seq<Node>, n: Node, url: string)
    requires Mirrors(c, l, url)
    ensures Mirrors([n] + c, l + [n], url)
    ensures n.url != url ==> Mirrors(c, l + [n], url)
  {
    MatchesConcat(l, [n], url);
    MatchesConcat([n], c, url);
    if n.url == url {
      assert Matches([n], url) == [n];
      ReversedSnoc(Matches(l, url), n);
    } else {
      assert Matches([n], url) == [];
      assert [] + Matches(c, url) == Matches(c, url);
      assert Matches(l, url) + [] == Matches(l, url);
    }
  }

  /** Prepending to the chain and appending to the list (src/cache.c:293-297). */
  lemma AgreeInsert(list: seq<Node>, chains: seq<seq<Node>>, n: Node)
    requires Agree(list, chains) && n !in list
    ensures var b := Bucket(n.url);
            Agree(list + [n], chains[b := [n] + chains[b]])
  {
    var b := Bucket(n.url);
    var chains' := chains[b := [n] + chains[b]];
    forall url
      ensures Mirrors(chains'[Bucket(url)], list + [n], url)
    {
      assert Mirrors(chains[Bucket(url)], list, url);
      MirrorsInsert(chains[Bucket(url)], list, n, url);
    }
    assert Housed(chains[b], b);
    assert Housed(chains'[b], b);
    forall i | 0 <= i < BUCKETS
      ensures Housed(chains'[i], i)
    {
      assert Housed(chains[i], i);
    }
  }

  lemma MirrorsDelete(c: seq<Node>, l: seq<Node>, n: Node, url: string)
    requires Mirrors(c, l, url)
    ensures Mirrors(Minus(c, n), Minus(l, n), url)
    ensures n.url != url ==> Mirrors(c, Minus(l, n), url)
  {
    MatchesMinus(l, n, url);
    MatchesMinus(c, n, url);
    ReversedMinus(Matches(l, url), n);
    if n.url != url {
      MatchesIn(l, url, n);
      MinusAbsent(Matches(l, url), n);
    }
  }

  lemma MinusDistinct(s: seq<Node>, n: Node)
    requires Distinct(s)
    ensures Distinct(Minus(s, n))
  {
    if n in s {
      var k :| 0 <= k < |s| && s[k] == n;
      MinusAt(s, k);
    } else {
      MinusAbsent(s, n);
    }
  }

  lemma HousedMinus(c: seq<Node>, n: Node, b: nat)
    requires Housed(c, b)
    ensures Housed(Minus(c, n), b)
  {
    forall x | x in Minus(c, n)
      ensures Bucket(x.url) == b
    {
      MinusIn(c, n, x);
    }
  }

  /** Unlinking one node from its chain and from the list (src/cache.c:125-138, 161-166). */
  lemma AgreeDelete(list: seq<Node>, chains: seq<seq<Node>>, n: Node)
    requires Agree(list, chains)
    ensures var b := Bucket(n.url);
            Agree(Minus(list, n), chains[b := Minus(chains[b], n)])
  {
    var b := Bucket(n.url);
    var chains' := chains[b := Minus(chains[b], n)];
    forall url
      ensures Mirrors(chains'[Bucket(url)], Minus(list, n), url)
    {
      assert Mirrors(chains[Bucket(url)], list, url);
      MirrorsDelete(chains[Bucket(url)], list, n, url);
    }
    MinusDistinct(list, n);
    forall i | 0 <= i < BUCKETS
      ensures Housed(chains'[i], i)
    {
      assert Housed(chains[i], i);
      HousedMinus(chains[i], n, i);
    }
  }

  /** `l` with its `k`th node moved to the end. */
  ghost function MovedToEnd(l: seq<Node>, k: nat): seq<Node>
    requires k < |l|
  {
    l[..k] + l[k + 1..] + [l[k]]
  }

  lemma MatchesMoved(l: seq<Node>, k: nat, url: string)
    requires k < |l| && (forall j :: k < j < |l| ==> l[j].url != l[k].url)
    ensures Matches(MovedToEnd(l, k), url) == Matches(l, url)
  {
    var a, n, b := l[..k], [l[k]], l[k + 1..];
    assert l == a + (n + b);
    MatchesConcat(a, n + b, url);
    MatchesConcat(n, b, url);
    MatchesConcat(a + b, n, url);
    MatchesConcat(a, b, url);
    if l[k].url == url {
      NoMatches(b, url);
    } else {
      NoMatches(n, url);
    }
  }

  /** Moving the newest node of a URL to the list's end (src/cache.c:46-49, 86-88). */
  lemma AgreeRefresh(list: seq<Node>, chains: seq<seq<Node>>, k: nat)
    requires Agree(list, chains)
    requires k < |list| && (forall j :: k < j < |list| ==> list[j].url != list[k].url)
    ensures Agree(MovedToEnd(list, k), chains)
  {
    forall url
      ensures Mirrors(chains[Bucket(url)], MovedToEnd(list, k), url)
    {
      assert Mirrors(chains[Bucket(url)], list, url);
      MatchesMoved(list, k, url);
    }
  }

  // ---- every run ----

  /** What one critical section does to the two threadings. */
  datatype Relink = Insert(node: Node) | Delete(victim: Node) | Refresh(url: string) | Wipe

  datatype Threads = Threads(list: seq<Node>, chains: seq<seq<Node>>)

  ghost function Relinked(t: Threads, op: Relink): Threads
    requires |t.chains| == BUCKETS
  {
    match op
    case Insert(n) =>
      var b := Bucket(n.url);
      if n in t.list then t else Threads(t.list + [n], t.chains[b := [n] + t.chains[b]])
    case Delete(n) =>
      var b := Bucket(n.url);
      Threads(Minus(t.list, n), t.chains[b := Minus(t.chains[b], n)])
    case Refresh(url) =>
      // the source finds the node through the chain, not through the list
      var c := t.chains[Bucket(url)];
      var f := ForwardScan(c, url);
      if f == |c| then t else Threads(Minus(t.list, c[f]) + [c[f]], t.chains)
    case Wipe => Threads([], seq(BUCKETS, _ => []))
  }

  ghost function RelinkedAll(t: Threads, ops: seq<Relink>): (r: Threads)
    requires |t.chains| == BUCKETS
    ensures |r.chains| == BUCKETS
  {
    if ops == [] then t else Relinked(RelinkedAll(t, ops[..|ops| - 1]), ops[|ops| - 1])
  }

  lemma AgreeStep(t: Threads, op: Relink)
    requires Agree(t.list, t.chains)
    ensures var t' := Relinked(t, op); Agree(t'.list, t'.chains)
  {
    match op
    case Insert(n) => if n !in t.list { AgreeInsert(t.list, t.chains, n); }
    case Delete(n) => AgreeDelete(t.list, t.chains, n);
    case Refresh(url) =>
      FirstInChainIsLastInList(t.list, t.chains, url);
      var k := BackwardScan(t.list, url);
      if k >= 0 {
        MinusAt(t.list, k);
        AgreeRefresh(t.list, t.chains, k);
      }
    case Wipe => AgreeEmpty();
  }

  /**
   Whatever the critical sections do and in whatever order the threads run them, the
   hash index answers every lookup as a backward scan of the list would.
   */
  lemma {:induction false} IndexAgreesInEveryRun(ops: seq<Relink>, url: string)
    ensures var t := RelinkedAll(Threads([], seq(BUCKETS, _ => [])), ops);
            var c := t.chains[Bucket(url)];
            var f, k := ForwardScan(c, url), BackwardScan(t.list, url);
            && Agree(t.list, t.chains)
            && (f == |c| <==> k == -1)
            && (f < |c| ==> c[f] == t.list[k])
  {
    var start := Threads([], seq(BUCKETS, _ => []));
    if ops == [] {
      AgreeEmpty();
    } else {
      IndexAgreesInEveryRun(ops[..|ops| - 1], url);
      AgreeStep(RelinkedAll(start, ops[..|ops| - 1]), ops[|ops| - 1]);
    }
    var t := RelinkedAll(start, ops);
    FirstInChainIsLastInList(t.list, t.chains, url);
  }
}
