/**
 The domain blocklist (src/filter.c:19-23, 79-90, 299-322): a trie of reversed lower-case
 domains, built by mutation, against a linear scan of the list.
 */
module DomainTrie {
  import opened CStrings

  // ---- the reference: a linear scan ----

  /** `host` equals `d`, or ends with "." followed by `d`, ignoring ASCII case. */
  predicate Covers(d: string, host: string) {
    && 0 < |d| <= |host|
    && LowerAll(host[|host| - |d|..]) == LowerAll(d)
    && (|d| == |host| || host[|host| - |d| - 1] == '.')
  }

  /** Covering, letter by letter. */
  lemma CoversByLetters(d: string, host: string)
    ensures Covers(d, host) <==>
            && 0 < |d| <= |host| && Occurs(host, d, |host| - |d|)
            && (|d| == |host| || host[|host| - |d| - 1] == '.')
  {
    if 0 < |d| <= |host| {
      var n := |host| - |d|;
      forall i | 0 <= i < |d|
        ensures LowerAll(host[n..])[i] == LowerAll(d)[i] <==> SameLetter(host[n + i], d[i])
      {
        LowerAgrees(host[n + i], d[i]);
      }
    }
  }

  predicate Listed(domains: seq<string>, host: string) {
    exists k :: 0 <= k < |domains| && Covers(domains[k], host)
  }

  // ---- paths in the trie ----

  /** The edge labels from the root for the suffix of `s` that starts at `i`: reversed, lower case. */
  function Path(s: string, i: nat): string
    requires i <= |s|
    decreases |s| - i
  {
    if i == |s| then "" else Path(s, i + 1) + [Lower(s[i])]
  }

  /** A path read backwards is the suffix in lower case. */
  lemma {:induction false} PathAt(s: string, i: nat, k: nat)
    requires i <= k < |s|
    ensures |Path(s, i)| == |s| - i && Path(s, i)[|s| - 1 - k] == Lower(s[k])
    decreases |s| - i
  {
    if i < k {
      PathAt(s, i + 1, k);
    } else if i + 1 < |s| {
      PathAt(s, i + 1, i + 1);
    }
  }

  lemma PathLength(s: string, i: nat)
    requires i <= |s|
    ensures |Path(s, i)| == |s| - i
  {
    if i < |s| { PathAt(s, i, i); }
  }

  lemma PathMirrors(s: string, i: nat, k: nat)
    requires i <= |s| && k < |s| - i
    ensures |Path(s, i)| == |s| - i && Path(s, i)[|s| - i - 1 - k] == LowerAll(s[i..])[k]
  {
    PathAt(s, i, i + k);
  }

  /** Two suffixes have the same path exactly when they are equal but for case. */
  lemma PathIsSuffix(s: string, i: nat, d: string, j: nat)
    requires i <= |s| && j <= |d| && |s| - i == |d| - j
    ensures Path(s, i) == Path(d, j) <==> LowerAll(s[i..]) == LowerAll(d[j..])
  {
    PathLength(s, i);
    PathLength(d, j);
    forall k | 0 <= k < |s| - i
      ensures Path(s, i)[|s| - i - 1 - k] == LowerAll(s[i..])[k]
    {
      PathMirrors(s, i, k);
    }
    forall k | 0 <= k < |d| - j
      ensures Path(d, j)[|d| - j - 1 - k] == LowerAll(d[j..])[k]
    {
      PathMirrors(d, j, k);
    }
    ReversedEqual(Path(s, i), Path(d, j), LowerAll(s[i..]), LowerAll(d[j..]));
  }

  lemma ReversedEqual(p: string, q: string, a: string, b: string)
    requires |p| == |q| == |a| == |b|
    requires forall k :: 0 <= k < |a| ==> p[|a| - 1 - k] == a[k]
    requires forall k :: 0 <= k < |b| ==> q[|b| - 1 - k] == b[k]
    ensures p == q <==> a == b
  {
    var n := |a|;
    if a == b {
      forall k | 0 <= k < n
        ensures p[k] == q[k]
      {
        assert p[n - 1 - (n - 1 - k)] == a[n - 1 - k] && q[n - 1 - (n - 1 - k)] == b[n - 1 - k];
      }
    }
  }

  /** The lookup's test at position `i`: an end of a listed domain at a label boundary. */
  predicate Boundary(host: string, i: nat) {
    i == 0 || (i <= |host| && host[i - 1] == '.')
  }

  lemma {:induction false} CoversIsPath(d: string, host: string, i: nat)
    requires i < |host|
    ensures Covers(d, host) && |d| == |host| - i <==> Path(host, i) == Path(d, 0) && Boundary(host, i)
  {
    PathLength(host, i);
    PathLength(d, 0);
    if |d| == |host| - i {
      PathIsSuffix(host, i, d, 0);
      assert d[0..] == d;
    }
  }

  lemma PathCovers(d: string, host: string, i: nat)
    requires i < |host| && Path(d, 0) == Path(host, i) && Boundary(host, i)
    ensures Covers(d, host)
  {
    CoversIsPath(d, host, i);
  }

  lemma CoversPath(d: string, host: string) returns (i: nat)
    requires Covers(d, host)
    ensures i < |host| && Path(d, 0) == Path(host, i) && Boundary(host, i)
  {
    i := |host| - |d|;
    CoversIsPath(d, host, i);
  }

  // ---- the lines of a list ----

  /** `s` without the blanks at its end; a first character stays. */
  function TrimEnd(s: string): (t: string)
    ensures t <= s && (|t| > 1 ==> !IsSpace(t[|t| - 1]))
  {
    if |s| > 1 && IsSpace(s[|s| - 1]) then TrimEnd(s[..|s| - 1]) else s
  }

  /** The domain on a line, unless it is blank or a comment (src/filter.c:138-142). */
  function KeptLine(line: string): Option<string> {
    var p := SkipSpaces(line);
    if p == "" || p[0] == '#' then None else Some(TrimEnd(p))
  }

  lemma {:induction false} TrimsBlanks(core: string, after: string)
    requires core != "" && !IsSpace(core[|core| - 1]) && forall i :: 0 <= i < |after| ==> IsSpace(after[i])
    ensures TrimEnd(core + after) == core
  {
    var s := core + after;
    if after == "" {
      assert s == core;
    } else {
      assert s[..|s| - 1] == core + after[..|after| - 1];
      TrimsBlanks(core, after[..|after| - 1]);
    }
  }

  /** A line is what stands between its blanks, unless that is nothing or begins with '#'. */
  lemma KeptIsCore(before: string, core: string, after: string)
    requires (forall i :: 0 <= i < |before| ==> IsSpace(before[i])) && (forall i :: 0 <= i < |after| ==> IsSpace(after[i]))
    requires core != "" && !IsSpace(core[0]) && !IsSpace(core[|core| - 1])
    ensures KeptLine(before + (core + after)) == if core[0] == '#' then None else Some(core)
  {
    SkipsBlanks(before, core + after);
    TrimsBlanks(core, after);
  }

  lemma {:induction false} BlankIsSkipped(line: string)
    requires forall i :: 0 <= i < |line| ==> IsSpace(line[i])
    ensures KeptLine(line) == None
  {
    if line != "" { BlankIsSkipped(line[1..]); }
  }

  function KeptLines(lines: seq<string>, n: nat): seq<string>
    requires n <= |lines|
  {
    if n == 0 then []
    else KeptLines(lines, n - 1) + if KeptLine(lines[n - 1]).Some? then [KeptLine(lines[n - 1]).value] else []
  }

  // ---- the trie ----

  class TrieNode {
    var children: map<char, TrieNode>
    var isEnd: bool
    /** The labels on the way from the root. */
    ghost const path: string

    constructor (ghost path: string)
      ensures children == map[] && !isEnd && this.path == path
    {
      children, isEnd := map[], false;
      this.path := path;
    }
  }

  class Trie {
    const root: TrieNode
    /** Every node, by its path from the root. */
    ghost var at: map<string, TrieNode>
    /** The domains inserted so far. */
    ghost var domains: seq<string>

    ghost predicate Edges(p: string)
      reads this`at, at.Values`children
    {
      p in at ==>
        && at[p].path == p
        && (p != "" ==> p[..|p| - 1] in at)
        && (forall c :: c in at[p].children ==> p + [c] in at && at[p].children[c] == at[p + [c]])
        && (forall c :: p + [c] in at ==> c in at[p].children)
    }

    ghost predicate Shape()
      reads this`at, at.Values`children
    {
      "" in at && at[""] == root && (forall p {:trigger Edges(p)} :: Edges(p))
    }

    ghost predicate Marked(p: string)
      reads this`domains
    {
      exists k :: 0 <= k < |domains| && Path(domains[k], 0) == p
    }

    ghost predicate Valid()
      reads this, at.Values
    {
      && Shape()
      && (forall p {:trigger Marked(p)} :: Marked(p) ==> p in at)
      && (forall p {:trigger Marked(p)} :: p in at ==> (at[p].isEnd <==> Marked(p)))
    }

    constructor ()
      ensures Valid() && domains == [] && fresh(at.Values)
    {
      var r := new TrieNode("");
      root := r;
      at, domains := map["" := r], [];
    }

    /** Follows or creates the edge `c` (src/filter.c:84-87). */
    method Step(curr: TrieNode, c: char, ghost p: string) returns (next: TrieNode)
      requires Shape() && p in at && at[p] == curr
      modifies this`at, curr`children
      ensures Shape() && p + [c] in at && at[p + [c]] == next
      ensures forall q :: q in old(at) ==> q in at && at[q] == old(at[q])
      ensures forall q :: q in at ==> q in old(at) || (fresh(at[q]) && !at[q].isEnd)
    {
      assert Edges(p);
      if c in curr.children { return curr.children[c]; }
      ghost var q := p + [c];
      next := new TrieNode(q);
      curr.children := curr.children[c := next];
      at := at[q := next];
      forall r
        ensures Edges(r)
      {
        assert old(Edges(r));
        forall x
          ensures r + [x] == q <==> r == p && x == c
        {
          assert (r + [x])[..|r|] == r && q[..|p|] == p;
        }
        if r == q {
          forall x
            ensures q + [x] !in at
          {
            assert old(Edges(q + [x]));
            assert (q + [x])[..|q|] == q;
          }
        } else if r in at && at[r] == curr {
          assert r == p;
        }
      }
    }

    /** Every node's flag says whether its path is a domain inserted before the call. */
    ghost predicate Flags(marked: iset<string>)
      reads this`at, at.Values`isEnd
    {
      && (forall p :: p in marked ==> p in at)
      && (forall p :: p in at ==> (at[p].isEnd <==> p in marked))
    }

    /** `trie_insert` */
    method Insert(domain: string)
      requires Valid()
      modifies this, at.Values
      ensures Valid() && domains == old(domains) + [domain]
      ensures forall n :: n in at.Values ==> n in old(at.Values) || fresh(n)
    {
      var curr, i: nat := root, |domain|;
      ghost var marked := iset p | Marked(p);
      while i > 0
        invariant i <= |domain| && Shape() && Flags(marked) && domains == old(domains)
        invariant Path(domain, i) in at && at[Path(domain, i)] == curr
        invariant forall q :: q in at ==> (q in old(at) && at[q] == old(at)[q]) || fresh(at[q])
      {
        i := i - 1;
        curr := Step(curr, Lower(domain[i]), Path(domain, i + 1));
      }
      MarkEnd(curr, domain, marked);
    }

    /** `load_domain_list` on the lines `fgets` returns: one insertion per line kept. */
    method Load(lines: seq<string>)
      requires Valid()
      modifies this, at.Values
      ensures Valid() && domains == old(domains) + KeptLines(lines, |lines|)
    {
      for k := 0 to |lines|
        invariant Valid() && domains == old(domains) + KeptLines(lines, k)
        invariant forall n :: n in at.Values ==> n in old(at.Values) || fresh(n)
      {
        var d := KeptLine(lines[k]);
        if d.Some? { Insert(d.value); }
      }
    }

    /** Sets the flag at the end of the path. */
    method MarkEnd(curr: TrieNode, domain: string, ghost marked: iset<string>)
      requires Shape() && Flags(marked) && marked == iset p | Marked(p)
      requires Path(domain, 0) in at && at[Path(domain, 0)] == curr
      modifies this`domains, curr`isEnd
      ensures Valid() && domains == old(domains) + [domain]
    {
      curr.isEnd := true;
      domains := domains + [domain];
      forall p
        ensures Marked(p) <==> p in marked || p == Path(domain, 0)
      {
        MarkedSnoc(old(domains), domain, p);
      }
      forall p | p in at
        ensures at[p].isEnd <==> Marked(p)
      {
        assert Edges(p) && Edges(Path(domain, 0));
      }
    }

    /** Position `i` of the host ends a listed domain at a label boundary. */
    ghost predicate Blocks(host: string, i: nat)
      reads this`domains
    {
      i < |host| && Marked(Path(host, i)) && Boundary(host, i)
    }

    /** One edge of the walk; `found` is false when there is none to follow. */
    method Follow(curr: TrieNode, host: string, i: nat) returns (found: bool, next: TrieNode)
      requires Valid() && 0 < i <= |host| && Path(host, i) in at && at[Path(host, i)] == curr
      ensures found ==> Path(host, i - 1) in at && at[Path(host, i - 1)] == next
      ensures found ==> (next.isEnd <==> Marked(Path(host, i - 1)))
      ensures !found ==> forall j :: 0 <= j < i ==> !Marked(Path(host, j))
    {
      var c := Lower(host[i - 1]);
      assert Edges(Path(host, i));
      if c !in curr.children {
        NothingDeeper(host, i);
        return false, curr;
      }
      return true, curr.children[c];
    }

    /** The walk of `filter_is_domain_blocked` (src/filter.c:302-319). */
    method Walk(host: string) returns (blocked: bool, ghost i: nat)
      requires Valid()
      ensures blocked ==> Blocks(host, i)
      ensures !blocked ==> forall j: nat :: !Blocks(host, j)
    {
      var curr, k: nat := root, |host|;
      while k > 0
        invariant k <= |host| && Path(host, k) in at && at[Path(host, k)] == curr
        invariant forall j: nat :: k <= j ==> !Blocks(host, j)
      {
        var found, next := Follow(curr, host, k);
        if !found { return false, 0; }
        curr, k := next, k - 1;
        if curr.isEnd && (k == 0 || host[k - 1] == '.') { return true, k; }
      }
      return false, 0;
    }

    /** The trie lookup answers as a linear scan of the list would. */
    method Lookup(host: string) returns (blocked: bool)
      requires Valid()
      ensures blocked <==> Listed(domains, host)
    {
      ghost var i;
      blocked, i := Walk(host);
      ListedIsBlocks(host, i);
    }

    lemma ListedIsBlocks(host: string, i: nat)
      ensures Blocks(host, i) ==> Listed(domains, host)
      ensures Listed(domains, host) ==> exists j: nat :: Blocks(host, j)
    {
      if Blocks(host, i) {
        var k :| 0 <= k < |domains| && Path(domains[k], 0) == Path(host, i);
        PathCovers(domains[k], host, i);
      }
      if Listed(domains, host) {
        var k :| 0 <= k < |domains| && Covers(domains[k], host);
        var j := CoversPath(domains[k], host);
        assert Blocks(host, j);
      }
    }

    /** Where the walk stops no longer path is in the trie. */
    lemma NothingDeeper(host: string, i: nat)
      requires Valid() && 0 < i <= |host| && Path(host, i - 1) !in at
      ensures forall j :: 0 <= j < i ==> !Marked(Path(host, j))
    {
      var j := i;
      while j > 0
        invariant j <= i && (j < i ==> Path(host, j) !in at)
        invariant forall k :: j <= k < i ==> !Marked(Path(host, k))
      {
        j := j - 1;
        assert Edges(Path(host, j));
        assert Path(host, j)[..|Path(host, j)| - 1] == Path(host, j + 1);
      }
    }
  }

  lemma MarkedSnoc(ds: seq<string>, d: string, p: string)
    ensures (exists k :: 0 <= k < |ds + [d]| && Path((ds + [d])[k], 0) == p) <==>
            (exists k :: 0 <= k < |ds| && Path(ds[k], 0) == p) || p == Path(d, 0)
  {
    var all := ds + [d];
    assert all[|ds|] == d && forall k :: 0 <= k < |ds| ==> all[k] == ds[k];
  }

  lemma CoversLower(d: string, e: string, host: string)
    requires Covers(d, host) && LowerAll(d) == LowerAll(e)
    ensures Covers(e, host)
  {
    assert |d| == |LowerAll(d)| == |e|;
  }

  /** Every domain of `ds` is in `es`, up to letter case. */
  predicate Within(ds: seq<string>, es: seq<string>) {
    forall k :: 0 <= k < |ds| ==> exists m :: 0 <= m < |es| && LowerAll(es[m]) == LowerAll(ds[k])
  }

  lemma {:induction false} ListedWithin(ds: seq<string>, es: seq<string>, host: string)
    requires Within(ds, es) && Listed(ds, host)
    ensures Listed(es, host)
  {
    var k :| 0 <= k < |ds| && Covers(ds[k], host);
    var m :| 0 <= m < |es| && LowerAll(es[m]) == LowerAll(ds[k]);
    CoversLower(ds[k], es[m], host);
  }

  /** Order, repetition and letter case of the list do not matter. */
  lemma {:induction false} ListedIsUnordered(ds: seq<string>, es: seq<string>, host: string)
    requires Within(ds, es) && Within(es, ds)
    ensures Listed(ds, host) <==> Listed(es, host)
  {
    if Listed(ds, host) { ListedWithin(ds, es, host); }
    if Listed(es, host) { ListedWithin(es, ds, host); }
  }
}
