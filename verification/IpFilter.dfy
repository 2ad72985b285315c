/**
 The address lists of src/filter.c and src/auth.c.  A filter rule holds the parsed address
 bytes and the prefix number; an authenticator rule is its text, with `inet_pton` given.
 */
module IpFilter {
  import opened CStrings
  import opened Cidr

  datatype Family = V4 | V6

  function Octets(f: Family): nat {
    if f == V4 then 4 else 16
  }

  /** An address of a connection: its family and network-order bytes. */
  datatype Address = Address(family: Family, bytes: seq<Byte>)

  predicate WellSized(a: Address) {
    |a.bytes| == Octets(a.family)
  }

  /** A line of a list: the address and the number after the slash, -1 without one. */
  datatype Rule = Rule(address: Address, prefix: int)

  /** `parse_cidr` takes prefixes outside the family's range as the longest. */
  function Prefix(r: Rule): (p: nat)
    ensures p <= 8 * Octets(r.address.family)
  {
    var w := 8 * Octets(r.address.family);
    if r.prefix < 0 || r.prefix > w then w else r.prefix
  }

  /** The reference: the address lies in the block by integer prefix arithmetic. */
  predicate Contains(r: Rule, a: Address)
    requires WellSized(r.address) && WellSized(a)
  {
    r.address.family == a.family && SamePrefix(a.bytes, r.address.bytes, Prefix(r))
  }

  /**
   The same with the number of the rule itself: within the range of its family it counts the
   leading bits that must agree, and outside of it all of them must.
   */
  predicate InBlock(r: Rule, a: Address)
    requires WellSized(r.address) && WellSized(a)
  {
    r.address.family == a.family &&
    if 0 <= r.prefix <= (if a.family == V4 then 32 else 128)
    then SamePrefix(a.bytes, r.address.bytes, r.prefix)
    else a.bytes == r.address.bytes
  }

  lemma ContainsIsInBlock(r: Rule, a: Address)
    requires WellSized(r.address) && WellSized(a)
    ensures Contains(r, a) <==> InBlock(r, a)
  {
    if r.address.family == a.family {
      var w := 8 * Octets(a.family);
      assert Pow2(0) == 1;
      assert SamePrefix(a.bytes, r.address.bytes, w) <==> BigEndian(a.bytes) == BigEndian(r.address.bytes);
      SameBytes(a.bytes, r.address.bytes);
    }
  }

  ghost predicate AnyContains(rules: seq<Rule>, a: Address)
    requires WellSized(a) && forall i :: 0 <= i < |rules| ==> WellSized(rules[i].address)
  {
    exists i :: 0 <= i < |rules| && InBlock(rules[i], a)
  }

  // ---- src/filter.c ----

  /** A `CidrBlock`: the mask and the masked address. */
  datatype Block = Block(family: Family, addr: seq<Byte>, mask: seq<Byte>)

  const UINT32: nat := 0x1_0000_0000

  /** `htonl`: the network-order bytes of a 32-bit word. */
  function Htonl(w: nat): (b: seq<Byte>)
    ensures |b| == 4
  {
    ToBytes(w, 4)
  }

  /** `htonl(~((1ULL << (32 - prefix)) - 1))`: a 64-bit complement cut to 32 bits. */
  function ComplementMask(prefix: nat): nat
    requires prefix <= 32
  {
    (WORD - 1 - (Pow2(32 - prefix) % WORD - 1) % WORD) % UINT32
  }

  lemma Pow2Wide()
    ensures Pow2(32) == UINT32 && Pow2(64) == WORD
  {
    Pow2Values();
    Pow2Add(8, 8);
    Pow2Add(16, 16);
    Pow2Add(32, 32);
  }

  lemma ComplementMaskValue(prefix: nat)
    requires prefix <= 32
    ensures Pow2(32 - prefix) <= UINT32
    ensures ComplementMask(prefix) == UINT32 - Pow2(32 - prefix)
  {
    Pow2Wide();
    Pow2Order(32 - prefix, 32);
    var k := Pow2(32 - prefix);
    assert k % WORD == k;
    assert (k - 1) % WORD == k - 1;
    DivUnique(WORD - k, UINT32, UINT32 - 1, UINT32 - k);
  }

  lemma V4MaskBytes(prefix: nat)
    requires prefix <= 32
    ensures Htonl(ComplementMask(prefix)) == MaskBytes(prefix, 4)
  {
    ComplementMaskValue(prefix);
    Pow2Wide();
    MaskValue(prefix, 4);
    ToBytesValue(ComplementMask(prefix), 4);
    BigEndianInjective(Htonl(ComplementMask(prefix)), MaskBytes(prefix, 4));
  }

  /** The IPv6 mask loops (src/filter.c:117-123). */
  method BuildMask6(prefix: nat) returns (mask: array<Byte>)
    requires prefix <= 128
    ensures mask[..] == MaskBytes(prefix, 16)
  {
    mask := new Byte[16](_ => 0);
    var i := 0;
    while i < prefix / 8
      invariant i <= prefix / 8 && mask.Length == 16
      invariant forall j :: 0 <= j < 16 ==> mask[j] == if j < i then 255 else 0
    {
      mask[i] := 255;
      i := i + 1;
    }
    if prefix % 8 != 0 { mask[prefix / 8] := (255 * Pow2(8 - prefix % 8)) % 256; }
  }

  /** `parse_cidr` once the text is parsed. */
  method MakeBlock(r: Rule) returns (b: Block)
    requires WellSized(r.address)
    ensures b == BlockOf(r)
  {
    var p := Prefix(r);
    var mask: seq<Byte>;
    if r.address.family == V4 {
      V4MaskBytes(p);
      mask := Htonl(ComplementMask(p));
    } else {
      var m := BuildMask6(p);
      mask := m[..];
    }
    b := Block(r.address.family, AndBytes(r.address.bytes, mask), mask);
  }

  function BlockOf(r: Rule): Block
    requires WellSized(r.address)
  {
    var m := MaskBytes(Prefix(r), Octets(r.address.family));
    Block(r.address.family, AndBytes(r.address.bytes, m), m)
  }

  predicate Fits(b: Block) {
    |b.addr| == |b.mask| == Octets(b.family)
  }

  /** The masked comparison of one block, word-wise for IPv4, byte by byte for IPv6. */
  method Matches(b: Block, a: Address) returns (match_: bool)
    requires Fits(b) && WellSized(a) && b.family == a.family
    ensures match_ <==> AndBytes(a.bytes, b.mask) == b.addr
  {
    if a.family == V4 {
      NativeTest(a.bytes, b.mask, b.addr);
      return BitAnd(LittleEndian(a.bytes), LittleEndian(b.mask), 32) == LittleEndian(b.addr);
    }
    var j := 0;
    while j < 16
      invariant j <= 16
      invariant forall k :: 0 <= k < j ==> AndBytes(a.bytes, b.mask)[k] == b.addr[k]
    {
      if AndByte(a.bytes[j], b.mask[j]) != b.addr[j] {
        assert AndBytes(a.bytes, b.mask)[j] != b.addr[j];
        return false;
      }
      j := j + 1;
    }
    return true;
  }

  /** The scan of one list, stopping at the first block that matches. */
  method Scan(blocks: seq<Block>, a: Address, ghost rules: seq<Rule>) returns (found: bool)
    requires WellSized(a) && |blocks| == |rules|
    requires forall i :: 0 <= i < |rules| ==> WellSized(rules[i].address) && blocks[i] == BlockOf(rules[i])
    ensures found <==> AnyContains(rules, a)
  {
    for i := 0 to |blocks|
      invariant forall k :: 0 <= k < i ==> !InBlock(rules[k], a)
    {
      ContainsIsInBlock(rules[i], a);
      if blocks[i].family == a.family {
        var m := Matches(blocks[i], a);
        BytewiseTest(a.bytes, rules[i].address.bytes, Prefix(rules[i]));
        if m { return true; }
      }
    }
    return false;
  }

  /**
   `filter_is_ip_blocked`: blocked exactly when some deny block of its family contains the
   address and no allow block does, whatever the order of the lists.
   */
  method IsBlocked(enabled: bool, addr: Option<Address>, allow: seq<Block>, deny: seq<Block>,
                   ghost allowRules: seq<Rule>, ghost denyRules: seq<Rule>) returns (blocked: bool)
    requires addr.Some? ==> WellSized(addr.value)
    requires |allow| == |allowRules| && |deny| == |denyRules|
    requires forall i :: 0 <= i < |allow| ==> WellSized(allowRules[i].address) && allow[i] == BlockOf(allowRules[i])
    requires forall i :: 0 <= i < |deny| ==> WellSized(denyRules[i].address) && deny[i] == BlockOf(denyRules[i])
    ensures blocked <==> enabled && addr.Some? && AnyContains(denyRules, addr.value) && !AnyContains(allowRules, addr.value)
  {
    if !enabled || addr == None { return false; }
    var allowed := Scan(allow, addr.value, allowRules);
    if allowed { return false; }
    blocked := Scan(deny, addr.value, denyRules);
  }

  // ---- src/auth.c ----

  /** The shifted-ones mask of `ip_matches`. */
  function ShiftedMask(prefix: nat): nat
    requires prefix <= 32
  {
    if prefix == 0 then 0 else ((UINT32 - 1) * Pow2(32 - prefix)) % UINT32
  }

  /** Both ways of building the IPv4 mask give the same word. */
  lemma MasksAgree(prefix: nat)
    requires prefix <= 32
    ensures ShiftedMask(prefix) == ComplementMask(prefix)
  {
    ComplementMaskValue(prefix);
    Pow2Wide();
    if prefix > 0 {
      var k := Pow2(32 - prefix);
      assert (UINT32 - 1) * k == (k - 1) * UINT32 + (UINT32 - k);
      Pow2Order(32 - prefix, 31);
      DivUnique((UINT32 - 1) * k, UINT32, k - 1, UINT32 - k);
    }
  }

  /** The masked comparison of `ip_matches` (src/auth.c:128-139). */
  predicate MaskedMatch(ip: seq<Byte>, subnet: seq<Byte>, prefix: int) {
    0 <= prefix <= 32 &&
    BitAnd(BigEndian(ip), ShiftedMask(prefix), 32) == BitAnd(BigEndian(subnet), ShiftedMask(prefix), 32)
  }

  lemma AuthTest(ip: seq<Byte>, subnet: seq<Byte>, prefix: nat)
    requires |ip| == |subnet| == 4 && prefix <= 32
    ensures BitAnd(BigEndian(ip), ShiftedMask(prefix), 32) == BitAnd(BigEndian(subnet), ShiftedMask(prefix), 32)
            <==> SamePrefix(ip, subnet, prefix)
  {
    MasksAgree(prefix);
    ComplementMaskValue(prefix);
    Pow2Wide();
    BigEndianBound(ip);
    BigEndianBound(subnet);
    MaskTest(BigEndian(ip), BigEndian(subnet), 32 - prefix, 32);
  }

  /**
   For a rule `a.b.c.d/p` the authenticator and the filter decide alike on every address
   when p is in 0..32.  Outside that range the filter reads the rule as a single host and
   the authenticator rejects it, so they differ exactly on the rule's own address.
   */
  lemma {:induction false} AuthAgreesWithFilter(ip: seq<Byte>, subnet: seq<Byte>, prefix: int)
    requires |ip| == |subnet| == 4
    ensures var auth := MaskedMatch(ip, subnet, prefix);
            var filter := InBlock(Rule(Address(V4, subnet), prefix), Address(V4, ip));
            auth == filter <==> 0 <= prefix <= 32 || ip != subnet
  {
    ContainsIsInBlock(Rule(Address(V4, subnet), prefix), Address(V4, ip));
    if 0 <= prefix <= 32 {
      AuthTest(ip, subnet, prefix);
    } else {
      assert Pow2(0) == 1;
      assert SamePrefix(ip, subnet, 32) <==> BigEndian(ip) == BigEndian(subnet);
      if BigEndian(ip) == BigEndian(subnet) { BigEndianInjective(ip, subnet); }
    }
  }

  /** The network-order bytes of an IPv4 address. */
  type Quad = s: seq<Byte> | |s| == 4 witness [0, 0, 0, 0]

  /**
   The reference for one rule of the authenticator: the address is the rule's text, or the
   rule is a block whose leading bits it shares.  `pton` is `inet_pton(AF_INET, ...)`.
   */
  predicate InRule(ip: string, rule: string, pton: string -> Option<Quad>) {
    ip == rule ||
    (var slash := IndexOf(rule, '/');
     slash >= 0 &&
     var prefix := Atoi(rule[slash + 1..]);
     0 <= prefix <= 32 && pton(ip).Some? && pton(rule[..slash]).Some? &&
     SamePrefix(pton(ip).value, pton(rule[..slash]).value, prefix))
  }

  ghost predicate InSomeRule(ip: string, rules: seq<string>, pton: string -> Option<Quad>) {
    exists i :: 0 <= i < |rules| && InRule(ip, rules[i], pton)
  }

  /** `ip_matches` */
  method IpMatches(ip: string, rule: string, pton: string -> Option<Quad>) returns (m: bool)
    ensures m <==> InRule(ip, rule, pton)
  {
    if ip == rule { return true; }
    var slash := IndexOf(rule, '/');
    if slash == -1 { return false; }
    var prefix := Atoi(rule[slash + 1..]);
    if prefix < 0 || prefix > 32 { return false; }
    var a, b := pton(ip), pton(rule[..slash]);
    if a == None || b == None { return false; }
    AuthTest(a.value, b.value, prefix);
    return BitAnd(BigEndian(a.value), ShiftedMask(prefix), 32) == BitAnd(BigEndian(b.value), ShiftedMask(prefix), 32);
  }

  /** The scan of one list. */
  method MatchesAny(ip: string, rules: seq<string>, pton: string -> Option<Quad>) returns (found: bool)
    ensures found <==> InSomeRule(ip, rules, pton)
  {
    for i := 0 to |rules|
      invariant forall k :: 0 <= k < i ==> !InRule(ip, rules[k], pton)
    {
      var m := IpMatches(ip, rules[i], pton);
      if m { return true; }
    }
    return false;
  }

  /** `check_ip_allowed`: no deny rule holds the address, and an allow rule does if there are any. */
  method IsAllowed(ip: Option<string>, deny: seq<string>, allow: seq<string>, pton: string -> Option<Quad>) returns (ok: bool)
    ensures ok <==> ip.Some? && !InSomeRule(ip.value, deny, pton) && (allow == [] || InSomeRule(ip.value, allow, pton))
  {
    if ip == None { return false; }
    var denied := MatchesAny(ip.value, deny, pton);
    if denied { return false; }
    if |allow| > 0 {
      ok := MatchesAny(ip.value, allow, pton);
      return;
    }
    return true;
  }
}
