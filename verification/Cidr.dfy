/**
 CIDR matching: byte-wise masks in src/filter.c:93-130, 338-404 and word-wise masks in
 src/auth.c:118-163, against integer prefix arithmetic (section 3.1 of RFC 4632, section
 2.3 of RFC 4291).
 */
module Cidr {

  // ---- powers of two ----

  function Pow2(n: nat): (p: nat)
    ensures p > 0
  {
    if n == 0 then 1 else 2 * Pow2(n - 1)
  }

  lemma {:induction false} Pow2Add(a: nat, b: nat)
    ensures Pow2(a + b) == Pow2(a) * Pow2(b)
  {
    if a > 0 {
      Pow2Add(a - 1, b);
      assert Pow2(a + b) == 2 * Pow2(a - 1 + b);
    }
  }

  lemma Pow2Order(a: nat, b: nat)
    requires a <= b
    ensures Pow2(a) <= Pow2(b)
  {
    Pow2Add(a, b - a);
    assert Pow2(a) * 1 <= Pow2(a) * Pow2(b - a);
  }

  lemma Pow2Values()
    ensures Pow2(1) == 2 && Pow2(2) == 4 && Pow2(3) == 8 && Pow2(4) == 16
    ensures Pow2(5) == 32 && Pow2(6) == 64 && Pow2(7) == 128 && Pow2(8) == 256
  {
    assert Pow2(2) == 2 * Pow2(1);
    assert Pow2(4) == 2 * Pow2(3);
    assert Pow2(6) == 2 * Pow2(5);
    assert Pow2(8) == 2 * Pow2(7);
  }

  // ---- bitwise and ----

  /** `x & y` on unsigned integers of `width` bits. */
  function BitAnd(x: nat, y: nat, width: nat): nat {
    if width == 0 then 0 else LowBit(x, y) + 2 * BitAnd(x / 2, y / 2, width - 1)
  }

  function LowBit(x: nat, y: nat): nat {
    if x % 2 == 1 && y % 2 == 1 then 1 else 0
  }

  lemma {:induction false} AndOnes(x: nat, n: nat)
    requires x < Pow2(n)
    ensures BitAnd(x, Pow2(n) - 1, n) == x
  {
    if n > 0 {
      AndOnes(x / 2, n - 1);
      AndOdd(x, Pow2(n - 1) - 1, n);
    }
  }

  lemma AndOdd(x: nat, y: nat, n: nat)
    requires n > 0
    ensures BitAnd(x, 2 * y + 1, n) == x % 2 + 2 * BitAnd(x / 2, y, n - 1)
  {
    assert (2 * y + 1) % 2 == 1 && (2 * y + 1) / 2 == y;
  }

  lemma AndEven(x: nat, y: nat, n: nat)
    requires n > 0
    ensures BitAnd(x, 2 * y, n) == 2 * BitAnd(x / 2, y, n - 1)
  {
    assert (2 * y) % 2 == 0 && (2 * y) / 2 == y;
  }

  /** `x >> k` */
  function Shift(x: nat, k: nat): nat {
    if k == 0 then x else Shift(x / 2, k - 1)
  }

  /** `x` with its low `k` bits cleared. */
  function Cleared(x: nat, k: nat): nat {
    if k == 0 then x else 2 * Cleared(x / 2, k - 1)
  }

  lemma {:induction false} ClearedIsShift(a: nat, b: nat, k: nat)
    ensures Cleared(a, k) == Cleared(b, k) <==> Shift(a, k) == Shift(b, k)
  {
    if k > 0 { ClearedIsShift(a / 2, b / 2, k - 1); }
  }

  lemma {:induction false} ShiftIsDiv(x: nat, k: nat)
    ensures Shift(x, k) == x / Pow2(k)
  {
    if k > 0 {
      ShiftIsDiv(x / 2, k - 1);
      DivTwice(x, Pow2(k - 1));
    }
  }

  lemma DivTwice(x: nat, m: nat)
    requires m > 0
    ensures x / 2 / m == x / (2 * m)
  {
    var q := x / 2 / m;
    var r := x / 2 % m;
    assert x == 2 * (q * m + r) + x % 2;
    assert x == q * (2 * m) + (2 * r + x % 2);
    DivUnique(x, 2 * m, q, 2 * r + x % 2);
  }

  lemma DivUnique(x: int, m: nat, q: int, r: nat)
    requires m > 0 && x == q * m + r && r < m
    ensures x / m == q && x % m == r
  {
    var d := x / m - q;
    assert d * m == r - x % m;
    MulBounds(d, m);
  }

  lemma MulBounds(d: int, m: nat)
    ensures d >= 1 ==> d * m >= m
    ensures d <= -1 ==> d * m <= -1 * m
  {
  }

  /** Masking with ones above `k` zeros clears the low `k` bits. */
  lemma {:induction false} AndMask(x: nat, k: nat, n: nat)
    requires k <= n && x < Pow2(n)
    ensures Pow2(k) <= Pow2(n)
    ensures BitAnd(x, Pow2(n) - Pow2(k), n) == Cleared(x, k)
  {
    Pow2Order(k, n);
    if k == 0 {
      AndOnes(x, n);
    } else {
      AndMask(x / 2, k - 1, n - 1);
      AndEven(x, Pow2(n - 1) - Pow2(k - 1), n);
    }
  }

  /** Two words agree under the mask exactly when their quotients agree. */
  lemma {:induction false} MaskTest(a: nat, b: nat, k: nat, n: nat)
    requires k <= n && a < Pow2(n) && b < Pow2(n)
    ensures Pow2(k) <= Pow2(n)
    ensures BitAnd(a, Pow2(n) - Pow2(k), n) == BitAnd(b, Pow2(n) - Pow2(k), n) <==> a / Pow2(k) == b / Pow2(k)
  {
    AndMask(a, k, n);
    AndMask(b, k, n);
    ClearedIsShift(a, b, k);
    ShiftIsDiv(a, k);
    ShiftIsDiv(b, k);
  }

  lemma AndUnfold(x: nat, y: nat, n: nat)
    requires n > 0
    ensures BitAnd(x, y, n) == LowBit(x, y) + 2 * BitAnd(x / 2, y / 2, n - 1)
  {
  }

  /** `&` acts on the high and the low part of a word separately. */
  lemma {:induction false} AndSplit(h: nat, l: nat, h': nat, l': nat, n: nat, m: nat)
    requires l < Pow2(m) && l' < Pow2(m)
    ensures BitAnd(h * Pow2(m) + l, h' * Pow2(m) + l', n + m) == BitAnd(h, h', n) * Pow2(m) + BitAnd(l, l', m)
    decreases m
  {
    if m > 0 {
      AndSplit(h, l / 2, h', l' / 2, n, m - 1);
      AndSplitStep(h, l, h', l', n, m, Pow2(m - 1));
    }
  }

  lemma AndSplitStep(h: nat, l: nat, h': nat, l': nat, n: nat, m: nat, p: nat)
    requires m > 0
    requires BitAnd(h * p + l / 2, h' * p + l' / 2, n + m - 1) == BitAnd(h, h', n) * p + BitAnd(l / 2, l' / 2, m - 1)
    ensures BitAnd(h * (2 * p) + l, h' * (2 * p) + l', n + m) == BitAnd(h, h', n) * (2 * p) + BitAnd(l, l', m)
  {
    Halve(h, l, p);
    Halve(h', l', p);
    AndUnfold(h * (2 * p) + l, h' * (2 * p) + l', n + m);
    AndUnfold(l, l', m);
    Double(BitAnd(h, h', n), p, BitAnd(l / 2, l' / 2, m - 1));
  }

  /** `&` on a word extended by one byte. */
  lemma AndSplitByte(h: nat, l: nat, h': nat, l': nat, n: nat)
    requires l < 256 && l' < 256
    ensures BitAnd(h * 256 + l, h' * 256 + l', n + 8) == BitAnd(h, h', n) * 256 + BitAnd(l, l', 8)
  {
    Pow2Values();
    AndSplit(h, l, h', l', n, 8);
  }

  lemma Double(a: nat, p: nat, b: nat)
    ensures 2 * (a * p + b) == a * (2 * p) + 2 * b
  {
  }

  lemma Halve(h: nat, l: nat, p: nat)
    ensures (h * (2 * p) + l) / 2 == h * p + l / 2 && (h * (2 * p) + l) % 2 == l % 2
  {
    assert h * (2 * p) == 2 * (h * p);
  }

  // ---- addresses as bytes ----

  type Byte = b: nat | b < 256

  /** The bytes read as a big-endian number: `ntohl` of an IPv4 address, a whole IPv6 one. */
  function BigEndian(s: seq<Byte>): nat {
    Leading(s, |s|)
  }

  /** The first `n` bytes read as a big-endian number. */
  function Leading(s: seq<Byte>, n: nat): nat
    requires n <= |s|
  {
    if n == 0 then 0 else Leading(s, n - 1) * 256 + s[n - 1]
  }

  /** The bytes read as a little-endian number: `s_addr` on a little-endian machine. */
  function LittleEndian(s: seq<Byte>): nat {
    if s == [] then 0 else LittleEndian(s[1..]) * 256 + s[0]
  }

  lemma {:induction false} ByteAnd(x: Byte, y: Byte)
    ensures BitAnd(x, y, 8) < 256
  {
    AndBound(x, y, 8);
    Pow2Values();
  }

  lemma {:induction false} AndBound(x: nat, y: nat, n: nat)
    ensures BitAnd(x, y, n) < Pow2(n)
  {
    if n > 0 { AndBound(x / 2, y / 2, n - 1); }
  }

  function AndByte(x: Byte, y: Byte): Byte {
    ByteAnd(x, y);
    BitAnd(x, y, 8)
  }

  function AndBytes(a: seq<Byte>, m: seq<Byte>): (r: seq<Byte>)
    requires |a| == |m|
    ensures |r| == |a| && forall i :: 0 <= i < |a| ==> r[i] == AndByte(a[i], m[i])
  {
    seq(|a|, i requires 0 <= i < |a| => AndByte(a[i], m[i]))
  }

  lemma AndBytesParts(a: seq<Byte>, m: seq<Byte>)
    requires |a| == |m| > 0
    ensures var r, n := AndBytes(a, m), |a| - 1;
            && r[..n] == AndBytes(a[..n], m[..n]) && r[n] == AndByte(a[n], m[n])
            && r[1..] == AndBytes(a[1..], m[1..]) && r[0] == AndByte(a[0], m[0])
  {
  }

  lemma {:induction false} LeadingBound(s: seq<Byte>, n: nat)
    requires n <= |s|
    ensures Leading(s, n) < Pow2(8 * n)
  {
    if n > 0 {
      LeadingBound(s, n - 1);
      NextByte(n - 1);
    }
  }

  lemma BigEndianBound(s: seq<Byte>)
    ensures BigEndian(s) < Pow2(8 * |s|)
  {
    LeadingBound(s, |s|);
  }

  lemma NextByte(n: nat)
    ensures Pow2(8 * (n + 1)) == Pow2(8 * n) * 256
  {
    Pow2Add(8 * n, 8);
    Pow2Values();
  }

  lemma Combine(h: nat, l: Byte, h': nat, l': Byte, w: nat, r: nat)
    requires r == BitAnd(h, h', w) * 256 + BitAnd(l, l', 8)
    ensures BitAnd(h * 256 + l, h' * 256 + l', w + 8) == r
  {
    AndSplitByte(h, l, h', l', w);
  }

  /** `&` on whole words is `&` on their bytes. */
  lemma {:induction false} LeadingAnd(a: seq<Byte>, m: seq<Byte>, n: nat)
    requires |a| == |m| && n <= |a|
    ensures BitAnd(Leading(a, n), Leading(m, n), 8 * n) == Leading(AndBytes(a, m), n)
  {
    if n > 0 {
      LeadingAnd(a, m, n - 1);
      Combine(Leading(a, n - 1), a[n - 1], Leading(m, n - 1), m[n - 1], 8 * (n - 1), Leading(AndBytes(a, m), n));
    }
  }

  lemma BigEndianAnd(a: seq<Byte>, m: seq<Byte>)
    requires |a| == |m|
    ensures BitAnd(BigEndian(a), BigEndian(m), 8 * |a|) == BigEndian(AndBytes(a, m))
  {
    LeadingAnd(a, m, |a|);
  }

  lemma {:induction false} LittleEndianAnd(a: seq<Byte>, m: seq<Byte>)
    requires |a| == |m|
    ensures BitAnd(LittleEndian(a), LittleEndian(m), 8 * |a|) == LittleEndian(AndBytes(a, m))
  {
    if a != [] {
      LittleEndianAnd(a[1..], m[1..]);
      AndBytesParts(a, m);
      Combine(LittleEndian(a[1..]), a[0], LittleEndian(m[1..]), m[0], 8 * (|a| - 1), LittleEndian(AndBytes(a, m)));
    }
  }

  lemma {:induction false} LeadingInjective(a: seq<Byte>, b: seq<Byte>, n: nat)
    requires n <= |a| == |b| && Leading(a, n) == Leading(b, n)
    ensures forall i :: 0 <= i < n ==> a[i] == b[i]
  {
    if n > 0 {
      DivUnique(Leading(a, n), 256, Leading(a, n - 1), a[n - 1]);
      DivUnique(Leading(b, n), 256, Leading(b, n - 1), b[n - 1]);
      LeadingInjective(a, b, n - 1);
    }
  }

  lemma BigEndianInjective(a: seq<Byte>, b: seq<Byte>)
    requires |a| == |b| && BigEndian(a) == BigEndian(b)
    ensures a == b
  {
    LeadingInjective(a, b, |a|);
  }

  lemma {:induction false} LittleEndianInjective(a: seq<Byte>, b: seq<Byte>)
    requires |a| == |b| && LittleEndian(a) == LittleEndian(b)
    ensures a == b
  {
    if a != [] {
      DivUnique(LittleEndian(a), 256, LittleEndian(a[1..]), a[0]);
      DivUnique(LittleEndian(b), 256, LittleEndian(b[1..]), b[0]);
      LittleEndianInjective(a[1..], b[1..]);
      assert a == [a[0]] + a[1..] && b == [b[0]] + b[1..];
    }
  }

  /** The `n` low bytes of a word, most significant first. */
  function ToBytes(w: nat, n: nat): (b: seq<Byte>)
    ensures |b| == n
  {
    if n == 0 then [] else ToBytes(w / 256, n - 1) + [w % 256]
  }

  lemma {:induction false} LeadingSame(a: seq<Byte>, b: seq<Byte>, n: nat)
    requires n <= |a| && n <= |b| && forall i :: 0 <= i < n ==> a[i] == b[i]
    ensures Leading(a, n) == Leading(b, n)
  {
    if n > 0 { LeadingSame(a, b, n - 1); }
  }

  lemma {:induction false} ToBytesValue(w: nat, n: nat)
    requires w < Pow2(8 * n)
    ensures BigEndian(ToBytes(w, n)) == w
  {
    if n > 0 {
      NextByte(n - 1);
      ToBytesValue(w / 256, n - 1);
      LeadingSame(ToBytes(w, n), ToBytes(w / 256, n - 1), n - 1);
    }
  }

  // ---- masks ----

  /** The mask byte `i` of a `/prefix` block. */
  function MaskByte(prefix: nat, i: nat): Byte {
    if i < prefix / 8 then 255
    else if i == prefix / 8 && prefix % 8 != 0 then (255 * Pow2(8 - prefix % 8)) % 256
    else 0
  }

  function MaskBytes(prefix: nat, n: nat): (r: seq<Byte>)
    ensures |r| == n && forall i :: 0 <= i < n ==> r[i] == MaskByte(prefix, i)
  {
    seq(n, i requires 0 <= i < n => MaskByte(prefix, i))
  }

  lemma PartialByte(r: nat)
    requires 0 < r < 8
    ensures (255 * Pow2(8 - r)) % 256 == 256 - Pow2(8 - r)
  {
    Pow2Values();
  }

  lemma MaskByteValue(prefix: nat, i: nat)
    ensures MaskByte(prefix, i) ==
            if prefix <= 8 * i then 0 else if prefix >= 8 * (i + 1) then 255 else 256 - Pow2(8 * (i + 1) - prefix)
  {
    var r := prefix % 8;
    if 8 * i < prefix < 8 * (i + 1) {
      assert prefix / 8 == i && 8 * (i + 1) - prefix == 8 - r;
      PartialByte(r);
    }
  }

  /** `prefix` ones, then zeros, as a number of `8 * n` bits. */
  function Ones(prefix: nat, n: nat): nat {
    if prefix <= 8 * n then
      Pow2Order(8 * n - prefix, 8 * n);
      Pow2(8 * n) - Pow2(8 * n - prefix)
    else Pow2(8 * n) - 1
  }

  lemma OnesStep(prefix: nat, m: nat)
    ensures Ones(prefix, m + 1) == Ones(prefix, m) * 256 + MaskByte(prefix, m)
  {
    MaskByteValue(prefix, m);
    NextByte(m);
    if prefix <= 8 * m {
      Pow2Add(8 * m - prefix, 8);
      Pow2Values();
      assert 8 * (m + 1) - prefix == 8 * m - prefix + 8;
    }
  }

  /** The mask bytes are the binary number of `prefix` ones and then zeros. */
  lemma {:induction false} LeadingMask(prefix: nat, size: nat, n: nat)
    requires n <= size
    ensures Leading(MaskBytes(prefix, size), n) == Ones(prefix, n)
  {
    if n > 0 {
      LeadingMask(prefix, size, n - 1);
      OnesStep(prefix, n - 1);
    } else {
      assert Ones(prefix, 0) == 0;
    }
  }

  lemma MaskValue(prefix: nat, n: nat)
    requires prefix <= 8 * n
    ensures Pow2(8 * n - prefix) <= Pow2(8 * n)
    ensures BigEndian(MaskBytes(prefix, n)) == Pow2(8 * n) - Pow2(8 * n - prefix)
  {
    Pow2Order(8 * n - prefix, 8 * n);
    LeadingMask(prefix, n, n);
  }

  // ---- the byte-wise test ----

  /** Both addresses lie in the same block of that prefix length. */
  predicate SamePrefix(a: seq<Byte>, b: seq<Byte>, prefix: nat)
    requires |a| == |b| && prefix <= 8 * |a|
  {
    BigEndian(a) / Pow2(8 * |a| - prefix) == BigEndian(b) / Pow2(8 * |a| - prefix)
  }

  /** Masking the bytes clears the bits after the prefix. */
  lemma MaskedWord(a: seq<Byte>, prefix: nat)
    requires prefix <= 8 * |a|
    ensures BigEndian(AndBytes(a, MaskBytes(prefix, |a|))) == Cleared(BigEndian(a), 8 * |a| - prefix)
  {
    MaskValue(prefix, |a|);
    BigEndianAnd(a, MaskBytes(prefix, |a|));
    BigEndianBound(a);
    AndMask(BigEndian(a), 8 * |a| - prefix, 8 * |a|);
  }

  /** The byte-by-byte mask test is comparison of the leading `prefix` bits. */
  lemma BytewiseTest(a: seq<Byte>, base: seq<Byte>, prefix: nat)
    requires |a| == |base| && prefix <= 8 * |a|
    ensures var m := MaskBytes(prefix, |a|);
            AndBytes(a, m) == AndBytes(base, m) <==> SamePrefix(a, base, prefix)
  {
    var k := 8 * |a| - prefix;
    MaskedWord(a, prefix);
    MaskedWord(base, prefix);
    SameBytes(AndBytes(a, MaskBytes(prefix, |a|)), AndBytes(base, MaskBytes(prefix, |a|)));
    ClearedIsShift(BigEndian(a), BigEndian(base), k);
    ShiftIsDiv(BigEndian(a), k);
    ShiftIsDiv(BigEndian(base), k);
  }

  lemma SameBytes(a: seq<Byte>, b: seq<Byte>)
    requires |a| == |b|
    ensures BigEndian(a) == BigEndian(b) <==> a == b
  {
    if BigEndian(a) == BigEndian(b) { BigEndianInjective(a, b); }
  }

  /** The same test on `s_addr` words of a little-endian machine. */
  lemma {:induction false} NativeTest(a: seq<Byte>, m: seq<Byte>, c: seq<Byte>)
    requires |a| == |m| == |c|
    ensures BitAnd(LittleEndian(a), LittleEndian(m), 8 * |a|) == LittleEndian(c) <==> AndBytes(a, m) == c
  {
    LittleEndianAnd(a, m);
    if LittleEndian(AndBytes(a, m)) == LittleEndian(c) { LittleEndianInjective(AndBytes(a, m), c); }
  }
}
