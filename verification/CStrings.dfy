/**
 The C library string functions the proxy relies on, over strings of bytes
 (characters 0..255).  Searches return -1 for a NULL result.
 */
module CStrings {

  datatype Option<+T> = None | Some(value: T)

  const NUL: char := 0 as char
  const CR: char := '\r'
  const CRLF: string := "\r\n"

  /** One more than SIZE_MAX. */
  const WORD: nat := 0x1_0000_0000_0000_0000

  /** The text a C function sees: everything before the first NUL. */
  function CText(s: string): (t: string)
    ensures t <= s && NUL !in t
    ensures |t| < |s| ==> s[|t|] == NUL
  {
    if s == [] || s[0] == NUL then [] else [s[0]] + CText(s[1..])
  }

  /** A text without a NUL is read whole. */
  lemma {:induction false} CTextWhole(s: string)
    requires NUL !in s
    ensures CText(s) == s
  {
    if s != [] {
      CTextWhole(s[1..]);
      assert s == [s[0]] + s[1..];
    }
  }

  /** `strchr(s + from, c)`: the first index at or after `from` of `c`, or -1. */
  function IndexFrom(s: string, c: char, from: nat): (k: int)
    requires from <= |s|
    ensures k == -1 || from <= k < |s|
    ensures k >= 0 ==> s[k] == c
    ensures forall j :: from <= j < |s| && (k == -1 || j < k) ==> s[j] != c
    decreases |s| - from
  {
    if from == |s| then -1
    else if s[from] == c then from
    else IndexFrom(s, c, from + 1)
  }

  /** `strchr`: the first index of `c`, or -1. */
  function IndexOf(s: string, c: char): (k: int)
    ensures -1 <= k < |s|
    ensures k >= 0 ==> s[k] == c
    ensures forall j :: 0 <= j < |s| && (k == -1 || j < k) ==> s[j] != c
  {
    IndexFrom(s, c, 0)
  }

  predicate StartsAt(s: string, needle: string, k: nat) {
    k + |needle| <= |s| && forall i {:trigger needle[i]} :: 0 <= i < |needle| ==> s[k + i] == needle[i]
  }

  /** `strstr(s + from, needle)`: the first index at or after `from` where `needle` stands, or -1. */
  function Find(s: string, needle: string, from: nat): (k: int)
    requires from <= |s|
    ensures k == -1 || from <= k <= |s| - |needle|
    ensures k >= 0 ==> StartsAt(s, needle, k)
    decreases |s| - from
  {
    if |needle| > |s| - from then -1
    else if StartsAt(s, needle, from) then from
    else if from == |s| then -1
    else Find(s, needle, from + 1)
  }

  /** `Find` returns the first place where the needle stands, if there is one. */
  lemma {:induction false} FindFirst(s: string, needle: string, from: nat, n: nat)
    requires from <= n && StartsAt(s, needle, n)
    requires forall j :: from <= j < n ==> !StartsAt(s, needle, j)
    ensures Find(s, needle, from) == n
    decreases n - from
  {
    if from < n { FindFirst(s, needle, from + 1, n); }
  }

  /** ... and misses none. */
  lemma {:induction false} FindMisses(s: string, needle: string, from: nat, n: nat)
    requires from <= n && StartsAt(s, needle, n)
    ensures from <= Find(s, needle, from) <= n
    decreases n - from
  {
    if from < n { FindMisses(s, needle, from + 1, n); }
  }

  /** CR LF at `k`. */
  predicate CrlfAt(s: string, k: nat) {
    k + 2 <= |s| && s[k] == CR && s[k + 1] == '\n'
  }

  /** `strstr(s + from, "\r\n")` */
  function FindCrlf(s: string, from: nat): (k: int)
    requires from <= |s|
    ensures k == -1 || (from <= k <= |s| - 2 && CrlfAt(s, k))
    ensures forall j: nat :: from <= j && (k == -1 || j < k) ==> !CrlfAt(s, j)
    decreases |s| - from
  {
    if from == |s| then -1
    else if CrlfAt(s, from) then from
    else FindCrlf(s, from + 1)
  }

  function Lower(c: char): char {
    if 'A' <= c <= 'Z' then c - 'A' + 'a' else c
  }

  function LowerAll(s: string): (t: string)
    ensures |t| == |s| && forall i :: 0 <= i < |s| ==> t[i] == Lower(s[i])
  {
    seq(|s|, i requires 0 <= i < |s| => Lower(s[i]))
  }

  /** The same letter, or the same other character: upper and lower case are 32 apart. */
  predicate SameLetter(a: char, b: char) {
    || a == b
    || ('A' <= a <= 'Z' && b as int == a as int + 32)
    || ('A' <= b <= 'Z' && a as int == b as int + 32)
  }

  lemma LowerAgrees(a: char, b: char)
    ensures Lower(a) == Lower(b) <==> SameLetter(a, b)
  {
  }

  /** `needle` stands in `s` at `k`, ignoring ASCII case. */
  predicate Occurs(s: string, needle: string, k: nat) {
    k + |needle| <= |s| && forall i {:trigger needle[i]} :: 0 <= i < |needle| ==> SameLetter(s[k + i], needle[i])
  }

  lemma OccursIsStartsAt(s: string, needle: string, k: nat)
    ensures Occurs(s, needle, k) <==> StartsAt(LowerAll(s), LowerAll(needle), k)
  {
    var t, n := LowerAll(s), LowerAll(needle);
    if k + |needle| <= |s| {
      forall i | 0 <= i < |needle|
        ensures t[k + i] == n[i] <==> SameLetter(s[k + i], needle[i])
      {
        LowerAgrees(s[k + i], needle[i]);
      }
    }
  }

  predicate IsSpace(c: char) {
    c == ' ' || (9 as char <= c && c <= 13 as char)
  }

  /** The six blanks of the C locale. */
  lemma Blanks(c: char)
    ensures IsSpace(c) <==> c in [' ', '\t', '\n', '\r', 11 as char, 12 as char]
  {
  }

  predicate IsDigit(c: char) {
    '0' <= c <= '9'
  }

  function SkipSpaces(s: string): string {
    if s != [] && IsSpace(s[0]) then SkipSpaces(s[1..]) else s
  }

  /** The value of the leading decimal digits of `s`, continued from `acc`. */
  function Digits(s: string, acc: nat): nat {
    if s != [] && IsDigit(s[0]) then Digits(s[1..], 10 * acc + (s[0] - '0') as int) else acc
  }

  /** `n` in decimal, without leading zeros. */
  function Decimal(n: nat): (s: string)
    ensures s != "" && forall i :: 0 <= i < |s| ==> IsDigit(s[i])
  {
    if n < 10 then [('0' as int + n) as char] else Decimal(n / 10) + [('0' as int + n % 10) as char]
  }

  /** Reading a decimal number and then on from what follows. */
  lemma {:induction false} DigitsOfDecimal(n: nat, s: string)
    ensures Digits(Decimal(n) + s, 0) == Digits(s, n)
  {
    var d := ('0' as int + n % 10) as char;
    if n < 10 {
      assert (Decimal(n) + s)[1..] == s;
    } else {
      assert Decimal(n) + s == Decimal(n / 10) + ([d] + s);
      DigitsOfDecimal(n / 10, [d] + s);
      assert ([d] + s)[1..] == s;
    }
  }

  const LONG_MAX: int := 0x7fff_ffff_ffff_ffff

  /** The number a text starts with, before it is fitted into a `long`. */
  function DecimalValue(s: string): int {
    var t := SkipSpaces(s);
    var body := if t != [] && (t[0] == '-' || t[0] == '+') then t[1..] else t;
    if t != [] && t[0] == '-' then 0 - Digits(body, 0) else Digits(body, 0)
  }

  /** `strtol(s, NULL, 10)` on a 64-bit `long`: saturating. */
  function Strtol(s: string): (n: int)
    ensures -LONG_MAX - 1 <= n <= LONG_MAX
  {
    var v := DecimalValue(s);
    if v > LONG_MAX then LONG_MAX else if v < -LONG_MAX - 1 then -LONG_MAX - 1 else v
  }

  /** The decimal text of a number, with a sign and blanks before it and anything but a digit behind, is read as it. */
  lemma ReadsDecimal(blanks: string, sign: string, n: nat, rest: string)
    requires (forall i :: 0 <= i < |blanks| ==> IsSpace(blanks[i])) && sign in ["", "+", "-"]
    requires rest == "" || !IsDigit(rest[0])
    ensures DecimalValue(blanks + (sign + (Decimal(n) + rest))) == if sign == "-" then 0 - n else n
  {
    var t := sign + (Decimal(n) + rest);
    SkipsBlanks(blanks, t);
    DigitsOfDecimal(n, rest);
    if sign == "" {
      assert t == Decimal(n) + rest;
    } else {
      assert t[1..] == Decimal(n) + rest;
    }
  }

  lemma {:induction false} SkipsBlanks(blanks: string, t: string)
    requires (forall i :: 0 <= i < |blanks| ==> IsSpace(blanks[i])) && t != "" && !IsSpace(t[0])
    ensures SkipSpaces(blanks + t) == t
  {
    if blanks == "" {
      assert blanks + t == t;
    } else {
      assert (blanks + t)[1..] == blanks[1..] + t;
      SkipsBlanks(blanks[1..], t);
    }
  }

  /** ... which then sets `errno` to ERANGE. */
  predicate StrtolOverflows(s: string) {
    Strtol(s) != DecimalValue(s)
  }

  /** The conversion of a `long` to a 32-bit `int`. */
  function ToInt32(n: int): (r: int)
    ensures -0x8000_0000 <= r < 0x8000_0000
  {
    var m := n % 0x1_0000_0000;
    if m < 0x8000_0000 then m else m - 0x1_0000_0000
  }

  function Atoi(s: string): int {
    ToInt32(Strtol(s))
  }

  lemma SmallStays(n: int)
    requires 0 <= n < 0x8000_0000
    ensures ToInt32(n) == n
  {
  }

  lemma SmallIsExact(s: string)
    requires 0 <= DecimalValue(s) < 0x8000_0000
    ensures Atoi(s) == DecimalValue(s) && !StrtolOverflows(s)
  {
    SmallStays(DecimalValue(s));
  }

  lemma NothingBefore(s: string)
    ensures "" + ("" + s) == s
  {
  }

  /** `atoi` reads every non-negative `int` in decimal. */
  lemma AtoiReads(n: nat, rest: string)
    requires n < 0x8000_0000 && (rest == "" || !IsDigit(rest[0]))
    ensures Atoi(Decimal(n) + rest) == n
  {
    ReadsDecimal("", "", n, rest);
    NothingBefore(Decimal(n) + rest);
    SmallIsExact(Decimal(n) + rest);
  }
}
