/**
 Basic authentication (src/auth.c:23-59, 165-189): the base64 decoder against the encoding
 of section 4 of RFC 4648.  Bytes are characters 0..255.
 */
module BasicAuth {
  import opened CStrings

  // ---- the alphabet ----

  /** `b64index` */
  function Sextet(c: char): (v: nat)
    ensures v < 64
  {
    if 'A' <= c <= 'Z' then c as int - 'A' as int
    else if 'a' <= c <= 'z' then c as int - 'a' as int + 26
    else if '0' <= c <= '9' then c as int - '0' as int + 52
    else if c == '+' || c == '-' || c == '.' then 62
    else if c == '/' || c == ',' then 63
    else 0
  }

  /** The code of the pad character; the others are the 64 letters. */
  const PAD: nat := 64

  type Code = v: nat | v <= 64

  /** What a code contributes to its group: the pad counts as zero. */
  function Bits(v: nat): (b: nat)
    ensures b < 64
  {
    if v < PAD then v else 0
  }

  /** The base64 alphabet and its pad character. */
  function Symbol(v: nat): (c: char)
    requires v <= PAD
    ensures Sextet(c) == Bits(v) && (c == '=' <==> v == PAD) && c != ' ' && c as int < 128
  {
    if v < 26 then (v + 'A' as int) as char
    else if v < 52 then (v - 26 + 'a' as int) as char
    else if v < 62 then (v - 52 + '0' as int) as char
    else if v == 62 then '+' else if v == 63 then '/' else '='
  }

  predicate Bytes(x: string) {
    forall i :: 0 <= i < |x| ==> x[i] as int < 256
  }

  // ---- encoding (the reference) ----

  /** The four letters of the three bytes `a`, `b`, `c`. */
  function First(a: nat): (v: nat)
    requires a < 256
    ensures v < 64
  {
    a / 4
  }

  function Second(a: nat, b: nat): (v: nat)
    requires a < 256 && b < 256
    ensures v < 64
  {
    a % 4 * 16 + b / 16
  }

  function Third(b: nat, c: nat): (v: nat)
    requires b < 256 && c < 256
    ensures v < 64
  {
    b % 16 * 4 + c / 64
  }

  function Fourth(c: nat): (v: nat)
    ensures v < 64
  {
    c % 64
  }

  function ThreeCodes(a: nat, b: nat, c: nat): (r: seq<Code>)
    requires a < 256 && b < 256 && c < 256
    ensures |r| == 4 && r[3] < PAD
  {
    [First(a), Second(a, b), Third(b, c), Fourth(c)]
  }

  /** The last one or two bytes, padded to a group. */
  function TailCodes(x: string): (r: seq<Code>)
    requires Bytes(x) && 0 < |x| <= 2
    ensures |r| == 4
  {
    if |x| == 1 then [First(x[0] as int), Second(x[0] as int, 0), PAD, PAD]
    else [First(x[0] as int), Second(x[0] as int, x[1] as int), Third(x[1] as int, 0), PAD]
  }

  function Codes(x: string): (r: seq<Code>)
    requires Bytes(x)
    ensures x != "" ==> |r| >= 4
  {
    if |x| == 0 then []
    else if |x| <= 2 then TailCodes(x)
    else ThreeCodes(x[0] as int, x[1] as int, x[2] as int) + Codes(x[3..])
  }

  /** Base64 of the bytes `x`. */
  function Encode(x: string): (s: string)
    requires Bytes(x)
    ensures |s| == |Codes(x)| && forall i :: 0 <= i < |s| ==> s[i] == Symbol(Codes(x)[i])
  {
    var r := Codes(x);
    seq(|r|, i requires 0 <= i < |r| => Symbol(r[i]))
  }

  // ---- decoding ----

  /** The 24 bits of one group. */
  function Group(s: string): (n: nat)
    requires |s| >= 4
    ensures n < 0x100_0000
  {
    Sextet(s[0]) * 0x4_0000 + Sextet(s[1]) * 0x1000 + Sextet(s[2]) * 0x40 + Sextet(s[3])
  }

  /** The pad characters at the end; a single '=' is preceded by a blank of the header. */
  function Pad(s: string): nat {
    if |s| >= 2 && s[|s| - 1] == '=' then (if s[|s| - 2] == '=' then 2 else 1) else 0
  }

  /** What one group writes: the pad of the whole text decides for every group. */
  function GroupBytes(n: nat, pad: nat): (r: string)
    requires n < 0x100_0000
    ensures Bytes(r)
  {
    [(n / 0x1_0000) as char, (n / 0x100 % 0x100) as char] + if pad < 2 then [(n % 0x100) as char] else []
  }

  function Decoded(s: string, pad: nat): string {
    if |s| < 4 then "" else GroupBytes(Group(s), pad) + Decoded(s[4..], pad)
  }

  function Min(a: nat, b: nat): nat {
    if a <= b then a else b
  }

  /** The output holds `done`, cut where it is full. */
  ghost predicate Holds(out: array<char>, j: nat, max: nat, done: string)
    reads out
  {
    max <= out.Length && j == Min(|done|, max) && out[..j] == done[..j]
  }

  /** `out[j++] = c` unless the output is full. */
  method Store(out: array<char>, j: nat, c: char, max: nat, ghost done: string) returns (next: nat)
    requires Holds(out, j, max, done)
    modifies out
    ensures Holds(out, next, max, done + [c])
  {
    ghost var before := out[..j];
    next := j;
    if j < max {
      out[j] := c;
      next := j + 1;
      assert out[..next] == before + [c];
      assert (done + [c])[..next] == done[..j] + [c];
    } else {
      assert (done + [c])[..j] == done[..j];
    }
  }

  /** The bytes of one group, cut where the output is full (src/auth.c:53-55). */
  method StoreGroup(out: array<char>, j: nat, n: nat, pad: nat, max: nat, ghost done: string) returns (next: nat)
    requires n < 0x100_0000 && Holds(out, j, max, done)
    modifies out
    ensures Holds(out, next, max, done + GroupBytes(n, pad))
  {
    var g := GroupBytes(n, pad);
    next := Store(out, j, g[0], max, done);
    next := Store(out, next, g[1], max, done + [g[0]]);
    assert done + [g[0]] + [g[1]] == done + [g[0], g[1]];
    if pad < 2 {
      next := Store(out, next, g[2], max, done + [g[0], g[1]]);
      assert done + [g[0], g[1]] + [g[2]] == done + g;
    }
  }

  /** `i` groups in, `done` is out and the rest is to come. */
  ghost predicate Halfway(s: string, pad: nat, i: nat, done: string) {
    i <= |s| && i % 4 == 0 && done + Decoded(s[i..], pad) == Decoded(s, pad)
  }

  lemma WholeGroupLeft(n: nat, i: nat)
    requires n % 4 == 0 && i % 4 == 0 && i < n
    ensures i + 4 <= n && (i + 4) % 4 == 0
  {
  }

  lemma NextGroup(s: string, pad: nat, i: nat, done: string)
    requires |s| % 4 == 0 && i < |s| && Halfway(s, pad, i, done)
    ensures i + 4 <= |s| && Halfway(s, pad, i + 4, done + GroupBytes(Group(s[i..]), pad))
  {
    WholeGroupLeft(|s|, i);
    var g, rest := GroupBytes(Group(s[i..]), pad), Decoded(s[i + 4..], pad);
    assert s[i..][4..] == s[i + 4..];
    assert (done + g) + rest == done + (g + rest);
  }

  lemma FirstHalfway(s: string, pad: nat)
    ensures Halfway(s, pad, 0, "")
  {
    assert s[0..] == s;
    assert "" + Decoded(s, pad) == Decoded(s, pad);
  }

  lemma CutHalfway(s: string, pad: nat, i: nat, done: string, n: nat)
    requires Halfway(s, pad, i, done) && n <= |done|
    ensures n <= |Decoded(s, pad)| && Decoded(s, pad)[..n] == done[..n]
  {
  }

  lemma LastHalfway(s: string, pad: nat, done: string)
    requires Halfway(s, pad, |s|, done)
    ensures done == Decoded(s, pad)
  {
    assert Decoded(s[|s|..], pad) == "";
    assert done + "" == done;
  }

  lemma DecodedAt(s: string, pad: nat, i: nat, j: nat, max: nat, done: string)
    requires Halfway(s, pad, i, done) && j == Min(|done|, max) && (i == |s| || j == max)
    ensures var d := Decoded(s, pad); j == Min(|d|, max) && d[..j] == done[..j]
  {
    if i == |s| { LastHalfway(s, pad, done); } else { CutHalfway(s, pad, i, done, j); }
  }

  /** One turn of the decoding loop. */
  method DecodeGroup(s: string, pad: nat, out: array<char>, max: nat, i: nat, j: nat, ghost done: string)
    returns (next: nat, ghost more: string)
    requires |s| % 4 == 0 && i < |s| && Halfway(s, pad, i, done) && Holds(out, j, max, done)
    modifies out
    ensures i + 4 <= |s| && Halfway(s, pad, i + 4, more) && Holds(out, next, max, more)
  {
    NextGroup(s, pad, i, done);
    var n := Group(s[i..]);
    next := StoreGroup(out, j, n, pad, max, done);
    more := done + GroupBytes(n, pad);
  }

  /** The decoding loop (src/auth.c:48-56). */
  method DecodeLoop(s: string, pad: nat, out: array<char>, max: nat) returns (j: nat)
    requires |s| % 4 == 0 && max <= out.Length
    modifies out
    ensures var d := Decoded(s, pad); j == Min(|d|, max) && out[..j] == d[..j]
  {
    j := 0;
    var i: nat := 0;
    ghost var done := "";
    FirstHalfway(s, pad);
    while i < |s| && j < max
      invariant Halfway(s, pad, i, done)
      invariant Holds(out, j, max, done)
      decreases |s| - i
    {
      j, done := DecodeGroup(s, pad, out, max, i, j, done);
      i := i + 4;
    }
    DecodedAt(s, pad, i, j, max, done);
  }

  /** How many characters are missing from whole groups. */
  function Missing(n: nat): (m: nat)
    ensures m < 4 && (n + m) % 4 == 0 && (m == 0 <==> n % 4 == 0) && (m == 1 <==> n % 4 == 3)
  {
    var q := n / 4;
    assert n == 4 * q + n % 4;
    assert (4 * (q + 1)) % 4 == 0;
    if n % 4 == 0 then 0 else 4 - n % 4
  }

  /** What is read for the text `s`: whole groups, out of its NUL and the memory `beyond` that. */
  function Padded(s: string, beyond: string): (p: string)
    requires |beyond| == 2
    ensures |p| == |s| + Missing(|s|) && s <= p <= s + ([NUL] + beyond)
  {
    s + ([NUL] + beyond)[..Missing(|s|)]
  }

  /** `b64decode` on a text of ASCII characters; `beyond` is the memory behind its NUL. */
  method Decode(s: string, beyond: string, out: array<char>, max: nat) returns (j: nat)
    requires |beyond| == 2 && max <= out.Length
    modifies out
    ensures s == "" ==> j == 0 && out[..] == old(out[..])
    ensures var d := Decoded(Padded(s, beyond), Pad(s)); j == Min(|d|, max) && out[..j] == d[..j]
    ensures s != "" && j < max ==> out[j] == NUL
  {
    if |s| == 0 { return 0; }
    j := DecodeLoop(Padded(s, beyond), Pad(s), out, max);
    if j < max {
      ghost var b := out[..j];
      out[j] := NUL;
      assert out[..j] == b;
    }
  }

  // ---- the round trip ----

  function PadOfCodes(r: seq<nat>): nat {
    if |r| >= 2 && r[|r| - 1] == PAD then (if r[|r| - 2] == PAD then 2 else 1) else 0
  }

  lemma PadIsPadOfCodes(x: string)
    requires Bytes(x)
    ensures Pad(Encode(x)) == PadOfCodes(Codes(x))
  {
  }

  lemma PadConcat(a: seq<nat>, b: seq<nat>)
    requires |b| >= 2
    ensures PadOfCodes(a + b) == PadOfCodes(b)
  {
    assert (a + b)[|a + b| - 1] == b[|b| - 1] && (a + b)[|a + b| - 2] == b[|b| - 2];
  }

  lemma CodesCons(x: string)
    requires Bytes(x) && |x| > 2
    ensures Codes(x) == ThreeCodes(x[0] as int, x[1] as int, x[2] as int) + Codes(x[3..])
  {
  }

  lemma {:induction false} CodesAreWhole(x: string)
    requires Bytes(x)
    ensures |Codes(x)| % 4 == 0
  {
    if |x| > 2 {
      CodesAreWhole(x[3..]);
      CodesCons(x);
      WholeStep(ThreeCodes(x[0] as int, x[1] as int, x[2] as int), Codes(x[3..]));
    }
  }

  lemma WholeStep(g: seq<nat>, t: seq<nat>)
    requires |g| == 4 && |t| % 4 == 0
    ensures |g + t| % 4 == 0
  {
  }

  lemma PadStep(g: seq<nat>, t: seq<nat>, n: nat)
    requires |g| == 4 && g[3] < PAD && n >= 3
    requires if n == 3 then t == [] else |t| >= 4 && PadOfCodes(t) == (3 - (n - 3) % 3) % 3
    ensures PadOfCodes(g + t) == (3 - n % 3) % 3
  {
    if n == 3 { assert g + t == g; } else { PadConcat(g, t); }
  }

  lemma TailPad(x: string)
    requires Bytes(x) && 0 < |x| <= 2
    ensures PadOfCodes(TailCodes(x)) == (3 - |x| % 3) % 3
  {
  }

  lemma {:induction false} CodesPad(x: string)
    requires Bytes(x)
    ensures PadOfCodes(Codes(x)) == (3 - |x| % 3) % 3
  {
    if 0 < |x| <= 2 {
      TailPad(x);
    } else if |x| > 2 {
      CodesPad(x[3..]);
      CodesCons(x);
      PadStep(ThreeCodes(x[0] as int, x[1] as int, x[2] as int), Codes(x[3..]), |x|);
    }
  }

  lemma EncodePad(x: string)
    requires Bytes(x)
    ensures Pad(Encode(x)) == (3 - |x| % 3) % 3
  {
    PadIsPadOfCodes(x);
    CodesPad(x);
  }

  function CodesValue(r: seq<nat>): (n: nat)
    requires |r| >= 4
    ensures n < 0x100_0000
  {
    Bits(r[0]) * 0x4_0000 + Bits(r[1]) * 0x1000 + Bits(r[2]) * 0x40 + Bits(r[3])
  }

  function DecodedCodes(r: seq<nat>, pad: nat): string {
    if |r| < 4 then "" else GroupBytes(CodesValue(r), pad) + DecodedCodes(r[4..], pad)
  }

  lemma {:induction false} DecodedIsDecodedCodes(s: string, r: seq<nat>, pad: nat)
    requires |s| == |r| && forall i :: 0 <= i < |s| ==> Sextet(s[i]) == Bits(r[i])
    ensures Decoded(s, pad) == DecodedCodes(r, pad)
  {
    if |s| >= 4 { DecodedIsDecodedCodes(s[4..], r[4..], pad); }
  }

  /** What decoding an encoded text gives, for either pad rule. */
  function Expected(x: string, pad: nat): string {
    if x == "" then ""
    else
      var third := if |x| > 2 then x[2] else NUL;
      [x[0], if |x| > 1 then x[1] else NUL] + (if pad < 2 then [third] else []) +
      if |x| > 3 then Expected(x[3..], pad) else ""
  }

  lemma SplitBytes(n: nat, a: nat, b: nat, c: nat)
    requires a < 256 && b < 256 && c < 256 && n == a * 0x1_0000 + b * 0x100 + c
    ensures n / 0x1_0000 == a && n / 0x100 % 0x100 == b && n % 0x100 == c
  {
    assert n / 0x100 == a * 0x100 + b;
  }

  lemma BytesOfGroup(n: nat, x: char, y: char, z: char, pad: nat)
    requires x as int < 256 && y as int < 256 && z as int < 256 && n < 0x100_0000
    requires n / 0x1_0000 == x as int && n / 0x100 % 0x100 == y as int && n % 0x100 == z as int
    ensures GroupBytes(n, pad) == [x, y] + if pad < 2 then [z] else []
  {
  }

  lemma SextetsToBytes(a: nat, b: nat, c: nat)
    requires a < 256 && b < 256 && c < 256
    ensures First(a) * 0x4_0000 + Second(a, b) * 0x1000 + Third(b, c) * 0x40 + Fourth(c) == a * 0x1_0000 + b * 0x100 + c
  {
  }

  /** A group that encodes the bytes `x`, `y`, `z` decodes to them. */
  lemma GroupOfThree(r: seq<nat>, x: char, y: char, z: char, pad: nat)
    requires x as int < 256 && y as int < 256 && z as int < 256 && |r| >= 4
    requires Bits(r[0]) == First(x as int) && Bits(r[1]) == Second(x as int, y as int)
    requires Bits(r[2]) == Third(y as int, z as int) && Bits(r[3]) == Fourth(z as int)
    ensures GroupBytes(CodesValue(r), pad) == [x, y] + if pad < 2 then [z] else []
  {
    SextetsToBytes(x as int, y as int, z as int);
    SplitBytes(CodesValue(r), x as int, y as int, z as int);
    BytesOfGroup(CodesValue(r), x, y, z, pad);
  }

  lemma DecodedStep(g: seq<nat>, t: seq<nat>, pad: nat)
    requires |g| == 4
    ensures DecodedCodes(g + t, pad) == GroupBytes(CodesValue(g), pad) + DecodedCodes(t, pad)
  {
    assert (g + t)[4..] == t;
    assert CodesValue(g + t) == CodesValue(g);
  }

  lemma ExpectedStep(x: string, pad: nat)
    requires |x| >= 3
    ensures Expected(x, pad) == ([x[0], x[1]] + if pad < 2 then [x[2]] else []) + Expected(x[3..], pad)
  {
    if |x| == 3 { assert x[3..] == ""; }
  }

  lemma TailGroup(x: char, y: char, r: seq<nat>)
    requires x as int < 256 && y as int < 256 && |r| == 4
    requires r[0] == First(x as int) && r[1] == Second(x as int, y as int)
    requires (r[2] == PAD && y == NUL) || r[2] == Third(y as int, 0)
    requires r[3] == PAD
    ensures Bits(r[0]) == First(x as int) && Bits(r[1]) == Second(x as int, y as int)
    ensures Bits(r[2]) == Third(y as int, 0) && Bits(r[3]) == Fourth(0)
  {
  }

  lemma ExpectedTail(x: string, y: char, pad: nat)
    requires 0 < |x| <= 2 && y == if |x| > 1 then x[1] else NUL
    ensures Expected(x, pad) == [x[0], y] + if pad < 2 then [NUL] else []
  {
  }

  lemma DecodedOne(r: seq<nat>, pad: nat)
    requires |r| == 4
    ensures DecodedCodes(r, pad) == GroupBytes(CodesValue(r), pad)
  {
    assert r[4..] == [];
    assert DecodedCodes([], pad) == "";
  }

  lemma TailGroupBytes(x: char, y: char, r: seq<nat>, pad: nat)
    requires x as int < 256 && y as int < 256 && |r| == 4
    requires r[0] == First(x as int) && r[1] == Second(x as int, y as int)
    requires (r[2] == PAD && y == NUL) || r[2] == Third(y as int, 0)
    requires r[3] == PAD
    ensures GroupBytes(CodesValue(r), pad) == [x, y] + if pad < 2 then [NUL] else []
  {
    TailGroup(x, y, r);
    GroupOfThree(r, x, y, NUL, pad);
  }

  lemma TailDecodesTo(x: string, y: char, r: seq<nat>, pad: nat)
    requires 0 < |x| <= 2 && |r| == 4 && y == if |x| > 1 then x[1] else NUL
    requires GroupBytes(CodesValue(r), pad) == [x[0], y] + if pad < 2 then [NUL] else []
    ensures DecodedCodes(r, pad) == Expected(x, pad)
  {
    DecodedOne(r, pad);
    ExpectedTail(x, y, pad);
  }

  lemma TailDecodes(x: string, pad: nat)
    requires Bytes(x) && 0 < |x| <= 2
    ensures DecodedCodes(TailCodes(x), pad) == Expected(x, pad)
  {
    var y := if |x| > 1 then x[1] else NUL;
    TailGroupBytes(x[0], y, TailCodes(x), pad);
    TailDecodesTo(x, y, TailCodes(x), pad);
  }

  lemma ThreeCodesDecode(x: char, y: char, z: char, pad: nat)
    requires x as int < 256 && y as int < 256 && z as int < 256
    ensures GroupBytes(CodesValue(ThreeCodes(x as int, y as int, z as int)), pad) == [x, y] + if pad < 2 then [z] else []
  {
    GroupOfThree(ThreeCodes(x as int, y as int, z as int), x, y, z, pad);
  }

  lemma GroupDecodes(x: string, g: seq<nat>, t: seq<nat>, pad: nat)
    requires |x| > 2 && |g| == 4 && GroupBytes(CodesValue(g), pad) == [x[0], x[1]] + if pad < 2 then [x[2]] else []
    requires DecodedCodes(t, pad) == Expected(x[3..], pad)
    ensures DecodedCodes(g + t, pad) == Expected(x, pad)
  {
    DecodedStep(g, t, pad);
    ExpectedStep(x, pad);
  }

  lemma {:induction false} CodesDecode(x: string, pad: nat)
    requires Bytes(x)
    ensures DecodedCodes(Codes(x), pad) == Expected(x, pad)
  {
    if 0 < |x| <= 2 {
      TailDecodes(x, pad);
    } else if |x| > 2 {
      CodesDecode(x[3..], pad);
      CodesCons(x);
      ThreeCodesDecode(x[0], x[1], x[2], pad);
      GroupDecodes(x, ThreeCodes(x[0] as int, x[1] as int, x[2] as int), Codes(x[3..]), pad);
    }
  }

  lemma {:induction false} DecodeEncoded(x: string, pad: nat)
    requires Bytes(x)
    ensures Decoded(Encode(x), pad) == Expected(x, pad)
  {
    DecodedIsDecodedCodes(Encode(x), Codes(x), pad);
    CodesDecode(x, pad);
  }

  /** With at most one pad character nothing is lost: at most a NUL is added. */
  lemma {:induction false} ExpectedWhole(x: string, pad: nat)
    requires pad < 2
    ensures |Expected(x, pad)| == (|x| + 2) / 3 * 3
    ensures x <= Expected(x, pad)
    ensures forall i :: |x| <= i < |Expected(x, pad)| ==> Expected(x, pad)[i] == NUL
  {
    if |x| > 3 {
      var t := Expected(x[3..], pad);
      ExpectedWhole(x[3..], pad);
      assert Expected(x, pad) == [x[0], x[1], x[2]] + t;
      assert x == [x[0], x[1], x[2]] + x[3..];
    }
  }

  /** With two pad characters every group loses its third byte. */
  lemma {:induction false} ExpectedShort(x: string)
    ensures |Expected(x, 2)| == (|x| + 2) / 3 * 2
  {
    if |x| > 3 { ExpectedShort(x[3..]); }
  }

  lemma {:induction false} CTextCut(x: string, s: string)
    requires NUL !in x && x <= s && (|x| < |s| ==> s[|x|] == NUL)
    ensures CText(s) == x
  {
    if x != "" {
      CTextCut(x[1..], s[1..]);
      assert x == [x[0]] + x[1..];
    }
  }

  lemma ExpectedRecovers(x: string, pad: nat)
    requires NUL !in x && x != "" && pad == (3 - |x| % 3) % 3
    ensures CText(Expected(x, pad)) == x <==> |x| % 3 != 1 || |x| == 1
  {
    if |x| % 3 != 1 {
      ExpectedWhole(x, pad);
      CTextCut(x, Expected(x, pad));
    } else if |x| == 1 {
      assert Expected(x, pad) == [x[0], NUL];
      CTextCut(x, [x[0], NUL]);
    } else {
      ExpectedShort(x);
    }
  }

  lemma ExpectedLength(x: string, pad: nat)
    requires pad == (3 - |x| % 3) % 3
    ensures |Expected(x, pad)| <= |x| + 2 && (pad == 0 ==> |Expected(x, pad)| == |x|)
    ensures pad == 1 ==> |Expected(x, pad)| == |x| + 1
  {
    if pad < 2 { ExpectedWhole(x, pad); } else { ExpectedShort(x); }
  }

  /** The credentials the decoder recovers from an encoded text, as `strcmp` reads them. */
  function Recovered(x: string): string
    requires Bytes(x)
  {
    CText(Decoded(Encode(x), Pad(Encode(x))))
  }

  /**
   Decoding gives the credentials back exactly when their length is not 1 modulo 3, or is
   1: with two pad characters the third byte of every earlier group is dropped too.
   */
  lemma {:induction false} DecoderRecovers(x: string)
    requires Bytes(x) && NUL !in x && x != ""
    ensures Recovered(x) == x <==> |x| % 3 != 1 || |x| == 1
  {
    EncodePad(x);
    DecodeEncoded(x, Pad(Encode(x)));
    ExpectedRecovers(x, Pad(Encode(x)));
  }

  /** The shortest credentials that are not recovered. */
  lemma FourBytesAreNotRecovered()
    ensures Recovered("a:bc") != "a:bc"
  {
    DecoderRecovers("a:bc");
  }

  // ---- the check ----

  const MAX_CREDS_LEN: nat := 256

  /** The text after "Basic " and any further spaces. */
  function Token(header: string): string
    requires |header| >= 6
  {
    SkipBlanks(header[6..])
  }

  function SkipBlanks(s: string): string {
    if s != "" && s[0] == ' ' then SkipBlanks(s[1..]) else s
  }

  /** The token with its NUL, where the last group takes that in. */
  function Terminated(token: string): string {
    if |token| % 4 == 3 then token + [NUL] else token
  }

  /** The decoder writes a NUL into its buffer, out of the text or behind it. */
  predicate Ended(d: string) {
    |d| < MAX_CREDS_LEN || NUL in d[..MAX_CREDS_LEN]
  }

  /**
   A token the decoder reads within bounds and leaves a string: ASCII, in groups that are
   whole with or without the NUL, and whose decoded text ends within the buffer.
   */
  predicate Sound(token: string) {
    && token != "" && (|token| % 4 == 0 || |token| % 4 == 3)
    && (forall i :: 0 <= i < |token| ==> token[i] as int < 128)
    && Ended(Decoded(Terminated(token), Pad(token)))
  }

  /**
   Whether a request is let in: with a sound token exactly when the decoded text is a
   listed credential.  On other tokens `check_basic_auth` reads memory that nothing
   determines, and `stray` stands for its answer.
   */
  predicate Admits(enabled: bool, header: Option<string>, users: seq<string>, stray: bool) {
    !enabled ||
    (header.Some? && StartsAt(header.value, "Basic ", 0) &&
     var token := Token(header.value);
     if Sound(token) then CText(Decoded(Terminated(token), Pad(token))) in users else stray)
  }

  /** Blanks between the scheme and the token are skipped, however many. */
  lemma {:induction false} BlanksAreSkipped(blanks: string, token: string)
    requires (forall i :: 0 <= i < |blanks| ==> blanks[i] == ' ') && (token == "" || token[0] != ' ')
    ensures SkipBlanks(blanks + token) == token
  {
    if blanks == "" {
      assert blanks + token == token;
    } else {
      assert (blanks + token)[1..] == blanks[1..] + token;
      BlanksAreSkipped(blanks[1..], token);
    }
  }

  lemma TokenAfterBlanks(blanks: string, token: string)
    requires (forall i :: 0 <= i < |blanks| ==> blanks[i] == ' ') && (token == "" || token[0] != ' ')
    ensures Token("Basic " + (blanks + token)) == token
  {
    var h := "Basic " + (blanks + token);
    assert h[6..] == blanks + token;
    BlanksAreSkipped(blanks, token);
  }

  /** The decoder also reads the URL-safe and the MIME variants of the last two letters, and all else as zero. */
  lemma OtherLetters(c: char)
    ensures Sextet('-') == Sextet('.') == Sextet('+') == 62 && Sextet(',') == Sextet('/') == 63
    ensures (forall v :: 0 <= v < 64 ==> Symbol(v) != c) && c !in "-.," ==> Sextet(c) == 0
  {
    if Sextet(c) != 0 && c !in "-.," { assert Symbol(Sextet(c)) == c; }
  }

  /** `check_basic_auth` */
  method Check(enabled: bool, header: Option<string>, users: seq<string>, stray: bool) returns (ok: bool)
    ensures ok == Admits(enabled, header, users, stray)
  {
    if !enabled { return true; }
    if header == None { return false; }
    if !StartsAt(header.value, "Basic ", 0) { return false; }
    var b64 := Token(header.value);
    if !Sound(b64) { return stray; }
    var decoded := new char[MAX_CREDS_LEN];
    var j := Decode(b64, [NUL, NUL], decoded, MAX_CREDS_LEN);
    ghost var d := Decoded(Terminated(b64), Pad(b64));
    assert Padded(b64, [NUL, NUL]) == Terminated(b64);
    assert decoded[..j] == d[..j];
    EndedText(d, decoded[..], j);
    ok := Scan(CText(decoded[..]), users);
  }

  /** The search of the user list (src/auth.c:182-186). */
  method Scan(text: string, users: seq<string>) returns (found: bool)
    ensures found <==> text in users
  {
    for i := 0 to |users|
      invariant text !in users[..i]
    {
      if text == users[i] { return true; }
    }
    assert users[..|users|] == users;
    return false;
  }

  /** A NUL among the first `n` characters ends the text there. */
  lemma {:induction false} CTextWithin(d: string, n: nat)
    requires n <= |d| && NUL in d[..n]
    ensures CText(d[..n]) == CText(d)
    decreases n
  {
    if d[0] != NUL {
      assert d[..n][1..] == d[1..][..n - 1];
      assert d[..n] == [d[0]] + d[1..][..n - 1];
      CTextWithin(d[1..], n - 1);
    }
  }

  /** What `strcmp` reads in the buffer is what the decoded text says. */
  lemma EndedText(d: string, buf: string, j: nat)
    requires |buf| == MAX_CREDS_LEN && Ended(d) && j == Min(|d|, MAX_CREDS_LEN) && buf[..j] == d[..j]
    requires j < MAX_CREDS_LEN ==> buf[j] == NUL
    ensures CText(buf) == CText(d)
  {
    if j < MAX_CREDS_LEN {
      assert d[..j] == d;
      CTextPrefix(d, buf);
    } else {
      assert buf[..j] == buf;
      CTextWithin(d, j);
    }
  }

  /** A NUL after `d` ends whatever text `d` starts. */
  lemma {:induction false} CTextPrefix(d: string, s: string)
    requires d <= s && |d| < |s| && s[|d|] == NUL
    ensures CText(s) == CText(d)
  {
    if d != "" && d[0] != NUL { CTextPrefix(d[1..], s[1..]); }
  }

  /** Credentials of at most 255 bytes decode within the buffer. */
  lemma EncodedCredentialsFit(x: string)
    requires Bytes(x) && x != "" && |x| <= 255
    ensures |Decoded(Encode(x), Pad(Encode(x)))| <= 255
  {
    EncodePad(x);
    DecodeEncoded(x, Pad(Encode(x)));
    FitsOf(Encode(x), x);
  }

  lemma FitsOf(e: string, x: string)
    requires |x| < MAX_CREDS_LEN && Pad(e) == (3 - |x| % 3) % 3 && Decoded(e, Pad(e)) == Expected(x, Pad(e))
    ensures |Decoded(e, Pad(e))| < MAX_CREDS_LEN
  {
    ExpectedLength(x, Pad(e));
    LengthFits(|x|, Pad(e), |Expected(x, Pad(e))|);
  }

  lemma LengthFits(n: nat, pad: nat, m: nat)
    requires n < MAX_CREDS_LEN && pad == (3 - n % 3) % 3
    requires m <= n + 2 && (pad == 0 ==> m == n) && (pad == 1 ==> m == n + 1)
    ensures m < MAX_CREDS_LEN
  {
  }

  /**
   Presenting listed credentials of at most 255 bytes admits their user exactly when the
   decoder recovers them, or when what it recovers is another listed entry.
   */
  method Present(x: string, users: seq<string>, stray: bool) returns (ok: bool)
    requires Bytes(x) && NUL !in x && x != "" && |x| <= 255
    ensures ok <==> Recovered(x) in users
    ensures (|x| % 3 != 1 || |x| == 1) ==> (ok <==> x in users)
  {
    var header := "Basic " + Encode(x);
    TokenOf(x);
    EncodedCredentialsFit(x);
    DecoderRecovers(x);
    ok := Check(true, Some(header), users, stray);
  }

  lemma TokenOf(x: string)
    requires Bytes(x) && x != ""
    ensures var h := "Basic " + Encode(x); Token(h) == Encode(x) && StartsAt(h, "Basic ", 0) && |Token(h)| % 4 == 0
    ensures forall i :: 0 <= i < |Encode(x)| ==> Encode(x)[i] as int < 128
  {
    CodesAreWhole(x);
    var e := Encode(x);
    assert ("Basic " + e)[6..] == e;
    assert e[0] == Symbol(Codes(x)[0]);
  }
}
