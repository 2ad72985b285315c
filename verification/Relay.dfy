/**
 Relaying a response from the end server while building the copy to cache, and replaying
 a cached one (src/Main.c:173-292, 586-612).
 */
module Relay {
  import opened CStrings

  /** What one `recv` returned, and what the `send` of it to the client returns: a count, or -1. */
  datatype Chunk = Chunk(bytes: string, took: int)

  predicate WellSized(cs: seq<Chunk>, max: nat) {
    forall i :: 0 <= i < |cs| ==> 0 < |cs[i].bytes| <= max && -1 <= cs[i].took <= |cs[i].bytes|
  }

  predicate Accepted(c: Chunk) {
    c.took >= 0
  }

  /** The bytes the client's socket took. */
  function TakenBytes(c: Chunk): string {
    if 0 <= c.took <= |c.bytes| then c.bytes[..c.took] else ""
  }

  predicate TookWhole(c: Chunk) {
    c.took == |c.bytes|
  }

  /** The first `n` chunks, concatenated. */
  function Joined(cs: seq<Chunk>, n: nat): string
    requires n <= |cs|
  {
    if n == 0 then "" else Joined(cs, n - 1) + cs[n - 1].bytes
  }

  /** What the client's socket took of them. */
  function JoinedTaken(cs: seq<Chunk>, n: nat): string
    requires n <= |cs|
  {
    if n == 0 then "" else JoinedTaken(cs, n - 1) + TakenBytes(cs[n - 1])
  }

  predicate HasHeaderEnd(s: string) {
    Find(s, CRLF + CRLF, 0) >= 0 || Find(s, "\n\n", 0) >= 0
  }

  /**
   The content-type verdict (`parse_content_type_header` and
   `filter_is_content_type_blocked`) on what was received so far.  The list may be reloaded
   at any time: the first argument is the number of the check.
   */
  type Verdicts = (nat, string) -> bool

  /** After chunk `k` the header is complete and its content type is refused. */
  predicate RefusedAt(cs: seq<Chunk>, k: nat, refused: Verdicts)
    requires k < |cs|
  {
    HasHeaderEnd(Joined(cs, k + 1)) && refused(k, Joined(cs, k + 1))
  }

  predicate StopsAt(cs: seq<Chunk>, k: nat, refused: Verdicts)
    requires k < |cs|
  {
    RefusedAt(cs, k, refused) || !Accepted(cs[k])
  }

  /** How many chunks the loop takes: up to and including the first at which it stops. */
  function Taken(cs: seq<Chunk>, refused: Verdicts, from: nat): (n: nat)
    requires from <= |cs|
    ensures from <= n <= |cs| && (from < |cs| ==> from < n)
    ensures forall k {:trigger StopsAt(cs, k, refused)} :: from <= k < n - 1 ==> !StopsAt(cs, k, refused)
    ensures from < n < |cs| ==> StopsAt(cs, n - 1, refused)
    decreases |cs| - from
  {
    if from == |cs| then from
    else if StopsAt(cs, from, refused) then from + 1
    else Taken(cs, refused, from + 1)
  }

  /** What the buffer holds after the loop. */
  function Stored(cs: seq<Chunk>, refused: Verdicts): string {
    Joined(cs, Taken(cs, refused, 0))
  }

  /** The loop ended at a refused content type. */
  predicate Cut(cs: seq<Chunk>, refused: Verdicts) {
    var n := Taken(cs, refused, 0);
    n > 0 && RefusedAt(cs, n - 1, refused)
  }

  /** The test after the loop refuses the response. */
  predicate RefusedLate(cs: seq<Chunk>, refused: Verdicts) {
    refused(Taken(cs, refused, 0), Stored(cs, refused))
  }

  /** How many chunks are passed to `send`. */
  function Offered(cs: seq<Chunk>, refused: Verdicts): (n: nat)
    ensures n <= |cs|
  {
    if Cut(cs, refused) then Taken(cs, refused, 0) - 1 else Taken(cs, refused, 0)
  }

  /** The response bytes the client's socket took. */
  function Delivered(cs: seq<Chunk>, refused: Verdicts): string {
    JoinedTaken(cs, Offered(cs, refused))
  }

  /** How often the refusal page is sent: the loop's own refusal sends it twice (src/Main.c:255-256). */
  function Pages(cs: seq<Chunk>, refused: Verdicts): nat {
    if Cut(cs, refused) then 2 else if RefusedLate(cs, refused) then 1 else 0
  }

  /** What is handed to `AddCache`, if anything. */
  function Handed(cs: seq<Chunk>, refused: Verdicts): Option<string> {
    if Pages(cs, refused) > 0 then None else Some(Stored(cs, refused))
  }

  /** The `int` its length becomes in that call. */
  function Narrowed(data: string): (n: int)
    ensures n <= |data|
  {
    ToInt32(|data|)
  }

  /** The bytes an entry made of `data` holds; a negative length makes none. */
  function CachedBytes(data: string): Option<string> {
    if Narrowed(data) >= 0 then Some(data[..Narrowed(data)]) else None
  }

  /** The bytes that are cached, if the cache takes them. */
  function Cached(cs: seq<Chunk>, refused: Verdicts): Option<string> {
    var d := Handed(cs, refused);
    if d.Some? then CachedBytes(d.value) else None
  }

  // ---- the growing buffer ----

  /** Room for `n` more bytes and a NUL: doubling once is always enough (src/Main.c:189-199). */
  method Grow(buf: array<char>, len: nat, n: nat) returns (grown: array<char>)
    requires len < buf.Length && n <= buf.Length
    ensures len + n < grown.Length && grown[..len] == buf[..len]
    ensures grown == buf || (fresh(grown) && grown.Length == 2 * buf.Length)
  {
    grown := buf;
    if len + n + 1 > buf.Length {
      grown := new char[2 * buf.Length];
      forall i | 0 <= i < len { grown[i] := buf[i]; }
    }
  }

  /** `memcpy(buf + len, bytes, n)` */
  method Copy(buf: array<char>, len: nat, bytes: string)
    requires len + |bytes| <= buf.Length
    modifies buf
    ensures buf[..len + |bytes|] == old(buf[..len]) + bytes
  {
    forall i | 0 <= i < |bytes| { buf[len + i] := bytes[i]; }
  }

  method Append(buf: array<char>, len: nat, bytes: string) returns (grown: array<char>, end: nat)
    requires len < buf.Length && |bytes| <= buf.Length
    modifies buf
    ensures end == len + |bytes| < grown.Length && grown[..end] == old(buf[..len]) + bytes
    ensures grown.Length >= buf.Length && (grown == buf || fresh(grown))
  {
    grown := Grow(buf, len, |bytes|);
    Copy(grown, len, bytes);
    end := len + |bytes|;
  }

  /** The receive loop: the buffer holds all taken chunks and always has room for a NUL. */
  method Receive(cs: seq<Chunk>, max: nat, refused: Verdicts)
    returns (buf: array<char>, len: nat, delivered: string, cut: bool, n: nat)
    requires max >= 1 && WellSized(cs, max)
    ensures len < buf.Length && buf[..len] == Stored(cs, refused) && fresh(buf) && n == Taken(cs, refused, 0)
    ensures delivered == Delivered(cs, refused) && cut == Cut(cs, refused)
  {
    buf := new char[max];
    len, delivered, cut, n := 0, "", false, |cs|;
    for k := 0 to |cs|
      invariant fresh(buf) && max <= buf.Length && len < buf.Length && buf[..len] == Joined(cs, k)
      invariant delivered == JoinedTaken(cs, k) && !cut && n == |cs| && (k > 0 ==> !RefusedAt(cs, k - 1, refused))
      invariant Taken(cs, refused, 0) == Taken(cs, refused, k)
    {
      buf, len := Append(buf, len, cs[k].bytes);
      if HasHeaderEnd(buf[..len]) && refused(k, buf[..len]) {
        return buf, len, delivered, true, k + 1;
      }
      delivered := delivered + TakenBytes(cs[k]);
      if !Accepted(cs[k]) { return buf, len, delivered, false, k + 1; }
    }
  }

  /**
   `HandleRequest` from the first `recv` on: the response bytes the client takes, how often
   the refusal page is sent, and what is handed to the cache.
   */
  method Handle(cs: seq<Chunk>, max: nat, refused: Verdicts)
    returns (delivered: string, pages: nat, data: Option<string>)
    requires max >= 1 && WellSized(cs, max)
    ensures delivered == Delivered(cs, refused) && pages == Pages(cs, refused) && data == Handed(cs, refused)
  {
    var buf, len, taken, cut, n := Receive(cs, max, refused);
    var response := buf[..len];
    // the reallocation at src/Main.c:236-241 is never needed
    buf[len] := NUL;
    if cut { return taken, 2, None; }
    if refused(n, response) { return taken, 1, None; }
    return taken, 0, Some(response);
  }

  // ---- what is cached, what arrived, what was delivered ----

  lemma {:induction false} JoinedGrows(cs: seq<Chunk>, m: nat, n: nat)
    requires m <= n <= |cs| && forall i :: 0 <= i < |cs| ==> 0 < |cs[i].bytes|
    ensures |Joined(cs, m)| <= |Joined(cs, n)|
    ensures m < n ==> |Joined(cs, m)| < |Joined(cs, n)|
  {
    if m < n { JoinedGrows(cs, m, n - 1); }
  }

  lemma NarrowedIsLength(data: string)
    ensures Narrowed(data) == |data| <==> |data| < 0x8000_0000
  {
  }

  /** The cached bytes are all that was stored, if and only if that is shorter than 2 GiB. */
  lemma CachedIsStored(cs: seq<Chunk>, refused: Verdicts)
    requires Cached(cs, refused).Some?
    ensures Cached(cs, refused).value == Stored(cs, refused) <==> |Stored(cs, refused)| < 0x8000_0000
  {
    var d := Stored(cs, refused);
    NarrowedIsLength(d);
    assert |d[..Narrowed(d)]| == Narrowed(d);
    if Narrowed(d) == |d| { assert d[..|d|] == d; }
  }

  /** A response of 4 GiB and ten bytes is cached as its first ten bytes. */
  lemma LongResponseIsCut(data: string)
    requires |data| == 0x1_0000_000A
    ensures CachedBytes(data) == Some(data[..10])
  {
  }

  lemma {:induction false} TakenIsJoined(cs: seq<Chunk>, n: nat, max: nat)
    requires WellSized(cs, max) && n <= |cs|
    ensures |JoinedTaken(cs, n)| <= |Joined(cs, n)|
    ensures |JoinedTaken(cs, n)| == |Joined(cs, n)| <==> forall k :: 0 <= k < n ==> TookWhole(cs[k])
    ensures (forall k :: 0 <= k < n ==> TookWhole(cs[k])) ==> JoinedTaken(cs, n) == Joined(cs, n)
  {
    if n > 0 {
      TakenIsJoined(cs, n - 1, max);
      if TookWhole(cs[n - 1]) { assert cs[n - 1].bytes[..|cs[n - 1].bytes|] == cs[n - 1].bytes; }
    }
  }

  /** Every `send` of the loop took its whole chunk. */
  ghost predicate AllTook(cs: seq<Chunk>, refused: Verdicts) {
    forall k :: 0 <= k < Taken(cs, refused, 0) ==> TookWhole(cs[k])
  }

  /**
   A response shorter than 2 GiB that is handed to the cache is cached byte for byte as its
   client received it, if and only if every `send` took its whole chunk: the code caches a
   chunk before it sends it and does not look at a partial count.
   */
  lemma {:induction false} CachedIsDelivered(cs: seq<Chunk>, refused: Verdicts, max: nat)
    requires WellSized(cs, max) && Handed(cs, refused).Some? && |Stored(cs, refused)| < 0x8000_0000
    ensures Cached(cs, refused) == Some(Delivered(cs, refused)) <==> AllTook(cs, refused)
    ensures Cached(cs, refused) == Some(Stored(cs, refused))
  {
    var d := Stored(cs, refused);
    NarrowedIsLength(d);
    assert d[..|d|] == d;
    TakenIsJoined(cs, Taken(cs, refused, 0), max);
  }

  /** A response whose only `send` fails is cached though the client received nothing. */
  lemma FailedSendIsCached()
    ensures var cs, refused := [Chunk("x", -1)], (k: nat, s: string) => false;
            Cached(cs, refused) == Some("x") && Delivered(cs, refused) == ""
  {
    var cs, refused := [Chunk("x", -1)], (k: nat, s: string) => false;
    assert Joined(cs, 0) == "";
    assert Joined(cs, 1) == "x";
    assert JoinedTaken(cs, 0) == "";
    assert JoinedTaken(cs, 1) == "";
    assert Taken(cs, refused, 0) == 1;
    assert "x"[..1] == "x";
  }

  /**
   How the receive loop would end after the last chunk: the end server closed the
   connection, or `recv` failed and the rest of the response is lost.
   */
  datatype Ending = ServerClosed | RecvError(lost: string)

  function Lost(end: Ending): string {
    if end.ServerClosed? then "" else end.lost
  }

  /** All the end server sent. */
  function Response(cs: seq<Chunk>, end: Ending): string {
    Joined(cs, |cs|) + Lost(end)
  }

  /**
   What is cached is the whole response exactly when it is shorter than 2 GiB, no `send` to
   the client failed before the last chunk and no part was lost to a failing `recv`: the
   code stops at either and caches what it has.
   */
  lemma {:induction false} CachedIsWhole(cs: seq<Chunk>, end: Ending, refused: Verdicts, max: nat)
    requires WellSized(cs, max) && Cached(cs, refused).Some?
    ensures Cached(cs, refused).value == Response(cs, end) <==>
            && |Response(cs, end)| < 0x8000_0000
            && (forall k :: 0 <= k < |cs| - 1 ==> Accepted(cs[k]))
            && Lost(end) == ""
  {
    var n, d := Taken(cs, refused, 0), Stored(cs, refused);
    JoinedGrows(cs, n, |cs|);
    CachedIsStored(cs, refused);
    assert |Cached(cs, refused).value| <= |d| <= |Joined(cs, |cs|)|;
    TakesAll(cs, refused);
    if Lost(end) == "" { assert Response(cs, end) == Joined(cs, |cs|); }
  }

  /** A `recv` that fails after one chunk leaves that chunk in the cache, one that fails at once an empty response. */
  lemma RecvErrorIsCached()
    ensures var refused := (k: nat, s: string) => false;
            && Cached([Chunk("x", 1)], refused) == Some("x") && Response([Chunk("x", 1)], RecvError("y")) == "xy"
            && Cached([], refused) == Some("") && Response([], RecvError("y")) == "y"
  {
    var cs, refused := [Chunk("x", 1)], (k: nat, s: string) => false;
    assert Joined(cs, 0) == "";
    assert Joined(cs, 1) == "x";
    assert Taken(cs, refused, 1) == 1;
    assert Taken(cs, refused, 0) == 1;
    assert "x"[..1] == "x";
    assert Taken([], refused, 0) == 0;
    assert Joined([], 0) == "";
  }

  /** Unless it is refused, the loop takes every chunk exactly when no earlier `send` fails. */
  lemma TakesAll(cs: seq<Chunk>, refused: Verdicts)
    requires !Cut(cs, refused)
    ensures Taken(cs, refused, 0) == |cs| <==> forall k :: 0 <= k < |cs| - 1 ==> Accepted(cs[k])
  {
    var n := Taken(cs, refused, 0);
    if n < |cs| {
      assert StopsAt(cs, n - 1, refused) && !Accepted(cs[n - 1]);
    } else {
      forall k | 0 <= k < |cs| - 1
        ensures Accepted(cs[k])
      {
        assert !StopsAt(cs, k, refused);
      }
    }
  }

  /**
   Of a refused response no chunk is passed to the client exactly when the first chunk
   already shows the refused type in a complete header (or there was no chunk at all).
   */
  lemma {:induction false} RefusedIsWithheld(cs: seq<Chunk>, refused: Verdicts)
    requires Pages(cs, refused) > 0
    ensures Offered(cs, refused) == 0 <==> cs == [] || RefusedAt(cs, 0, refused)
  {
    if cs != [] {
      var n := Taken(cs, refused, 0);
      assert n > 1 ==> !StopsAt(cs, 0, refused);
    }
  }

  lemma JoinedTwo(cs: seq<Chunk>)
    requires |cs| == 2
    ensures Joined(cs, 1) == cs[0].bytes && Joined(cs, 2) == cs[0].bytes + cs[1].bytes
    ensures JoinedTaken(cs, 1) == TakenBytes(cs[0])
  {
    assert Joined(cs, 0) == "" && JoinedTaken(cs, 0) == "";
    assert Joined(cs, 1) == cs[0].bytes;
    assert JoinedTaken(cs, 1) == TakenBytes(cs[0]);
  }

  /** Refused at the second chunk only: the first has gone out. */
  lemma RefusedSecond(cs: seq<Chunk>, refused: Verdicts)
    requires |cs| == 2 && Accepted(cs[0]) && !RefusedAt(cs, 0, refused) && RefusedAt(cs, 1, refused)
    ensures Pages(cs, refused) == 2 && Delivered(cs, refused) == TakenBytes(cs[0])
  {
    JoinedTwo(cs);
    assert !StopsAt(cs, 0, refused) && StopsAt(cs, 1, refused);
    assert Taken(cs, refused, 0) == Taken(cs, refused, 1) == 2;
  }

  lemma WholeHeaderEnds(s: string)
    requires s == "Content-Type: a\r\n" + "\r\n"
    ensures HasHeaderEnd(s) && StartsAt(s, "Content-Type: a", 0)
  {
    assert forall i {:trigger (CRLF + CRLF)[i]} :: 0 <= i < 4 ==> s[15 + i] == (CRLF + CRLF)[i];
    FindMisses(s, CRLF + CRLF, 0, 15);
  }

  /** A header split over two chunks: its first chunk reaches the client before the refusal. */
  lemma SplitHeaderIsRelayed(refused: Verdicts)
    requires forall k, s :: refused(k, s) == StartsAt(s, "Content-Type: a", 0)
    ensures var cs := [Chunk("Content-Type: a\r\n", 17), Chunk("\r\n", 2)];
            Pages(cs, refused) == 2 && Delivered(cs, refused) == "Content-Type: a\r\n"
  {
    var cs := [Chunk("Content-Type: a\r\n", 17), Chunk("\r\n", 2)];
    JoinedTwo(cs);
    NoHeaderEnd(cs[0].bytes);
    WholeHeaderEnds(cs[0].bytes + cs[1].bytes);
    RefusedSecond(cs, refused);
    assert cs[0].bytes[..17] == cs[0].bytes;
  }

  lemma NoHeaderEnd(s: string)
    requires s == "Content-Type: a\r\n"
    ensures !HasHeaderEnd(s)
  {
    var four, two := CRLF + CRLF, "\n\n";
    assert four[0] == CR && four[2] == CR;
    assert two[0] == '\n' && two[1] == '\n';
    assert forall k :: 0 <= k < |s| && s[k] == '\n' ==> k == |s| - 1;
  }

  /** The header ends at the first blank line, of either kind, wherever it stands. */
  lemma HeaderEndIsBlankLine(s: string)
    ensures HasHeaderEnd(s) <==>
            exists k :: 0 <= k <= |s| && (StartsAt(s, CRLF + CRLF, k) || StartsAt(s, "\n\n", k))
  {
    var four, two := CRLF + CRLF, "\n\n";
    forall k: nat | StartsAt(s, four, k)
      ensures Find(s, four, 0) >= 0
    {
      FindMisses(s, four, 0, k);
    }
    forall k: nat | StartsAt(s, two, k)
      ensures Find(s, two, 0) >= 0
    {
      FindMisses(s, two, 0, k);
    }
    if Find(s, four, 0) >= 0 { assert StartsAt(s, four, Find(s, four, 0)); }
    if Find(s, two, 0) >= 0 { assert StartsAt(s, two, Find(s, two, 0)); }
  }

  lemma {:induction false} TakesOn(cs: seq<Chunk>, refused: Verdicts, from: nat)
    requires from <= |cs| && forall k {:trigger StopsAt(cs, k, refused)} :: from <= k < |cs| ==> !StopsAt(cs, k, refused)
    ensures Taken(cs, refused, from) == |cs|
    decreases |cs| - from
  {
    if from < |cs| { TakesOn(cs, refused, from + 1); }
  }

  /** The loop that nothing stops, neither a refusal nor a failing send, takes every chunk. */
  lemma GoesThrough(cs: seq<Chunk>, refused: Verdicts)
    requires forall k {:trigger StopsAt(cs, k, refused)} :: 0 <= k < |cs| ==> !StopsAt(cs, k, refused)
    ensures Taken(cs, refused, 0) == |cs| && !Cut(cs, refused)
  {
    TakesOn(cs, refused, 0);
    if cs != [] { NotRefused(cs, |cs| - 1, refused); }
  }

  lemma NotRefused(cs: seq<Chunk>, k: nat, refused: Verdicts)
    requires k < |cs| && !StopsAt(cs, k, refused)
    ensures !RefusedAt(cs, k, refused)
  {
  }

  /** A response refused by the test after the loop: all has gone out, and the page follows once. */
  lemma RefusedLateIsRelayed(cs: seq<Chunk>, refused: Verdicts)
    requires (forall k {:trigger StopsAt(cs, k, refused)} :: 0 <= k < |cs| ==> !StopsAt(cs, k, refused)) && refused(|cs|, Joined(cs, |cs|))
    ensures Pages(cs, refused) == 1 && Handed(cs, refused) == None && Delivered(cs, refused) == JoinedTaken(cs, |cs|)
  {
    GoesThrough(cs, refused);
  }

  /** A response that nothing refuses and every send accepts is handed on whole. */
  lemma AcceptedIsHanded(cs: seq<Chunk>, refused: Verdicts)
    requires (forall k {:trigger StopsAt(cs, k, refused)} :: 0 <= k < |cs| ==> !StopsAt(cs, k, refused)) && !refused(|cs|, Joined(cs, |cs|))
    ensures Pages(cs, refused) == 0 && Handed(cs, refused) == Some(Joined(cs, |cs|))
  {
    GoesThrough(cs, refused);
  }

  // ---- replaying a hit ----

  /** What `send` of `n` bytes returns when `c` is asked of it. */
  function Clamped(c: int, n: nat): (r: int)
    ensures -1 <= r <= n
  {
    if c < 0 then -1 else if c > n then n else c
  }

  /** The bytes of one buffer from `pos` on. */
  function Fill(data: string, max: nat, pos: nat): (m: nat)
    requires pos < |data| && max >= 1
    ensures 0 < m <= max && pos + m <= |data| && (pos + m < |data| ==> m == max)
  {
    if |data| - pos < max then |data| - pos else max
  }

  /** The buffers of a replay from `pos` on, send number `i` first; `counts` is what the sends return. */
  function ReplayFrom(data: string, max: nat, counts: nat -> int, pos: nat, i: nat): seq<Chunk>
    requires max >= 1
    decreases |data| - pos
  {
    if pos >= |data| then []
    else
      var m := Fill(data, max, pos);
      [Chunk(data[pos..pos + m], Clamped(counts(i), m))] + ReplayFrom(data, max, counts, pos + m, i + 1)
  }

  /** What the client takes of a replay. */
  function Replayed(data: string, max: nat, counts: nat -> int): string
    requires max >= 1
  {
    var r := ReplayFrom(data, max, counts, 0, 0);
    JoinedTaken(r, |r|)
  }

  lemma {:induction false} JoinedCons(c: Chunk, cs: seq<Chunk>, n: nat)
    requires n <= |cs|
    ensures Joined([c] + cs, n + 1) == c.bytes + Joined(cs, n)
  {
    if n == 0 {
      assert Joined([c] + cs, 0) == "";
    } else {
      var all := [c] + cs;
      JoinedCons(c, cs, n - 1);
      assert Joined(all, n + 1) == Joined(all, n) + all[n].bytes;
      assert all[n] == cs[n - 1];
      assert (c.bytes + Joined(cs, n - 1)) + cs[n - 1].bytes == c.bytes + (Joined(cs, n - 1) + cs[n - 1].bytes);
    }
  }

  /** The buffers are the stored bytes in order ... */
  lemma {:induction false} ReplayIsStored(data: string, max: nat, counts: nat -> int, pos: nat, i: nat)
    requires max >= 1 && pos <= |data|
    ensures var r := ReplayFrom(data, max, counts, pos, i); Joined(r, |r|) == data[pos..]
    decreases |data| - pos
  {
    if pos < |data| {
      var m := Fill(data, max, pos);
      var c, t := Chunk(data[pos..pos + m], Clamped(counts(i), m)), ReplayFrom(data, max, counts, pos + m, i + 1);
      ReplayIsStored(data, max, counts, pos + m, i + 1);
      JoinedCons(c, t, |t|);
      assert data[pos..] == data[pos..pos + m] + data[pos + m..];
    }
  }

  /** ... and full but for the last. */
  lemma {:induction false} ReplayIsFull(data: string, max: nat, counts: nat -> int, pos: nat, i: nat)
    requires max >= 1 && pos <= |data|
    ensures var r := ReplayFrom(data, max, counts, pos, i);
            WellSized(r, max) && forall k :: 0 <= k < |r| - 1 ==> |r[k].bytes| == max
    decreases |data| - pos
  {
    if pos < |data| {
      var m := Fill(data, max, pos);
      var t := ReplayFrom(data, max, counts, pos + m, i + 1);
      ReplayIsFull(data, max, counts, pos + m, i + 1);
      assert t != [] ==> m == max;
    }
  }

  /** The client takes exactly the stored bytes if and only if every `send` takes its whole buffer. */
  lemma {:induction false} ReplayedIsStored(data: string, max: nat, counts: nat -> int)
    requires max >= 1
    ensures var r := ReplayFrom(data, max, counts, 0, 0);
            Replayed(data, max, counts) == data <==> forall k :: 0 <= k < |r| ==> TookWhole(r[k])
  {
    var r := ReplayFrom(data, max, counts, 0, 0);
    ReplayIsStored(data, max, counts, 0, 0);
    ReplayIsFull(data, max, counts, 0, 0);
    assert data[0..] == data;
    TakenIsJoined(r, |r|, max);
  }

  /** A send that takes nothing: the rest follows without it. */
  lemma PartialSendIsDropped(counts: nat -> int)
    requires counts(0) == 0 && counts(1) == 1
    ensures Replayed("ab", 1, counts) == "b"
  {
    var data := "ab";
    assert ReplayFrom(data, 1, counts, 2, 2) == [];
    assert data[1..2] == "b" && data[0..1] == "a";
    assert ReplayFrom(data, 1, counts, 1, 1) == [Chunk("b", 1)];
    var r := ReplayFrom(data, 1, counts, 0, 0);
    assert r == [Chunk("a", 0), Chunk("b", 1)];
    assert JoinedTaken(r, 0) == "";
    assert JoinedTaken(r, 1) == "";
    assert "b"[..1] == "b";
    assert JoinedTaken(r, 2) == "b";
  }

  /** Fills the send buffer from position `pos` (src/Main.c:594-600). */
  method FillChunk(data: string, pos: nat, response: array<char>) returns (size: nat)
    requires pos < |data| && response.Length > 0
    modifies response
    ensures size == Fill(data, response.Length, pos)
    ensures response[..size] == data[pos..pos + size]
  {
    size := 0;
    while size < response.Length && pos + size < |data|
      invariant size <= response.Length && pos + size <= |data|
      invariant response[..size] == data[pos..pos + size]
    {
      response[size] := data[pos + size];
      size := size + 1;
    }
  }

  /** `sent` went out before position `pos`. */
  ghost predicate Ahead(data: string, max: nat, counts: nat -> int, pos: nat, sent: seq<Chunk>)
    requires max >= 1
  {
    pos <= |data| && sent + ReplayFrom(data, max, counts, pos, |sent|) == ReplayFrom(data, max, counts, 0, 0)
  }

  lemma OneAhead(data: string, max: nat, counts: nat -> int, pos: nat, sent: seq<Chunk>, c: Chunk)
    requires max >= 1 && pos < |data| && Ahead(data, max, counts, pos, sent)
    requires var m := Fill(data, max, pos); c == Chunk(data[pos..pos + m], Clamped(counts(|sent|), m))
    ensures Ahead(data, max, counts, pos + Fill(data, max, pos), sent + [c])
  {
    var rest := ReplayFrom(data, max, counts, pos + Fill(data, max, pos), |sent| + 1);
    assert sent + ([c] + rest) == (sent + [c]) + rest;
  }

  /** The replay loop; what `send` returns is not looked at. */
  method Replay(data: string, max: nat, counts: nat -> int) returns (sent: seq<Chunk>)
    requires max >= 1
    ensures sent == ReplayFrom(data, max, counts, 0, 0)
  {
    var pos: nat := 0;
    var response := new char[max];
    sent := [];
    while pos < |data|
      invariant Ahead(data, max, counts, pos, sent)
      decreases |data| - pos
    {
      var size := FillChunk(data, pos, response);
      var c := Chunk(response[..size], Clamped(counts(|sent|), size));
      OneAhead(data, max, counts, pos, sent, c);
      sent := sent + [c];
      pos := pos + size;
    }
  }
}
