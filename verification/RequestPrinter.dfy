/**
 Printing a request (src/proxy_parse.c:142-197, 300-336, 651-710): the text, its
 separately computed length, and the cursor that writes it into a buffer.
 */
module RequestPrinter {
  import opened CStrings
  import opened HeaderTable

  /** The fields of the request line; NULL pointers are `None`. */
  datatype RequestLine = RequestLine(
    verb: string, protocol: Option<string>, host: Option<string>,
    port: Option<string>, path: string, version: string)

  function HeaderLine(h: Header): string {
    h.key + ": " + h.value + CRLF
  }

  function HeaderLines(hs: seq<Header>): string {
    if hs == [] then [] else HeaderLine(hs[0]) + HeaderLines(hs[1..])
  }

  /** The header lines and the empty line that ends them. */
  function HeaderBlock(hs: seq<Header>): string {
    HeaderLines(hs) + CRLF
  }

  function PortText(port: Option<string>): string {
    if port.Some? then ":" + port.value else ""
  }

  /** `protocol://host[:port]path` */
  function Address(r: RequestLine): string
    requires r.protocol.Some? && r.host.Some?
  {
    r.protocol.value + "://" + r.host.value + PortText(r.port) + r.path
  }

  function LineText(r: RequestLine): string
    requires r.protocol.Some? && r.host.Some?
  {
    r.verb + " " + Address(r) + " " + r.version + CRLF
  }

  function RequestText(r: RequestLine, hs: seq<Header>): string
    requires r.protocol.Some? && r.host.Some?
  {
    LineText(r) + HeaderBlock(hs)
  }

  lemma {:induction false} HeaderLinesConcat(a: seq<Header>, b: seq<Header>)
    ensures HeaderLines(a + b) == HeaderLines(a) + HeaderLines(b)
  {
    if a == [] {
      assert a + b == b;
    } else {
      assert (a + b)[1..] == a[1..] + b;
      HeaderLinesConcat(a[1..], b);
    }
  }

  lemma HeaderLinesSnoc(hs: seq<Header>, h: Header)
    ensures HeaderLines(hs + [h]) == HeaderLines(hs) + HeaderLine(h)
  {
    HeaderLinesConcat(hs, [h]);
    assert [h][1..] == [];
    assert HeaderLine(h) + [] == HeaderLine(h);
  }

  /** `b` with `s` written over it from `at` on. */
  function Written(b: string, at: nat, s: string): string
    requires at + |s| <= |b|
  {
    b[..at] + s + b[at + |s|..]
  }

  lemma WrittenOn(b: string, at: nat, s: string, t: string)
    requires at + |s| + |t| <= |b|
    ensures Written(Written(b, at, s), at + |s|, t) == Written(b, at, s + t)
  {
  }

  /** `memcpy(buf + at, s, strlen(s))` */
  method Put(buf: array<char>, at: nat, s: string)
    requires at + |s| <= buf.Length
    modifies buf
    ensures buf[..] == Written(old(buf[..]), at, s)
  {
    forall i | 0 <= i < |s| { buf[at + i] := s[i]; }
  }

  /** Two copies one after the other. */
  method PutBoth(buf: array<char>, at: nat, s: string, t: string)
    requires at + |s| + |t| <= buf.Length
    modifies buf
    ensures buf[..] == Written(old(buf[..]), at, s + t)
  {
    WrittenOn(buf[..], at, s, t);
    Put(buf, at, s);
    Put(buf, at + |s|, t);
  }

  /** One header line (src/proxy_parse.c:184-190). */
  method PutLine(buf: array<char>, at: nat, h: Header) returns (current: nat)
    requires at + |HeaderLine(h)| <= buf.Length
    modifies buf
    ensures current == at + |HeaderLine(h)|
    ensures buf[..] == Written(old(buf[..]), at, HeaderLine(h))
  {
    WrittenOn(buf[..], at, h.key + ": ", h.value + CRLF);
    PutBoth(buf, at, h.key, ": ");
    PutBoth(buf, at + |h.key| + 2, h.value, CRLF);
    assert (h.key + ": ") + (h.value + CRLF) == HeaderLine(h);
    current := at + |h.key| + |h.value| + 4;
  }

  /** What the first `i` slots print. */
  ghost function Printed(t: Table, i: nat): string
    requires i <= t.used <= t.slots.Length
    reads t, t.slots
  {
    HeaderLines(Live(t.slots[..i]))
  }

  /** What one slot prints: a tombstone nothing. */
  function SlotText(x: Slot): string {
    if x.key.Some? then HeaderLine(Header(x.key.value, x.value)) else ""
  }

  lemma PrintedNext(t: Table, i: nat)
    requires i < t.used <= t.slots.Length
    ensures Printed(t, i + 1) == Printed(t, i) + SlotText(t.slots[i])
  {
    var s, x := t.slots[..i], t.slots[i];
    assert t.slots[..i + 1] == s + [x];
    LiveSnoc(s, x);
    if x.key.Some? {
      HeaderLinesSnoc(Live(s), Header(x.key.value, x.value));
    } else {
      assert Live(s) + [] == Live(s);
    }
  }

  lemma PrintedAll(t: Table, i: nat)
    requires i <= t.used <= t.slots.Length
    ensures |Printed(t, i)| <= |Printed(t, t.used)|
    decreases t.used - i
  {
    if i < t.used {
      PrintedNext(t, i);
      PrintedAll(t, i + 1);
    }
  }

  /** `ParsedHeader_headersLen` */
  method HeadersLen(t: Table) returns (len: nat)
    requires t.Valid()
    ensures len == |HeaderBlock(t.Headers())|
  {
    len := 0;
    var i := 0;
    while t.used > i
      invariant i <= t.used && len == |Printed(t, i)|
    {
      PrintedNext(t, i);
      if t.slots[i].key.Some? { len := len + (|t.slots[i].key.value| + |t.slots[i].value| + 4); }
      i := i + 1;
    }
    len := len + 2;
  }

  /** One turn of the printing loop, after `done` was printed (src/proxy_parse.c:182-191). */
  method PrintSlot(x: Slot, buf: array<char>, off: nat, at: nat, ghost b: string, ghost done: string) returns (current: nat)
    requires at == off + |done| && |b| == buf.Length && at + |SlotText(x)| <= |b|
    requires buf[..] == Written(b, off, done)
    modifies buf
    ensures current == at + |SlotText(x)|
    ensures buf[..] == Written(b, off, done + SlotText(x))
  {
    current := at;
    if x.key.Some? {
      var h := Header(x.key.value, x.value);
      WrittenOn(b, off, done, HeaderLine(h));
      current := PutLine(buf, current, h);
    } else {
      assert done + "" == done;
    }
  }

  /** The printing loop (src/proxy_parse.c:180-193). */
  method PrintLines(t: Table, buf: array<char>, off: nat) returns (current: nat)
    requires t.Valid() && off + |HeaderLines(t.Headers())| <= buf.Length
    modifies buf
    ensures current == off + |HeaderLines(t.Headers())|
    ensures buf[..] == Written(old(buf[..]), off, HeaderLines(t.Headers()))
  {
    current := off;
    var i := 0;
    ghost var b := buf[..];
    PrintedAll(t, 0);
    while t.used > i
      invariant i <= t.used && off + |Printed(t, i)| <= |b| == buf.Length
      invariant current == off + |Printed(t, i)|
      invariant buf[..] == Written(b, off, Printed(t, i))
    {
      PrintedAll(t, i + 1);
      PrintedNext(t, i);
      current := PrintSlot(t.slots[i], buf, off, current, b, Printed(t, i));
      i := i + 1;
    }
  }

  /** The header lines, the empty line and the NUL. */
  method PrintBlock(t: Table, buf: array<char>, off: nat)
    requires t.Valid() && off + |HeaderBlock(t.Headers())| < buf.Length
    modifies buf
    ensures buf[..] == Written(old(buf[..]), off, HeaderBlock(t.Headers()) + [NUL])
  {
    ghost var b, lines := buf[..], HeaderLines(t.Headers());
    assert lines + (CRLF + [NUL]) == (lines + CRLF) + [NUL];
    WrittenOn(b, off, lines, CRLF + [NUL]);
    var current := PrintLines(t, buf, off);
    PutBoth(buf, current, CRLF, [NUL]);
  }

  /**
   `ParsedHeader_printHeaders`: writes exactly the header block and one NUL after it.  The
   caller promises the byte for the NUL beyond the length it passes.
   */
  method PrintHeaders(t: Table, buf: array<char>, off: nat, len: nat) returns (rc: int)
    requires t.Valid() && |HeaderBlock(t.Headers())| < 0x8000_0000
    requires off + len <= buf.Length
    requires len >= |HeaderBlock(t.Headers())| ==> off + |HeaderBlock(t.Headers())| < buf.Length
    modifies buf
    ensures rc == if len < |HeaderBlock(t.Headers())| then -1 else 0
    ensures rc == 0 ==> buf[..] == Written(old(buf[..]), off, HeaderBlock(t.Headers()) + [NUL])
    ensures rc == -1 ==> buf[..] == old(buf[..])
  {
    var need := HeadersLen(t);
    if len < need { return -1; }
    PrintBlock(t, buf, off);
    return 0;
  }

  /**
   The one call of the program, which passes all that is left of the buffer (src/Main.c:146):
   the NUL falls behind the buffer if and only if the block fills it exactly.  The model
   stops there.
   */
  method PrintTail(t: Table, buf: array<char>, off: nat) returns (rc: int, overrun: bool)
    requires t.Valid() && |HeaderBlock(t.Headers())| < 0x8000_0000 && off <= buf.Length
    modifies buf
    ensures overrun <==> |HeaderBlock(t.Headers())| == buf.Length - off
    ensures !overrun ==> rc == if buf.Length - off < |HeaderBlock(t.Headers())| then -1 else 0
    ensures !overrun && rc == 0 ==> buf[..] == Written(old(buf[..]), off, HeaderBlock(t.Headers()) + [NUL])
    ensures !overrun && rc == -1 ==> buf[..] == old(buf[..])
  {
    var need := HeadersLen(t);
    if need == buf.Length - off { return 0, true; }
    rc := PrintHeaders(t, buf, off, buf.Length - off);
    overrun := false;
  }

  /** `ParsedRequest_requestLineLen` */
  function LineLen(r: RequestLine): (n: nat)
    requires r.protocol.Some? && r.host.Some?
    ensures n == |LineText(r)|
  {
    |r.verb| + 1 + |r.protocol.value| + 3 + |r.host.value| + 1 + |r.version| + 2 +
    (if r.port.Some? then |r.port.value| + 1 else 0) + |r.path|
  }

  /** The host and port of the request line (src/proxy_parse.c:688-696). */
  method PutHost(buf: array<char>, at: nat, host: string, port: Option<string>) returns (current: nat)
    requires at + |host| + |PortText(port)| <= buf.Length
    modifies buf
    ensures current == at + |host| + |PortText(port)|
    ensures buf[..] == Written(old(buf[..]), at, host + PortText(port))
  {
    if port.Some? {
      WrittenOn(buf[..], at, host, ":" + port.value);
      Put(buf, at, host);
      PutBoth(buf, at + |host|, ":", port.value);
      current := at + |host| + 1 + |port.value|;
    } else {
      assert host + "" == host;
      Put(buf, at, host);
      current := at + |host|;
    }
  }

  /** Four copies one after the other. */
  method PutFour(buf: array<char>, at: nat, s: string, t: string, u: string, v: string) returns (current: nat)
    requires at + |s| + |t| + |u| + |v| <= buf.Length
    modifies buf
    ensures current == at + |s| + |t| + |u| + |v|
    ensures buf[..] == Written(old(buf[..]), at, s + t + u + v)
  {
    WrittenOn(buf[..], at, s + t, u + v);
    PutBoth(buf, at, s, t);
    PutBoth(buf, at + |s| + |t|, u, v);
    assert (s + t) + (u + v) == s + t + u + v;
    current := at + |s| + |t| + |u| + |v|;
  }

  /** `ParsedRequest_printRequestLine` */
  method PrintLine(r: RequestLine, buf: array<char>, off: nat, len: nat) returns (rc: int, tmp: nat)
    requires r.protocol.Some? && r.host.Some? && off + len <= buf.Length
    modifies buf
    ensures rc == if len < |LineText(r)| then -1 else 0
    ensures rc == 0 ==> tmp == |LineText(r)| && buf[..] == Written(old(buf[..]), off, LineText(r))
    ensures rc == -1 ==> buf[..] == old(buf[..])
  {
    if len < LineLen(r) { return -1, 0; }
    tmp := PrintPieces(r, buf, off);
    rc := 0;
  }

  /** The line up to the path (src/proxy_parse.c:679-696). */
  method PutFront(buf: array<char>, at: nat, verb: string, protocol: string, host: string, port: Option<string>)
    returns (current: nat, ghost s: string)
    requires at + |verb| + |protocol| + |host| + |PortText(port)| + 4 <= buf.Length
    modifies buf
    ensures s == (verb + " " + protocol + "://") + (host + PortText(port))
    ensures current == at + |s| <= buf.Length && buf[..] == Written(old(buf[..]), at, s)
  {
    ghost var a, b := verb + " " + protocol + "://", host + PortText(port);
    s := a + b;
    WrittenOn(buf[..], at, a, b);
    current := PutFour(buf, at, verb, " ", protocol, "://");
    current := PutHost(buf, current, host, port);
  }

  method PrintPieces(r: RequestLine, buf: array<char>, off: nat) returns (tmp: nat)
    requires r.protocol.Some? && r.host.Some? && off + LineLen(r) <= buf.Length
    modifies buf
    ensures tmp == LineLen(r) && buf[..] == Written(old(buf[..]), off, LineText(r))
  {
    ghost var b := buf[..];
    var current, s := PutFront(buf, off, r.verb, r.protocol.value, r.host.value, r.port);
    LinePieces(r, s);
    WrittenOn(b, off, s, r.path + " " + r.version + CRLF);
    current := PutFour(buf, current, r.path, " ", r.version, CRLF);
    tmp := current - off;
  }

  lemma LinePieces(r: RequestLine, s: string)
    requires r.protocol.Some? && r.host.Some?
    requires s == (r.verb + " " + r.protocol.value + "://") + (r.host.value + PortText(r.port))
    ensures s + (r.path + " " + r.version + CRLF) == LineText(r)
  {
  }

  /**
   `ParsedRequest_unparse` of a request whose line has been parsed (`pr->buf` set): the
   whole text, of exactly the length `ParsedRequest_totalLen` announces, and a NUL.
   */
  method Unparse(r: RequestLine, t: Table, buf: array<char>, buflen: nat) returns (rc: int)
    requires r.protocol.Some? && r.host.Some? && t.Valid()
    requires |HeaderBlock(t.Headers())| < 0x8000_0000
    requires buflen <= buf.Length
    requires buflen >= |RequestText(r, t.Headers())| ==> |RequestText(r, t.Headers())| < buf.Length
    modifies buf
    ensures rc == if buflen < LineLen(r) + |HeaderBlock(t.Headers())| then -1 else 0
    ensures rc == 0 ==> buf[..] == Written(old(buf[..]), 0, RequestText(r, t.Headers()) + [NUL])
  {
    ghost var b, hs := buf[..], t.Headers();
    var tmp;
    rc, tmp := PrintLine(r, buf, 0, buflen);
    if rc < 0 { return -1; }
    rc := PrintHeaders(t, buf, tmp, buflen - tmp);
    if rc < 0 { return -1; }
    JoinText(b, r, hs);
  }

  lemma JoinText(b: string, r: RequestLine, hs: seq<Header>)
    requires r.protocol.Some? && r.host.Some? && |RequestText(r, hs)| < |b|
    ensures Written(Written(b, 0, LineText(r)), |LineText(r)|, HeaderBlock(hs) + [NUL]) ==
            Written(b, 0, RequestText(r, hs) + [NUL])
  {
    var line, block := LineText(r), HeaderBlock(hs);
    WrittenOn(b, 0, line, block + [NUL]);
    assert line + (block + [NUL]) == (line + block) + [NUL];
  }
}
