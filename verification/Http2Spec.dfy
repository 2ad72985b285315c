/**
 The per-stream bookkeeping of an HTTP/2 connection (src/http2.c): the callbacks nghttp2
 makes, in any order, and the sweep that advances each stream's upstream exchange.  What
 sockets and TLS return is part of the event.
 */
module Http2Spec {
  import opened CStrings

  datatype Upstream = Init | Connecting | Sending | Reading | Done

  function Rank(u: Upstream): nat {
    match u
    case Init => 0
    case Connecting => 1
    case Sending => 2
    case Reading => 3
    case Done => 4
  }

  /** One `http2_stream`; `accepted` is what the upstream TLS connection has taken so far. */
  datatype Stream = Stream(
    verb: Option<string>, path: Option<string>, authority: Option<string>,
    requestBuf: string, headers: string, body: string,
    requestComplete: bool, responseComplete: bool,
    state: Upstream, request: Option<string>, sent: nat, accepted: string)

  const NEW_STREAM: Stream :=
    Stream(None, None, None, "", "", "", false, false, Init, None, 0, "")

  datatype Conn = Conn(streams: seq<Option<Stream>>, active: nat)

  const START: Conn := Conn([], 0)

  /** A complete request still without a complete response. */
  predicate Waiting(s: Option<Stream>) {
    s.Some? && s.value.requestComplete && !s.value.responseComplete
  }

  // ---- events ----

  datatype InitResult = SocketError | InProgress | ConnectedAtOnce
  datatype CheckResult = CheckError | Refused | Established

  /** `Accepted(more)`: the TLS layer takes one byte and up to `more` others. */
  datatype WriteResult = Accepted(more: nat) | WouldBlock | WriteError

  datatype ReadResult = SomeData | NothingYet | ReadError | Closed | SubmitError

  /** What the system calls of one `http2_process_stream` return. */
  datatype Env = Env(init: InitResult, check: CheckResult, writes: seq<WriteResult>, read: ReadResult)

  datatype Frame = DataFrame | HeadersFrame | OtherFrame

  datatype Event =
    | BeginHeaders(id: int)
    | HeaderField(id: int, name: string, value: string)
    | FrameRecv(id: int, kind: Frame, endStream: bool, endHeaders: bool, length: nat)
    | DataChunk(id: int, data: string, eof: bool)
    | Sweep(envs: seq<Env>)

  // ---- callbacks ----

  /** The `streams` array grown to hold `id`, new places NULL. */
  function Grown(ss: seq<Option<Stream>>, id: nat): (r: seq<Option<Stream>>)
    ensures |r| > id && |r| >= |ss| && r[..|ss|] == ss
    ensures forall i :: |ss| <= i < |r| ==> r[i] == None
  {
    if id < |ss| then ss else ss + seq(id + 1 - |ss|, _ => None)
  }

  /** `http2_get_stream` */
  function WithStream(ss: seq<Option<Stream>>, id: nat): (r: seq<Option<Stream>>)
    ensures |r| > id && r[id].Some?
  {
    var g := Grown(ss, id);
    if g[id].Some? then g else g[id := Some(NEW_STREAM)]
  }

  function Begun(s: Stream): Stream {
    s.(verb := None, path := None, authority := None, requestBuf := "", headers := "", body := "",
       requestComplete := false, responseComplete := false)
  }

  /** One header field; the pseudo-headers are kept as C strings. */
  function Named(s: Stream, name: string, value: string): Stream {
    if name != "" && name[0] == ':' then
      if name == ":method" then s.(verb := Some(CText(value)))
      else if name == ":path" then s.(path := Some(CText(value)))
      else if name == ":authority" then s.(authority := Some(CText(value)))
      else s
    else s.(requestBuf := s.requestBuf + name + ": " + value + CRLF)
  }

  /** Whether a received frame ends the request. */
  predicate Ends(kind: Frame, endStream: bool, endHeaders: bool, length: nat) {
    match kind
    case DataFrame => endStream
    case HeadersFrame => endHeaders && (length == 0 || endStream)
    case OtherFrame => false
  }

  function Complete(s: Stream): Stream {
    s.(requestComplete := true)
  }

  /** A callback's effect on its stream, and whether it bumps the counter. */
  function Updated(s: Stream, e: Event): Stream
    requires !e.Sweep?
  {
    match e
    case BeginHeaders(_) => Begun(s)
    case HeaderField(_, n, v) => Named(s, n, v)
    case FrameRecv(_, k, es, eh, len) => if Ends(k, es, eh, len) then Complete(s) else s
    case DataChunk(_, d, eof) =>
      var t := s.(body := s.body + d);
      if eof then Complete(t) else t
  }

  predicate Bumps(e: Event) {
    match e
    case FrameRecv(_, k, es, eh, len) => Ends(k, es, eh, len)
    case DataChunk(_, _, eof) => eof
    case _ => false
  }

  function AfterCallback(c: Conn, e: Event): Conn
    requires !e.Sweep?
  {
    if e.id < 0 then c
    else
      var ss := WithStream(c.streams, e.id);
      Conn(ss[e.id := Some(Updated(ss[e.id].value, e))], if Bumps(e) then c.active + 1 else c.active)
  }

  // ---- the upstream exchange ----

  /** The HTTP/1.1 request the source assembles. */
  function Assembled(s: Stream): string
    requires s.verb.Some? && s.path.Some? && s.authority.Some?
  {
    s.verb.value + " " + s.path.value + " HTTP/1.1\r\n" +
    ("Host: " + s.authority.value + CRLF) + s.headers + CRLF + s.body
  }

  datatype SendOutcome = SendOutcome(sent: nat, accepted: string, done: bool, failed: bool)

  /** The write loop (src/http2.c:772-786); a schedule that runs out is a would-block. */
  function SendLoop(request: string, sent: nat, accepted: string, writes: seq<WriteResult>): SendOutcome
    requires sent <= |request|
    decreases writes
  {
    if sent == |request| then SendOutcome(sent, accepted, true, false)
    else if writes == [] || writes[0] == WouldBlock then SendOutcome(sent, accepted, false, false)
    else if writes[0] == WriteError then SendOutcome(sent, accepted, false, true)
    else
      var n := TakenBy(writes[0].more, |request| - sent);
      SendLoop(request, sent + n, accepted + request[sent..sent + n], writes[1..])
  }

  function TakenBy(more: nat, left: nat): (n: nat)
    requires left > 0
    ensures 0 < n <= left
  {
    if more + 1 <= left then more + 1 else left
  }

  /** The stream after `http2_process_stream`, and whether that returned 0. */
  datatype Processed = Processed(stream: Stream, ok: bool)

  function Checked(s: Stream, check: CheckResult): Processed {
    if check == Established then Processed(s.(state := Sending), true) else Processed(s, false)
  }

  function Sent(s: Stream, request: string, writes: seq<WriteResult>): Processed
    requires s.sent <= |request|
  {
    var r := SendLoop(request, s.sent, s.accepted, writes);
    var t := s.(request := Some(request), sent := r.sent, accepted := r.accepted);
    if r.failed then Processed(t, false)
    else Processed(if r.done then t.(state := Reading) else t, true)
  }

  /** The pseudo-headers the request line needs have arrived. */
  predicate Nameable(s: Stream) {
    s.verb.Some? && s.path.Some? && s.authority.Some?
  }

  /** The C code may process the stream: it would not follow a NULL or run past its buffer. */
  predicate Processable(s: Stream) {
    s.state == Sending ==>
      if s.request == None then Nameable(s) && s.sent == 0 else s.sent <= |s.request.value|
  }

  /** One `http2_process_stream` on a waiting stream. */
  function Process(s: Stream, env: Env): Processed
    requires Processable(s)
  {
    match s.state
    case Init =>
      (match env.init
       case SocketError => Processed(s, false)
       case InProgress => Processed(s.(state := Connecting), true)
       case ConnectedAtOnce => Checked(s.(state := Sending), env.check))
    case Connecting => Checked(s, env.check)
    case Sending => Sent(s, if s.request.Some? then s.request.value else Assembled(s), env.writes)
    case Reading =>
      (match env.read
       case SomeData => Processed(s, true)
       case NothingYet => Processed(s, true)
       case ReadError => Processed(s, false)
       case SubmitError => Processed(s, false)
       case Closed => Processed(s.(responseComplete := true, state := Done), true))
    case Done => Processed(s.(request := None, sent := 0), true)
  }

  const IDLE: Env := Env(SocketError, CheckError, [], NothingYet)

  function EnvAt(envs: seq<Env>, i: nat): Env {
    if i < |envs| then envs[i] else IDLE
  }

  /** `active_streams_count--` in unsigned arithmetic. */
  function Decremented(n: nat): nat {
    if n == 0 then WORD - 1 else n - 1
  }

  predicate SweepReady(c: Conn) {
    forall i :: 0 <= i < |c.streams| && Waiting(c.streams[i]) ==> Processable(c.streams[i].value)
  }

  /** The sweep's turn at stream `i` (src/http2.c:1039-1044). */
  function SweptAt(c: Conn, envs: seq<Env>, i: nat): (r: Conn)
    requires i < |c.streams| && (Waiting(c.streams[i]) ==> Processable(c.streams[i].value))
    ensures |r.streams| == |c.streams|
    ensures forall j :: 0 <= j < |c.streams| && j != i ==> r.streams[j] == c.streams[j]
  {
    if !Waiting(c.streams[i]) then c
    else
      var p := Process(c.streams[i].value, EnvAt(envs, i));
      Conn(c.streams[i := Some(p.stream)],
           if p.ok && p.stream.responseComplete then Decremented(c.active) else c.active)
  }

  function SweptFrom(c: Conn, envs: seq<Env>, i: nat): (r: Conn)
    requires i <= |c.streams|
    requires forall j :: i <= j < |c.streams| && Waiting(c.streams[j]) ==> Processable(c.streams[j].value)
    decreases |c.streams| - i
  {
    if i == |c.streams| then c else SweptFrom(SweptAt(c, envs, i), envs, i + 1)
  }

  /** The guarded stream loop of `handle_http2_connection`. */
  function Swept(c: Conn, envs: seq<Env>): Conn
    requires SweepReady(c)
  {
    if c.active > 0 then SweptFrom(c, envs, 0) else c
  }

  predicate Enabled(c: Conn, e: Event) {
    e.Sweep? ==> SweepReady(c)
  }

  function Next(c: Conn, e: Event): Conn
    requires Enabled(c, e)
  {
    if e.Sweep? then Swept(c, e.envs) else AfterCallback(c, e)
  }
}
