/**
 The connection object of src/http2.c: its callbacks and its sweep update the stream
 table and the counter in place; the assembled request is written with a cursor.
 */
module Http2Conn {
  import opened CStrings
  import opened Http2Spec
  import opened RequestPrinter

  /**
   Assembling the upstream request (src/http2.c:717-769): the cursor ends exactly at the
   precomputed `total_len`, one byte before the end of the allocation.
   */
  method Assemble(s: Stream) returns (buf: array<char>, total: nat)
    requires Nameable(s)
    ensures fresh(buf) && total == |Assembled(s)| && buf.Length == total + 1
    ensures buf[..total] == Assembled(s)
  {
    var requestLine := |s.verb.value| + 1 + |s.path.value| + |" HTTP/1.1\r\n"|;
    var hostHeader := |"Host: "| + |s.authority.value| + |CRLF|;
    total := requestLine + hostHeader + |s.headers| + |s.body| + |CRLF|;
    buf := new char[total + 1];
    ghost var b := buf[..];
    var p, head := PutHead(buf, s.verb.value, s.path.value, s.authority.value, s.headers);
    Pieces(s, head);
    WrittenOn(b, 0, head, CRLF + s.body);
    PutBoth(buf, p, CRLF, s.body);
    p := p + |CRLF| + |s.body|;
    assert p == total;
  }

  /** The request line, the Host header and the other headers. */
  method PutHead(buf: array<char>, verb: string, path: string, authority: string, headers: string)
    returns (p: nat, ghost head: string)
    requires |verb| + |path| + |authority| + |headers| + 20 <= buf.Length
    modifies buf
    ensures head == (verb + " " + path + " HTTP/1.1\r\n") + ("Host: " + authority + CRLF + headers)
    ensures p == |head| <= buf.Length && buf[..] == Written(old(buf[..]), 0, head)
  {
    ghost var b := buf[..];
    ghost var line, host := verb + " " + path + " HTTP/1.1\r\n", "Host: " + authority + CRLF + headers;
    head := line + host;
    WrittenOn(b, 0, line, host);
    p := PutFour(buf, 0, verb, " ", path, " HTTP/1.1\r\n");
    p := PutFour(buf, p, "Host: ", authority, CRLF, headers);
  }

  lemma Pieces(s: Stream, head: string)
    requires Nameable(s)
    requires head == (s.verb.value + " " + s.path.value + " HTTP/1.1\r\n") +
                     ("Host: " + s.authority.value + CRLF + s.headers)
    ensures head + (CRLF + s.body) == Assembled(s)
  {
  }

  /** The write loop: `writes` is what successive `SSL_write` calls return. */
  method Send(request: string, sent0: nat, accepted0: string, writes: seq<WriteResult>) returns (r: SendOutcome)
    requires sent0 <= |request|
    ensures r == SendLoop(request, sent0, accepted0, writes)
  {
    var sent: nat, accepted, i: nat := sent0, accepted0, 0;
    while sent < |request|
      invariant sent <= |request| && i <= |writes|
      invariant SendLoop(request, sent, accepted, writes[i..]) == SendLoop(request, sent0, accepted0, writes)
      decreases |writes| - i
    {
      if i == |writes| || writes[i] == WouldBlock { return SendOutcome(sent, accepted, false, false); }
      if writes[i] == WriteError { return SendOutcome(sent, accepted, false, true); }
      var n := TakenBy(writes[i].more, |request| - sent);
      assert writes[i..][1..] == writes[i + 1..];
      sent, accepted, i := sent + n, accepted + request[sent..sent + n], i + 1;
    }
    return SendOutcome(sent, accepted, true, false);
  }

  class Connection {
    var streams: seq<Option<Stream>>
    var active: nat

    ghost function State(): Conn
      reads this
    {
      Conn(streams, active)
    }

    /** `http2_conn_init` */
    constructor ()
      ensures State() == START
    {
      streams, active := [], 0;
    }

    /** `http2_get_stream`, with its loop that clears the new places. */
    method GetStream(id: nat)
      modifies this`streams
      ensures streams == WithStream(old(streams), id)
    {
      if id >= |streams| {
        ghost var before := streams;
        var i := |streams|;
        while i < id + 1
          invariant |before| <= i <= id + 1 && |streams| == i
          invariant streams == before + seq(i - |before|, _ => None)
        {
          streams := streams + [None];
          i := i + 1;
        }
      }
      if streams[id] == None { streams := streams[id := Some(NEW_STREAM)]; }
    }

    /** The callbacks: look the stream up, update it, bump the counter if its request ended. */
    method Callback(e: Event)
      requires !e.Sweep?
      modifies this
      ensures State() == Next(old(State()), e)
    {
      if e.id < 0 { return; }
      GetStream(e.id);
      var s := streams[e.id].value;
      match e
      case BeginHeaders(id) =>
        streams := streams[id := Some(Begun(s))];
      case HeaderField(id, name, value) =>
        streams := streams[id := Some(Named(s, name, value))];
      case FrameRecv(id, kind, endStream, endHeaders, length) =>
        if Ends(kind, endStream, endHeaders, length) {
          streams := streams[id := Some(s.(requestComplete := true))];
          active := active + 1;
        }
      case DataChunk(id, data, eof) =>
        s := s.(body := s.body + data);
        if eof {
          s := s.(requestComplete := true);
          active := active + 1;
        }
        streams := streams[id := Some(s)];
    }

    /** Sends what is left of the request, after assembling it the first time (src/http2.c:715-791). */
    method SendRequest(s: Stream, writes: seq<WriteResult>) returns (r: Processed)
      requires s.state == Sending && Processable(s)
      ensures r == Sent(s, if s.request.Some? then s.request.value else Assembled(s), writes)
    {
      var request: string;
      if s.request.Some? {
        request := s.request.value;
      } else {
        var buf, total := Assemble(s);
        request := buf[..total];
      }
      var o := Send(request, s.sent, s.accepted, writes);
      var t := s.(request := Some(request), sent := o.sent, accepted := o.accepted);
      if o.failed { return Processed(t, false); }
      if o.done { t := t.(state := Reading); }
      return Processed(t, true);
    }

    /** The state switch of `http2_process_stream`; INIT falls through when it connects at once. */
    method ProcessStream(s: Stream, env: Env) returns (r: Processed)
      requires Processable(s)
      ensures r == Process(s, env)
    {
      var t := s;
      if t.state == Init {
        if env.init == SocketError { return Processed(t, false); }
        if env.init == InProgress { return Processed(t.(state := Connecting), true); }
        t := t.(state := Sending);
      }
      if s.state == Init || s.state == Connecting {
        if env.check == CheckError || env.check == Refused { return Processed(t, false); }
        return Processed(t.(state := Sending), true);
      }
      if t.state == Sending {
        r := SendRequest(t, env.writes);
        return;
      }
      if t.state == Reading {
        if env.read == ReadError || env.read == SubmitError { return Processed(t, false); }
        if env.read == Closed { t := t.(responseComplete := true, state := Done); }
        return Processed(t, true);
      }
      t := t.(request := None, sent := 0);
      return Processed(t, true);
    }

    /** The loop's turn at stream `i`. */
    method SweepAt(envs: seq<Env>, i: nat)
      requires i < |streams| && (Waiting(streams[i]) ==> Processable(streams[i].value))
      modifies this
      ensures State() == SweptAt(old(State()), envs, i)
    {
      if Waiting(streams[i]) {
        var p := ProcessStream(streams[i].value, EnvAt(envs, i));
        streams := streams[i := Some(p.stream)];
        if p.ok && p.stream.responseComplete { active := Decremented(active); }
      }
    }

    /** The stream loop of `handle_http2_connection` (src/http2.c:1036-1047). */
    method SweepAll(envs: seq<Env>)
      requires SweepReady(State())
      modifies this
      ensures State() == Next(old(State()), Sweep(envs))
    {
      if active > 0 {
        var i := 0;
        while i < |streams|
          invariant i <= |streams|
          invariant forall j :: i <= j < |streams| && Waiting(streams[j]) ==> Processable(streams[j].value)
          invariant SweptFrom(State(), envs, i) == SweptFrom(old(State()), envs, 0)
        {
          SweepAt(envs, i);
          i := i + 1;
        }
      }
    }
  }
}
