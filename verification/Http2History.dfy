/**
 What a stream holds in terms of the frames received for it (src/http2.c:262-444): every
 field is a function of the events on that stream since its last header block began, and an
 upstream request is made of what had been received when it was assembled.
 */
module Http2History {
  import opened CStrings
  import opened Http2Spec
  import opened Http2Runs

  // ---- the history of one stream ----

  /** The value of the last header field of that name, as a C string, in the current header block. */
  function LastField(es: seq<Event>, id: nat, name: string): Option<string> {
    if es == [] then None
    else
      var rest := es[..|es| - 1];
      match es[|es| - 1]
      case BeginHeaders(i) => if i == id then None else LastField(rest, id, name)
      case HeaderField(i, n, value) => if i == id && n == name then Some(CText(value)) else LastField(rest, id, name)
      case _ => LastField(rest, id, name)
  }

  /** The data received since the current header block began. */
  function DataSince(es: seq<Event>, id: nat): string {
    if es == [] then ""
    else
      var rest := es[..|es| - 1];
      match es[|es| - 1]
      case BeginHeaders(i) => if i == id then "" else DataSince(rest, id)
      case DataChunk(i, data, _) => if i == id then DataSince(rest, id) + data else DataSince(rest, id)
      case _ => DataSince(rest, id)
  }

  /**
   A frame or chunk has ended the request since the current header block began: a data frame
   or header block with END_STREAM, a header block of length zero, or the last data chunk.
   */
  function EndedSince(es: seq<Event>, id: nat): bool {
    if es == [] then false
    else
      var rest := es[..|es| - 1];
      match es[|es| - 1]
      case BeginHeaders(i) => i != id && EndedSince(rest, id)
      case FrameRecv(i, kind, endStream, endHeaders, length) =>
        || EndedSince(rest, id)
        || (i == id && kind == DataFrame && endStream)
        || (i == id && kind == HeadersFrame && endHeaders && (length == 0 || endStream))
      case DataChunk(i, _, eof) => EndedSince(rest, id) || (i == id && eof)
      case _ => EndedSince(rest, id)
  }

  /** The stream as the next callback would find it. */
  function At(c: Conn, id: nat): Stream {
    if id < |c.streams| && c.streams[id].Some? then c.streams[id].value else NEW_STREAM
  }

  /** Its request fields say what its history says. */
  ghost predicate Tells(s: Stream, es: seq<Event>, id: nat) {
    && s.verb == LastField(es, id, ":method")
    && s.path == LastField(es, id, ":path")
    && s.authority == LastField(es, id, ":authority")
    && s.body == DataSince(es, id)
    && s.requestComplete == EndedSince(es, id)
  }

  /** The request fields of two streams agree. */
  predicate SameRequest(s: Stream, t: Stream) {
    s.verb == t.verb && s.path == t.path && s.authority == t.authority && s.body == t.body
    && s.requestComplete == t.requestComplete
  }

  lemma ProcessKeepsRequest(s: Stream, env: Env)
    requires Processable(s)
    ensures SameRequest(Process(s, env).stream, s)
  {
  }

  lemma {:induction false} SweptKeepsRequest(c: Conn, envs: seq<Env>, i: nat, id: nat)
    requires i <= |c.streams|
    requires forall j :: i <= j < |c.streams| && Waiting(c.streams[j]) ==> Processable(c.streams[j].value)
    ensures SameRequest(At(SweptFrom(c, envs, i), id), At(c, id))
    decreases |c.streams| - i
  {
    if i < |c.streams| {
      var d := SweptAt(c, envs, i);
      if Waiting(c.streams[i]) { ProcessKeepsRequest(c.streams[i].value, EnvAt(envs, i)); }
      assert SameRequest(At(d, id), At(c, id));
      SweptKeepsRequest(d, envs, i + 1, id);
    }
  }

  /** A callback updates its own stream and no other. */
  lemma CallbackAt(c: Conn, e: Event, id: nat)
    requires !e.Sweep?
    ensures At(AfterCallback(c, e), id) == if e.id == id then Updated(At(c, id), e) else At(c, id)
  {
    if e.id >= 0 {
      LookupCounts(c.streams, e.id);
      var g := Grown(c.streams, e.id);
      if id < |c.streams| { assert g[id] == g[..|c.streams|][id]; }
    }
  }

  lemma LastFieldAfter(es: seq<Event>, e: Event, id: nat, name: string)
    requires !e.Sweep? && e.id == id
    ensures LastField(es + [e], id, name) ==
            if e.BeginHeaders? then None
            else if e.HeaderField? && e.name == name then Some(CText(e.value)) else LastField(es, id, name)
  {
    assert (es + [e])[..|es|] == es;
  }

  lemma UpdatedFields(s: Stream, es: seq<Event>, e: Event, id: nat)
    requires !e.Sweep? && e.id == id
    requires s.verb == LastField(es, id, ":method") && s.path == LastField(es, id, ":path")
    requires s.authority == LastField(es, id, ":authority")
    ensures var t, fs := Updated(s, e), es + [e];
            && t.verb == LastField(fs, id, ":method") && t.path == LastField(fs, id, ":path")
            && t.authority == LastField(fs, id, ":authority")
  {
    LastFieldAfter(es, e, id, ":method");
    LastFieldAfter(es, e, id, ":path");
    LastFieldAfter(es, e, id, ":authority");
    if e.HeaderField? { DistinctNames(e.name); }
  }

  lemma DistinctNames(name: string)
    ensures name == ":method" ==> name != ":path" && name != ":authority"
    ensures name == ":path" ==> name != ":authority"
    ensures name in [":method", ":path", ":authority"] ==> name != "" && name[0] == ':'
  {
    assert |":method"| == 7 && |":path"| == 5 && |":authority"| == 10;
  }

  lemma UpdatedBody(s: Stream, es: seq<Event>, e: Event, id: nat)
    requires !e.Sweep? && e.id == id && s.body == DataSince(es, id)
    ensures Updated(s, e).body == DataSince(es + [e], id)
  {
    assert (es + [e])[..|es|] == es;
  }

  lemma UpdatedEnd(s: Stream, es: seq<Event>, e: Event, id: nat)
    requires !e.Sweep? && e.id == id && s.requestComplete == EndedSince(es, id)
    ensures Updated(s, e).requestComplete == EndedSince(es + [e], id)
  {
    assert (es + [e])[..|es|] == es;
  }

  lemma UpdatedTells(s: Stream, es: seq<Event>, e: Event, id: nat)
    requires Tells(s, es, id) && !e.Sweep? && e.id == id
    ensures Tells(Updated(s, e), es + [e], id)
  {
    UpdatedFields(s, es, e, id);
    UpdatedBody(s, es, e, id);
    UpdatedEnd(s, es, e, id);
  }

  lemma OthersTell(s: Stream, es: seq<Event>, e: Event, id: nat)
    requires Tells(s, es, id) && (e.Sweep? || e.id != id)
    ensures Tells(s, es + [e], id)
  {
    assert (es + [e])[..|es|] == es;
  }

  /** The stream that the callbacks on it alone would make. */
  function Alone(es: seq<Event>, id: nat): Stream {
    if es == [] then NEW_STREAM
    else
      var s, e := Alone(es[..|es| - 1], id), es[|es| - 1];
      if !e.Sweep? && e.id == id then Updated(s, e) else s
  }

  lemma {:induction false} AloneTells(es: seq<Event>, id: nat)
    ensures Tells(Alone(es, id), es, id)
  {
    if es != [] {
      var rest, last := es[..|es| - 1], es[|es| - 1];
      AloneTells(rest, id);
      assert rest + [last] == es;
      if !last.Sweep? && last.id == id {
        UpdatedTells(Alone(rest, id), rest, last, id);
      } else {
        OthersTell(Alone(rest, id), rest, last, id);
      }
    }
  }

  lemma UpdatedSame(s: Stream, t: Stream, e: Event)
    requires SameRequest(s, t) && !e.Sweep?
    ensures SameRequest(Updated(s, e), Updated(t, e))
  {
    match e
    case HeaderField(_, name, value) => NamedSame(s, t, name, value);
    case _ =>
  }

  lemma NamedSame(s: Stream, t: Stream, name: string, value: string)
    requires SameRequest(s, t)
    ensures SameRequest(Named(s, name, value), Named(t, name, value))
  {
  }

  /** Whatever happens to other streams and in sweeps leaves the request fields to the stream's own callbacks. */
  lemma StepAlone(c: Conn, e: Event, s: Stream, id: nat)
    requires Enabled(c, e) && SameRequest(At(c, id), s)
    ensures SameRequest(At(Next(c, e), id), if !e.Sweep? && e.id == id then Updated(s, e) else s)
  {
    if e.Sweep? {
      if c.active > 0 { SweptKeepsRequest(c, e.envs, 0, id); }
    } else {
      CallbackAt(c, e, id);
      if e.id == id { UpdatedSame(At(c, id), s, e); }
    }
  }

  lemma {:induction false} RunInit(c: Conn, es: seq<Event>)
    requires es != [] && EnabledRun(c, es)
    ensures var rest, last := es[..|es| - 1], es[|es| - 1];
            EnabledRun(c, rest) && Enabled(Run(c, rest), last) && Run(c, es) == Next(Run(c, rest), last)
    decreases |es|
  {
    var rest := es[..|es| - 1];
    if |es| == 1 {
      assert es[1..] == [] && rest == [];
    } else {
      RunInit(Next(c, es[0]), es[1..]);
      assert es[1..][..|es| - 2] == rest[1..];
    }
  }

  lemma {:induction false} RunAlone(c: Conn, es: seq<Event>, id: nat)
    requires c.streams == [] && EnabledRun(c, es)
    ensures SameRequest(At(Run(c, es), id), Alone(es, id))
    decreases |es|
  {
    if es != [] {
      var rest, last := es[..|es| - 1], es[|es| - 1];
      RunInit(c, es);
      RunAlone(c, rest, id);
      StepAlone(Run(c, rest), last, Alone(rest, id), id);
    }
  }

  lemma SameTells(s: Stream, t: Stream, es: seq<Event>, id: nat)
    requires Tells(s, es, id) && SameRequest(t, s)
    ensures Tells(t, es, id)
  {
  }

  lemma RunTells(c: Conn, es: seq<Event>, id: nat)
    requires c.streams == [] && EnabledRun(c, es)
    ensures Tells(At(Run(c, es), id), es, id)
  {
    RunAlone(c, es, id);
    AloneTells(es, id);
    SameTells(Alone(es, id), At(Run(c, es), id), es, id);
  }

  /**
   In every run, for every stream: method, path and authority are the last values received
   for ":method", ":path" and ":authority" since its last header block began, NULL exactly
   if there was none; its body is the data since then; and it is complete exactly if a
   frame or chunk ended it since then -- whatever came in between on other streams.
   */
  lemma {:induction false} StreamTellsItsHistory(es: seq<Event>, id: nat)
    requires EnabledRun(START, es)
    ensures Tells(At(Run(START, es), id), es, id)
  {
    RunTells(START, es, id);
  }

  // ---- the upstream request ----

  /** The HTTP/1.1 request of what had been received for a stream after `n` events. */
  ghost predicate MadeOf(request: string, es: seq<Event>, id: nat, n: nat) {
    n <= |es| &&
    var h := es[..n];
    var m, p, a := LastField(h, id, ":method"), LastField(h, id, ":path"), LastField(h, id, ":authority");
    && m.Some? && p.Some? && a.Some?
    && request == m.value + " " + p.value + " HTTP/1.1\r\n" + "Host: " + a.value + "\r\n" + "\r\n" + DataSince(h, id)
  }

  ghost predicate RequestMade(s: Stream, es: seq<Event>, id: nat) {
    s.request.Some? ==> exists n :: MadeOf(s.request.value, es, id, n)
  }

  lemma MadeOfGrows(request: string, es: seq<Event>, e: Event, id: nat, n: nat)
    requires MadeOf(request, es, id, n)
    ensures MadeOf(request, es + [e], id, n)
  {
    assert (es + [e])[..n] == es[..n];
  }

  lemma RequestGrows(s: Stream, es: seq<Event>, e: Event, id: nat)
    requires RequestMade(s, es, id)
    ensures RequestMade(s, es + [e], id)
  {
    if s.request.Some? {
      var n :| MadeOf(s.request.value, es, id, n);
      MadeOfGrows(s.request.value, es, e, id, n);
    }
  }

  /** What is assembled is made of the history so far. */
  lemma AssembledIsMade(s: Stream, es: seq<Event>, id: nat)
    requires Tells(s, es, id) && Nameable(s) && s.headers == ""
    ensures MadeOf(Assembled(s), es, id, |es|)
  {
    assert es[..|es|] == es;
    AssembledText(s, s.verb.value, s.path.value, s.authority.value);
  }

  lemma AssembledText(s: Stream, m: string, p: string, a: string)
    requires Nameable(s) && s.headers == "" && s.verb.value == m && s.path.value == p && s.authority.value == a
    ensures Assembled(s) == m + " " + p + " HTTP/1.1\r\n" + "Host: " + a + "\r\n" + "\r\n" + s.body
  {
  }

  lemma ProcessMakes(s: Stream, env: Env, es: seq<Event>, id: nat)
    requires Processable(s) && Sound(s) && Tells(s, es, id) && RequestMade(s, es, id)
    ensures RequestMade(Process(s, env).stream, es, id)
  {
    if s.state == Sending && s.request == None { AssembledIsMade(s, es, id); }
  }

  lemma {:induction false} SweptMakes(c: Conn, envs: seq<Env>, i: nat, es: seq<Event>, id: nat)
    requires i <= |c.streams| && AllSound(c.streams) && c.active >= Count(c.streams)
    requires forall j :: i <= j < |c.streams| && Waiting(c.streams[j]) ==> Processable(c.streams[j].value)
    requires Tells(At(c, id), es, id) && RequestMade(At(c, id), es, id)
    ensures RequestMade(At(SweptFrom(c, envs, i), id), es, id)
    decreases |c.streams| - i
  {
    if i < |c.streams| {
      var d := SweptAt(c, envs, i);
      SweptAtCounts(c, envs, i);
      if Waiting(c.streams[i]) {
        ProcessKeepsRequest(c.streams[i].value, EnvAt(envs, i));
        if i == id { ProcessMakes(c.streams[i].value, EnvAt(envs, i), es, id); }
      }
      SameTells(At(c, id), At(d, id), es, id);
      SweptMakes(d, envs, i + 1, es, id);
    }
  }

  lemma UpdatedMakes(s: Stream, e: Event)
    requires !e.Sweep?
    ensures Updated(s, e).request == s.request
  {
  }

  lemma StepMakes(c: Conn, es: seq<Event>, e: Event, id: nat)
    requires Enabled(c, e) && AllSound(c.streams) && c.active >= Count(c.streams)
    requires Tells(At(c, id), es, id) && RequestMade(At(c, id), es, id)
    ensures RequestMade(At(Next(c, e), id), es + [e], id)
  {
    if e.Sweep? {
      if c.active > 0 { SweptMakes(c, e.envs, 0, es, id); }
      RequestGrows(At(Next(c, e), id), es, e, id);
    } else {
      CallbackAt(c, e, id);
      UpdatedMakes(At(c, id), e);
      RequestGrows(At(c, id), es, e, id);
    }
  }

  /**
   In every run the request a stream sends upstream is the HTTP/1.1 form of the method,
   path, authority and data that had been received for it at some earlier moment.
   */
  lemma {:induction false} UpstreamRequestIsReceived(es: seq<Event>, id: nat)
    requires EnabledRun(START, es)
    ensures RequestMade(At(Run(START, es), id), es, id)
  {
    RunMakes(START, es, id);
  }

  lemma {:induction false} RunMakes(c: Conn, es: seq<Event>, id: nat)
    requires c.streams == [] && EnabledRun(c, es)
    ensures RequestMade(At(Run(c, es), id), es, id)
    decreases |es|
  {
    if es != [] {
      var rest, last := es[..|es| - 1], es[|es| - 1];
      RunInit(c, es);
      RunMakes(c, rest, id);
      RunTells(c, rest, id);
      RunCounts(c, rest);
      assert rest + [last] == es;
      StepMakes(Run(c, rest), rest, last, id);
    }
  }

  // ---- an exchange that succeeds ----

  /** What the system calls return when all goes well. */
  function Connects(): Env {
    Env(ConnectedAtOnce, Established, [], NothingYet)
  }

  function Takes(more: nat): Env {
    Env(SocketError, CheckError, [Accepted(more)], NothingYet)
  }

  function ClosesUp(): Env {
    Env(SocketError, CheckError, [], Closed)
  }

  lemma OneWrite(request: string, more: nat)
    requires request != "" && more >= |request|
    ensures SendLoop(request, 0, "", [Accepted(more)]) == SendOutcome(|request|, request, true, false)
  {
    assert [Accepted(more)][1..] == [];
    assert "" + request[0..|request|] == request;
    assert SendLoop(request, |request|, request, []) == SendOutcome(|request|, request, true, false);
  }

  lemma RequestTaken(s: Stream, more: nat)
    requires s.state == Sending && s.request == None && s.sent == 0 && s.accepted == ""
    requires Nameable(s) && more >= |Assembled(s)|
    ensures Processable(s)
    ensures var p := Process(s, Takes(more));
            p.ok && p.stream == s.(state := Reading, request := Some(Assembled(s)), sent := |Assembled(s)|, accepted := Assembled(s))
  {
    assert Assembled(s) != "";
    OneWrite(Assembled(s), more);
  }

  /**
   A waiting stream whose connection is made, whose request is taken whole and whose
   upstream closes is answered, and its upstream has the assembled request.
   */
  lemma ExchangeSucceeds(s: Stream, more: nat) returns (a: Stream, b: Stream, c: Processed)
    requires Sound(s) && s.state == Init && Nameable(s) && more >= |Assembled(s)|
    ensures a == Process(s, Connects()).stream && a.state == Sending && Processable(a)
    ensures b == Process(a, Takes(more)).stream && b.state == Reading && b.accepted == Assembled(s)
    ensures c == Process(b, ClosesUp()) && c.ok && c.stream.state == Done && c.stream.responseComplete
  {
    a := Process(s, Connects()).stream;
    assert a == s.(state := Sending);
    RequestTaken(a, more);
    b := Process(a, Takes(more)).stream;
    c := Process(b, ClosesUp());
  }

  /** A system call that fails leaves the stream as it is, and the call fails; so does a write, but for what was taken before. */
  lemma FailuresStay(s: Stream, env: Env)
    requires Processable(s)
    ensures s.state == Init && env.init == SocketError ==> Process(s, env) == Processed(s, false)
    ensures s.state == Connecting && env.check != Established ==> Process(s, env) == Processed(s, false)
    ensures s.state == Reading && (env.read == ReadError || env.read == SubmitError) ==> Process(s, env) == Processed(s, false)
    ensures s.state == Reading && (env.read == SomeData || env.read == NothingYet) ==> Process(s, env) == Processed(s, true)
    ensures s.state == Sending && s.request.Some? && s.sent < |s.request.value| && env.writes == [WriteError] ==>
              Process(s, env) == Processed(s, false)
    ensures s.state == Sending && s.request.Some? && s.sent < |s.request.value| && env.writes == [WouldBlock] ==>
              Process(s, env) == Processed(s, true)
  {
  }
}
