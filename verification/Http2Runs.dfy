/**
 What holds of the stream bookkeeping after every sequence of callbacks and sweeps
 (section 5.1 of RFC 7540 lets the frames of different streams arrive in any order).
 */
module Http2Runs {
  import opened CStrings
  import opened Http2Spec

  function Run(c: Conn, es: seq<Event>): Conn
    requires EnabledRun(c, es)
    decreases es
  {
    if es == [] then c else Run(Next(c, es[0]), es[1..])
  }

  predicate EnabledRun(c: Conn, es: seq<Event>)
    decreases es
  {
    es == [] || (Enabled(c, es[0]) && EnabledRun(Next(c, es[0]), es[1..]))
  }

  // ---- each stream ----

  /** The bytes accepted so far are a prefix of the assembled request. */
  ghost predicate Prefixed(s: Stream) {
    match s.request
    case None => s.sent == 0 && s.accepted == ""
    case Some(r) => s.sent <= |r| && s.accepted == r[..s.sent]
  }

  ghost predicate Sound(s: Stream) {
    && (s.responseComplete ==> s.state == Done)
    && (Rank(s.state) < Rank(Sending) ==> s.request == None && s.sent == 0 && s.accepted == "")
    && (s.state == Sending ==> Prefixed(s))
    && (s.state == Reading ==> s.request.Some? && s.sent == |s.request.value| && s.accepted == s.request.value)
    && s.headers == ""
  }

  lemma {:induction false} SendKeepsPrefix(request: string, sent: nat, accepted: string, writes: seq<WriteResult>)
    requires sent <= |request| && accepted == request[..sent]
    ensures var r := SendLoop(request, sent, accepted, writes);
            && sent <= r.sent <= |request| && r.accepted == request[..r.sent]
            && (r.done <==> r.sent == |request|)
    decreases writes
  {
    if sent < |request| && writes != [] && writes[0].Accepted? {
      var n := TakenBy(writes[0].more, |request| - sent);
      assert request[..sent] + request[sent..sent + n] == request[..sent + n];
      SendKeepsPrefix(request, sent + n, request[..sent + n], writes[1..]);
    }
  }

  /** A stream starts reading only once the upstream has accepted its whole request. */
  lemma SendingIsSound(s: Stream, request: string, writes: seq<WriteResult>)
    requires Sound(s) && s.state == Sending
    requires s.request == Some(request) || s.request == None
    ensures Sound(Sent(s, request, writes).stream)
    ensures Rank(Sent(s, request, writes).stream.state) >= Rank(Sending)
    ensures Sent(s, request, writes).stream.state == Reading ==>
              Sent(s, request, writes).ok && Sent(s, request, writes).stream.accepted == request
  {
    assert s.accepted == request[..s.sent];
    SendKeepsPrefix(request, s.sent, s.accepted, writes);
    assert request[..|request|] == request;
  }

  lemma ProcessIsSound(s: Stream, env: Env)
    requires Sound(s) && Processable(s)
    ensures Sound(Process(s, env).stream)
    ensures Rank(Process(s, env).stream.state) >= Rank(s.state)
    ensures Process(s, env).stream.requestComplete == s.requestComplete
    ensures !s.responseComplete && Process(s, env).stream.responseComplete ==> Process(s, env).ok
  {
    if s.state == Sending {
      SendingIsSound(s, if s.request.Some? then s.request.value else Assembled(s), env.writes);
    }
  }

  lemma UpdateIsSound(s: Stream, e: Event)
    requires Sound(s) && !e.Sweep?
    ensures Sound(Updated(s, e)) && Updated(s, e).state == s.state
  {
  }

  ghost predicate AllSound(ss: seq<Option<Stream>>) {
    forall i :: 0 <= i < |ss| && ss[i].Some? ==> Sound(ss[i].value)
  }

  // ---- counting ----

  function Bit(s: Option<Stream>): nat {
    if Waiting(s) then 1 else 0
  }

  /** How many of the first `n` streams wait. */
  function CountBelow(ss: seq<Option<Stream>>, n: nat): nat
    requires n <= |ss|
  {
    if n == 0 then 0 else CountBelow(ss, n - 1) + Bit(ss[n - 1])
  }

  function Count(ss: seq<Option<Stream>>): nat {
    CountBelow(ss, |ss|)
  }

  lemma {:induction false} CountBelowSame(a: seq<Option<Stream>>, b: seq<Option<Stream>>, n: nat)
    requires n <= |a| && n <= |b| && forall i :: 0 <= i < n ==> a[i] == b[i]
    ensures CountBelow(a, n) == CountBelow(b, n)
  {
    if n > 0 { CountBelowSame(a, b, n - 1); }
  }

  lemma {:induction false} CountBelowUpdate(ss: seq<Option<Stream>>, i: nat, x: Option<Stream>, n: nat)
    requires i < n <= |ss|
    ensures CountBelow(ss[i := x], n) + Bit(ss[i]) == CountBelow(ss, n) + Bit(x)
  {
    if i == n - 1 {
      CountBelowSame(ss[i := x], ss, n - 1);
    } else {
      CountBelowUpdate(ss, i, x, n - 1);
    }
  }

  lemma {:induction false} CountBelowNone(ss: seq<Option<Stream>>, m: nat, n: nat)
    requires m <= n <= |ss| && forall i :: m <= i < n ==> ss[i] == None
    ensures CountBelow(ss, n) == CountBelow(ss, m)
  {
    if m < n { CountBelowNone(ss, m, n - 1); }
  }

  lemma {:induction false} CountAtLeast(ss: seq<Option<Stream>>, i: nat, n: nat)
    requires i < n <= |ss| && Waiting(ss[i])
    ensures CountBelow(ss, n) >= 1
  {
    if i < n - 1 { CountAtLeast(ss, i, n - 1); }
  }

  /** Looking a stream up creates it at most, and a new stream does not wait. */
  lemma LookupCounts(ss: seq<Option<Stream>>, id: nat)
    ensures Count(WithStream(ss, id)) == Count(ss)
    ensures AllSound(ss) ==> AllSound(WithStream(ss, id))
    ensures WithStream(ss, id)[id] == if id < |ss| && ss[id].Some? then ss[id] else Some(NEW_STREAM)
  {
    var g := Grown(ss, id);
    assert forall i :: 0 <= i < |ss| ==> g[i] == g[..|ss|][i] == ss[i];
    CountBelowSame(g, ss, |ss|);
    CountBelowNone(g, |ss|, |g|);
    if g[id] == None { CountBelowUpdate(g, id, Some(NEW_STREAM), |g|); }
  }

  // ---- the counter ----

  /** The stream an event is about, as the callback finds it. */
  function Subject(c: Conn, id: nat): Stream {
    WithStream(c.streams, id)[id].value
  }

  /**
   Events that make the counter exceed the number of waiting streams: a second end of the
   same request, an end after the response, or a new header block on a waiting stream.
   */
  function Surplus(c: Conn, e: Event): nat {
    if e.Sweep? || e.id < 0 then 0
    else
      var s := Subject(c, e.id);
      if Bumps(e) then (if s.requestComplete || s.responseComplete then 1 else 0)
      else if e.BeginHeaders? then Bit(Some(s))
      else 0
  }

  function SurplusIn(c: Conn, es: seq<Event>): nat
    requires EnabledRun(c, es)
    decreases es
  {
    if es == [] then 0 else Surplus(c, es[0]) + SurplusIn(Next(c, es[0]), es[1..])
  }

  lemma BitAfter(s: Stream, e: Event)
    requires !e.Sweep?
    ensures Bit(Some(Updated(s, e))) ==
            if Bumps(e) then (if s.responseComplete then 0 else 1)
            else if e.BeginHeaders? then 0 else Bit(Some(s))
  {
  }

  lemma CallbackCounts(c: Conn, e: Event)
    requires !e.Sweep? && AllSound(c.streams) && c.active >= Count(c.streams)
    ensures var c' := AfterCallback(c, e);
            && AllSound(c'.streams)
            && c'.active - Count(c'.streams) == c.active - Count(c.streams) + Surplus(c, e)
  {
    if e.id >= 0 {
      var ss, s := WithStream(c.streams, e.id), Subject(c, e.id);
      LookupCounts(c.streams, e.id);
      CountBelowUpdate(ss, e.id, Some(Updated(s, e)), |ss|);
      BitAfter(s, e);
      UpdateIsSound(s, e);
    }
  }

  lemma SweptAtCounts(c: Conn, envs: seq<Env>, i: nat)
    requires i < |c.streams| && AllSound(c.streams) && c.active >= Count(c.streams)
    requires Waiting(c.streams[i]) ==> Processable(c.streams[i].value)
    ensures var c' := SweptAt(c, envs, i);
            && AllSound(c'.streams)
            && c'.active - Count(c'.streams) == c.active - Count(c.streams)
            && c'.active >= Count(c'.streams)
  {
    if Waiting(c.streams[i]) {
      var s := c.streams[i].value;
      ProcessIsSound(s, EnvAt(envs, i));
      CountAtLeast(c.streams, i, |c.streams|);
      CountBelowUpdate(c.streams, i, Some(Process(s, EnvAt(envs, i)).stream), |c.streams|);
    }
  }

  lemma {:induction false} SweptFromCounts(c: Conn, envs: seq<Env>, i: nat)
    requires i <= |c.streams| && AllSound(c.streams) && c.active >= Count(c.streams)
    requires forall j :: i <= j < |c.streams| && Waiting(c.streams[j]) ==> Processable(c.streams[j].value)
    ensures var c' := SweptFrom(c, envs, i);
            && AllSound(c'.streams)
            && c'.active - Count(c'.streams) == c.active - Count(c.streams)
    decreases |c.streams| - i
  {
    if i < |c.streams| {
      SweptAtCounts(c, envs, i);
      SweptFromCounts(SweptAt(c, envs, i), envs, i + 1);
    }
  }

  lemma StepCounts(c: Conn, e: Event)
    requires Enabled(c, e) && AllSound(c.streams) && c.active >= Count(c.streams)
    ensures var c' := Next(c, e);
            && AllSound(c'.streams)
            && c'.active - Count(c'.streams) == c.active - Count(c.streams) + Surplus(c, e)
  {
    if e.Sweep? {
      if c.active > 0 { SweptFromCounts(c, e.envs, 0); }
    } else {
      CallbackCounts(c, e);
    }
  }

  lemma {:induction false} RunCounts(c: Conn, es: seq<Event>)
    requires EnabledRun(c, es) && AllSound(c.streams) && c.active >= Count(c.streams)
    ensures var c' := Run(c, es);
            && AllSound(c'.streams)
            && c'.active - Count(c'.streams) == c.active - Count(c.streams) + SurplusIn(c, es)
    decreases es
  {
    if es != [] {
      StepCounts(c, es[0]);
      RunCounts(Next(c, es[0]), es[1..]);
    }
  }

  /**
   After every run the counter is the number of waiting streams plus one for each surplus
   event: never less, and exactly as documented (src/http2.c:139) just when there was none.
   */
  lemma {:induction false} CounterInEveryRun(es: seq<Event>)
    requires EnabledRun(START, es)
    ensures var c := Run(START, es);
            && c.active == Count(c.streams) + SurplusIn(START, es)
            && (c.active == Count(c.streams) <==> SurplusIn(START, es) == 0)
  {
    RunCounts(START, es);
  }

  /** The guard of the sweep never skips a waiting stream, and its decrement never wraps. */
  lemma {:induction false} GuardSkipsNobody(es: seq<Event>, i: nat)
    requires EnabledRun(START, es) && i < |Run(START, es).streams|
    ensures var c := Run(START, es);
            Waiting(c.streams[i]) ==> c.active > 0 && Decremented(c.active) == c.active - 1
  {
    RunCounts(START, es);
    var c := Run(START, es);
    if Waiting(c.streams[i]) { CountAtLeast(c.streams, i, |c.streams|); }
  }

  /** A request that ends in a data frame bumps the counter twice: chunk and frame callback. */
  lemma DataRequestBumpsTwice()
    ensures var es := [BeginHeaders(1), DataChunk(1, "x", true), FrameRecv(1, DataFrame, true, false, 1)];
            && EnabledRun(START, es)
            && Run(START, es).active == 2 && Count(Run(START, es).streams) == 1
  {
    var a, b, d := BeginHeaders(1), DataChunk(1, "x", true), FrameRecv(1, DataFrame, true, false, 1);
    var c1 := Next(START, a);
    var c2 := Next(c1, b);
    var c3 := Next(c2, d);
    assert c3.active == 2;
    assert [a, b, d][1..] == [b, d] && [b, d][1..] == [d] && [d][1..] == [];
    assert EnabledRun(c3, []) && EnabledRun(c2, [d]) && EnabledRun(c1, [b, d]);
    assert Run(c3, []) == c3 && Run(c2, [d]) == c3 && Run(c1, [b, d]) == c3;
    assert |c3.streams| == 2;
    assert CountBelow(c3.streams, 1) == 0;
  }

  // ---- whole runs of one stream ----

  lemma {:induction false} SweptFromRanks(c: Conn, envs: seq<Env>, i: nat, k: nat)
    requires i <= |c.streams| && AllSound(c.streams) && c.active >= Count(c.streams)
    requires forall j :: i <= j < |c.streams| && Waiting(c.streams[j]) ==> Processable(c.streams[j].value)
    requires k < |c.streams| && c.streams[k].Some?
    ensures var t := SweptFrom(c, envs, i).streams;
            k < |t| && t[k].Some? && Rank(t[k].value.state) >= Rank(c.streams[k].value.state)
    decreases |c.streams| - i
  {
    if i < |c.streams| {
      SweptAtCounts(c, envs, i);
      if i == k && Waiting(c.streams[k]) { ProcessIsSound(c.streams[k].value, EnvAt(envs, k)); }
      SweptFromRanks(SweptAt(c, envs, i), envs, i + 1, k);
    }
  }

  lemma StepRanks(c: Conn, e: Event, k: nat)
    requires Enabled(c, e) && AllSound(c.streams) && c.active >= Count(c.streams)
    requires k < |c.streams| && c.streams[k].Some?
    ensures var t := Next(c, e).streams;
            k < |t| && t[k].Some? && Rank(t[k].value.state) >= Rank(c.streams[k].value.state)
  {
    if e.Sweep? {
      if c.active > 0 { SweptFromRanks(c, e.envs, 0, k); }
    } else if e.id >= 0 {
      LookupCounts(c.streams, e.id);
      var g := Grown(c.streams, e.id);
      assert g[k] == g[..|c.streams|][k];
      UpdateIsSound(Subject(c, e.id), e);
    }
  }

  /** No stream's upstream exchange ever goes back a state. */
  lemma {:induction false} StateNeverGoesBack(c: Conn, es: seq<Event>, k: nat)
    requires EnabledRun(c, es) && AllSound(c.streams) && c.active >= Count(c.streams)
    requires k < |c.streams| && c.streams[k].Some?
    ensures var t := Run(c, es).streams;
            k < |t| && t[k].Some? && Rank(t[k].value.state) >= Rank(c.streams[k].value.state)
    decreases es
  {
    if es != [] {
      StepCounts(c, es[0]);
      StepRanks(c, es[0], k);
      StateNeverGoesBack(Next(c, es[0]), es[1..], k);
    }
  }

  /**
   In every reachable state: a finished response means DONE, what the upstream has accepted
   is a prefix of the assembled request, and a stream that reads has had all of it accepted.
   */
  lemma {:induction false} StreamsInEveryRun(es: seq<Event>, k: nat)
    requires EnabledRun(START, es)
    requires var ss := Run(START, es).streams; k < |ss| && ss[k].Some?
    ensures var s := Run(START, es).streams[k].value;
            && (s.responseComplete ==> s.state == Done)
            && (s.state == Sending && s.request.Some? ==>
                  s.sent <= |s.request.value| && s.accepted == s.request.value[..s.sent])
            && (s.state == Reading ==> s.request == Some(s.accepted) && s.sent == |s.accepted|)
  {
    RunCounts(START, es);
  }

  /** Regular headers are collected in a buffer the request is never assembled from. */
  lemma RegularHeadersNeverForwarded(es: seq<Event>, k: nat)
    requires EnabledRun(START, es)
    requires var ss := Run(START, es).streams; k < |ss| && ss[k].Some? && Nameable(ss[k].value)
    ensures var s := Run(START, es).streams[k].value;
            Assembled(s) == s.verb.value + " " + s.path.value + " HTTP/1.1\r\n" +
                            "Host: " + s.authority.value + CRLF + CRLF + s.body
  {
    RunCounts(START, es);
  }

  /** Answered once, then given a new header block: DONE with no response. */
  predicate Orphaned(c: Conn, k: nat) {
    k < |c.streams| && c.streams[k].Some? && c.streams[k].value.state == Done && !c.streams[k].value.responseComplete
  }

  lemma {:induction false} SweptFromOrphans(c: Conn, envs: seq<Env>, i: nat, k: nat)
    requires i <= |c.streams| && Orphaned(c, k)
    requires forall j :: i <= j < |c.streams| && Waiting(c.streams[j]) ==> Processable(c.streams[j].value)
    ensures Orphaned(SweptFrom(c, envs, i), k)
    decreases |c.streams| - i
  {
    if i < |c.streams| { SweptFromOrphans(SweptAt(c, envs, i), envs, i + 1, k); }
  }

  lemma StepOrphans(c: Conn, e: Event, k: nat)
    requires Enabled(c, e) && Orphaned(c, k)
    ensures Orphaned(Next(c, e), k)
  {
    if e.Sweep? {
      if c.active > 0 { SweptFromOrphans(c, e.envs, 0, k); }
    } else if e.id >= 0 {
      LookupCounts(c.streams, e.id);
      var g := Grown(c.streams, e.id);
      assert g[k] == g[..|c.streams|][k];
    }
  }

  /** Such a stream is never answered again, whatever happens. */
  lemma {:induction false} OrphansStayUnanswered(c: Conn, es: seq<Event>, k: nat)
    requires EnabledRun(c, es) && Orphaned(c, k)
    ensures Orphaned(Run(c, es), k)
    decreases es
  {
    if es != [] {
      StepOrphans(c, es[0], k);
      OrphansStayUnanswered(Next(c, es[0]), es[1..], k);
    }
  }

  // ---- where the sweep goes wrong ----

  /** Its request has yet to be assembled, and from what has not arrived or was reset. */
  predicate Unnameable(s: Option<Stream>) {
    Waiting(s) && s.value.state == Sending && s.value.request == None && !Nameable(s.value)
  }

  /**
   After every run, the next sweep follows no NULL pointer if and only if every waiting
   stream that is about to assemble its request has its method, path and authority.
   */
  lemma {:induction false} SweepReadyExactly(es: seq<Event>)
    requires EnabledRun(START, es)
    ensures var c := Run(START, es);
            SweepReady(c) <==> forall i :: 0 <= i < |c.streams| ==> !Unnameable(c.streams[i])
  {
    RunCounts(START, es);
  }

  lemma {:induction false} RunSnoc(c: Conn, es: seq<Event>, e: Event)
    requires EnabledRun(c, es) && Enabled(Run(c, es), e)
    ensures EnabledRun(c, es + [e]) && Run(c, es + [e]) == Next(Run(c, es), e)
    decreases |es|
  {
    var all := es + [e];
    if es == [] {
      assert all[1..] == [];
    } else {
      assert all[1..] == es[1..] + [e];
      RunSnoc(Next(c, es[0]), es[1..], e);
    }
  }

  /** The connection of one stream, number 1. */
  function Single(s: Stream, active: nat): Conn {
    Conn([None, Some(s)], active)
  }

  lemma SingleCallback(s: Stream, active: nat, e: Event)
    requires !e.Sweep? && e.id == 1
    ensures Next(Single(s, active), e) == Single(Updated(s, e), if Bumps(e) then active + 1 else active)
  {
    assert WithStream([None, Some(s)], 1) == [None, Some(s)];
  }

  lemma FirstCallback()
    ensures Next(START, BeginHeaders(1)) == Single(NEW_STREAM, 0)
  {
    assert Grown([], 1) == [None, None];
    assert WithStream([], 1) == [None, Some(NEW_STREAM)];
  }

  lemma SingleSweep(s: Stream, env: Env)
    requires Waiting(Some(s)) && s.state == Init && env.init == ConnectedAtOnce && env.check == Established
    ensures SweepReady(Single(s, 1)) && Next(Single(s, 1), Sweep([env, env])) == Single(s.(state := Sending), 1)
  {
    var c, envs := Single(s, 1), [env, env];
    assert SweptAt(c, envs, 0) == c;
    var d := SweptAt(c, envs, 1);
    assert d == Single(s.(state := Sending), 1);
    assert SweptFrom(d, envs, 2) == d;
    assert SweptFrom(c, envs, 1) == d;
  }

  /** A request with trailers: the second header block ends it, and resets the pseudo-headers. */
  function WithTrailers(): seq<Event> {
    [BeginHeaders(1)] + [HeaderField(1, ":method", "POST")] + [HeaderField(1, ":path", "/")] +
    [HeaderField(1, ":authority", "h")] + [FrameRecv(1, HeadersFrame, false, true, 9)] +
    [BeginHeaders(1)] + [FrameRecv(1, HeadersFrame, true, true, 9)]
  }

  const CONNECTS: Env := Env(ConnectedAtOnce, Established, [], NothingYet)

  function Named3(): Stream {
    Named(Named(Named(NEW_STREAM, ":method", "POST"), ":path", "/"), ":authority", "h")
  }

  lemma TrailersReset()
    ensures EnabledRun(START, WithTrailers())
    ensures Run(START, WithTrailers()) == Single(NEW_STREAM.(requestComplete := true), 1)
  {
    var e1, e2, e3, e4 := BeginHeaders(1), HeaderField(1, ":method", "POST"), HeaderField(1, ":path", "/"), HeaderField(1, ":authority", "h");
    var e5, e6, e7 := FrameRecv(1, HeadersFrame, false, true, 9), BeginHeaders(1), FrameRecv(1, HeadersFrame, true, true, 9);
    var r1 := [e1];
    RunSnoc(START, [], e1);
    assert [] + [e1] == [e1];
    FirstCallback();
    var s2 := Named(NEW_STREAM, ":method", "POST");
    var s3 := Named(s2, ":path", "/");
    var s4 := Named3();
    RunSnoc(START, r1, e2);
    SingleCallback(NEW_STREAM, 0, e2);
    RunSnoc(START, r1 + [e2], e3);
    SingleCallback(s2, 0, e3);
    RunSnoc(START, r1 + [e2] + [e3], e4);
    SingleCallback(s3, 0, e4);
    RunSnoc(START, r1 + [e2] + [e3] + [e4], e5);
    SingleCallback(s4, 0, e5);
    RunSnoc(START, r1 + [e2] + [e3] + [e4] + [e5], e6);
    SingleCallback(s4, 0, e6);
    ResetIsNew(s4);
    RunSnoc(START, r1 + [e2] + [e3] + [e4] + [e5] + [e6], e7);
    SingleCallback(NEW_STREAM, 0, e7);
  }

  lemma ResetIsNew(s: Stream)
    requires s == Named3()
    ensures Begun(s) == NEW_STREAM
  {
  }

  /** Such a request leads a legal run to a stream whose next sweep would follow a NULL pointer. */
  lemma TrailersStopTheSweep()
    ensures EnabledRun(START, WithTrailers() + [Sweep([CONNECTS, CONNECTS])])
    ensures !SweepReady(Run(START, WithTrailers() + [Sweep([CONNECTS, CONNECTS])]))
  {
    var s := NEW_STREAM.(requestComplete := true);
    TrailersReset();
    SingleSweep(s, CONNECTS);
    RunSnoc(START, WithTrailers(), Sweep([CONNECTS, CONNECTS]));
    var c := Single(s.(state := Sending), 1);
    assert Waiting(c.streams[1]) && !Processable(c.streams[1].value);
  }
}
