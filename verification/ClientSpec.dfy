/**
 The meaning of the client (src/client.cpp): its connection flags, its own receive loop and
 its heartbeat timer, every callback and public call one atomic step.
 */
module ClientSpec {
  import opened Message
  import opened Framing
  import opened Dispatch
  import opened Timing
  import SessionSpec

  datatype Config = Config(order: ByteOrder, routes: Routes, behave: Behaviour, notifyConnect: bool, notifyDisconnect: bool)

  /** `socketClosing` is what `uv_is_closing` says of the handle; `running` that the loop thread exists. */
  datatype State = State(
    buffer: seq<byte>, connected: bool, connecting: bool, armed: bool, lastBeat: int,
    socketClosing: bool, running: bool)

  datatype Effect = Effect(s: State, outs: seq<Out>)

  const NEW_CLIENT := State([], false, false, false, 0, false, false)

  function Join2(e: Effect, f: Effect): Effect {
    Effect(f.s, e.outs + f.outs)
  }

  // ----- Operations -----

  /** Opening a socket fails when the old handle is active; that handle is then closed without a callback. */
  function InitSocket(s: State, active: bool, initOk: bool): (State, seq<Out>, bool) {
    if active then (s.(socketClosing := true), if s.socketClosing then [] else [UvCloseQuietly], false)
    else if !initOk then (s, [], false)
    else (s.(socketClosing := false), [], true)
  }

  function Connect(s: State, active: bool, initOk: bool, connectOk: bool): Effect {
    if s.connected || s.connecting then Effect(s, [])
    else
      var (t, outs, ok) := InitSocket(s, active, initOk);
      if !ok then Effect(t, outs) else Effect(t.(connecting := connectOk), outs)
  }

  function Disconnect(s: State): Effect {
    if !s.connected && !s.connecting then Effect(s, [])
    else Effect(s.(connected := false, connecting := false, armed := false, socketClosing := true),
                if s.socketClosing then [] else [UvClose])
  }

  function OnConnect(c: Config, s: State, now: int, ok: bool, readOk: bool): Effect {
    if !ok then Effect(s.(connecting := false), [])
    else if !readOk then Disconnect(s.(connecting := false))
    else Effect(s.(connected := true, connecting := false, armed := true, lastBeat := now), [Connected(c.notifyConnect)])
  }

  function OnClose(c: Config, s: State): Effect {
    Effect(s.(connected := false, connecting := false, armed := false), [Closed(c.notifyDisconnect)])
  }

  function Send(s: State, m: Msg): Effect {
    Effect(s, if s.connected then [Write(m)] else [])
  }

  function OnTimer(s: State, now: int): Effect {
    if ElapsedMs(s.lastBeat, now) > HEARTBEAT_TIMEOUT_MS then Disconnect(s)
    else Send(s, Msg(HEARTBEAT, [], 0))
  }

  function Act(s: State, a: Action): Effect {
    match a
    case Reply(m) => Send(s, m)
    case HangUp => Disconnect(s)
  }

  function React(s: State, acts: seq<Action>): Effect
    decreases |acts|
  {
    if acts == [] then Effect(s, [])
    else var e := Act(s, acts[0]); Join2(e, React(e.s, acts[1..]))
  }

  /** Unlike the session, the client has no case of its own for HEARTBEAT packets. */
  function Handle(c: Config, s: State, m: Msg): Effect {
    match Route(c.routes, m)
    case None => Effect(s, [])
    case Some(h) => Join2(Effect(s, [Call(h, m)]), React(s, c.behave(h, m)))
  }

  function HandleAll(c: Config, s: State, msgs: seq<Msg>): Effect
    decreases |msgs|
  {
    if msgs == [] then Effect(s, [])
    else var e := Handle(c, s, msgs[0]); Join2(e, HandleAll(c, e.s, msgs[1..]))
  }

  function Process(c: Config, s: State): Effect {
    var d := Drain(c.order, s.buffer);
    var e := HandleAll(c, s, d.msgs);
    e.(s := e.s.(buffer := d.rest))
  }

  function Append(c: Config, s: State, chunk: seq<byte>): Effect {
    Process(c, s.(buffer := s.buffer + chunk))
  }

  // ----- Runs -----

  datatype Event =
    | Read(chunk: seq<byte>) | ReadFailed | WriteDone(ok: bool) | CloseDone | Tick | SendCall(m: Msg)
    | ConnectCall(active: bool, initOk: bool, connectOk: bool) | ConnectDone(success: bool, readOk: bool)
    | DisconnectCall | StartLoop | StopLoop

  type Moment = Timed<Event>

  /** A callback of libuv; the other events are public calls. */
  predicate FromLibuv(e: Event) {
    e.Read? || e.ReadFailed? || e.WriteDone? || e.CloseDone? || e.Tick? || e.ConnectDone?
  }

  function Step(c: Config, s: State, t: Moment): Effect {
    match t.event
    case Read(chunk) => if chunk == [] then Effect(s, []) else Append(c, s, chunk)
    case ReadFailed => Disconnect(s)
    case WriteDone(ok) => if ok then Effect(s, []) else Disconnect(s)
    case CloseDone => OnClose(c, s)
    case Tick => if s.armed then OnTimer(s, t.at) else Effect(s, [])
    case SendCall(m) => Send(s, m)
    case ConnectCall(active, initOk, connectOk) => Connect(s, active, initOk, connectOk)
    case ConnectDone(success, readOk) => OnConnect(c, s, t.at, success, readOk)
    case DisconnectCall => Disconnect(s)
    case StartLoop => Effect(s.(running := true), [])
    case StopLoop => Effect(if s.running then s.(running := false, armed := false) else s, [])
  }

  function Run(c: Config, s: State, ts: seq<Moment>): Effect
    decreases |ts|
  {
    if ts == [] then Effect(s, [])
    else var e := Step(c, s, ts[0]); Join2(e, Run(c, e.s, ts[1..]))
  }

  // ----- The connection flags over every run -----

  /** Never connected and connecting at once; an armed timer only while connected. */
  ghost predicate Consistent(s: State) {
    && !(s.connected && s.connecting)
    && (s.armed ==> s.connected)
  }

  /** What handling packets may change: a handler can only disconnect. */
  ghost predicate OnlyDisconnects(s: State, t: State) {
    && (Consistent(s) ==> Consistent(t))
    && t.lastBeat == s.lastBeat && t.buffer == s.buffer && t.running == s.running
    && (t.connected ==> s.connected && t.armed == s.armed)
    && (!s.connected && !s.connecting ==> t == s)
  }

  lemma {:induction false} ReactDisconnects(s: State, acts: seq<Action>)
    ensures OnlyDisconnects(s, React(s, acts).s)
    decreases |acts|
  {
    if acts != [] {
      ReactDisconnects(Act(s, acts[0]).s, acts[1..]);
    }
  }

  lemma {:induction false} HandleAllDisconnects(c: Config, s: State, msgs: seq<Msg>)
    ensures OnlyDisconnects(s, HandleAll(c, s, msgs).s)
    decreases |msgs|
  {
    if msgs != [] {
      var e := Handle(c, s, msgs[0]);
      HandleDisconnects(c, s, msgs[0]);
      HandleAllDisconnects(c, e.s, msgs[1..]);
    }
  }

  lemma HandleDisconnects(c: Config, s: State, m: Msg)
    ensures OnlyDisconnects(s, Handle(c, s, m).s)
  {
    if Route(c.routes, m).Some? {
      ReactDisconnects(s, c.behave(Route(c.routes, m).value, m));
    }
  }

  lemma AppendDisconnects(c: Config, s: State, chunk: seq<byte>)
    ensures var s' := s.(buffer := s.buffer + chunk);
            var t := Append(c, s, chunk).s;
            OnlyDisconnects(s'.(buffer := t.buffer), t)
  {
    var s' := s.(buffer := s.buffer + chunk);
    HandleAllDisconnects(c, s', Drain(c.order, s'.buffer).msgs);
  }

  /** An event that makes a connection: a connect callback that succeeds and can start reading. */
  predicate Makes(t: Moment) {
    t.event.ConnectDone? && t.event.success && t.event.readOk
  }

  /** What one event does to the flags, the clock of the timeout, the loop flag and the timer. */
  ghost predicate Framed(s: State, t: Moment, u: State) {
    && Consistent(u)
    && u.lastBeat == (if Makes(t) then t.at else s.lastBeat)
    && u.running == (t.event.StartLoop? || (s.running && !t.event.StopLoop?))
    && (Makes(t) ==> u.connected && u.armed)
    && (!Makes(t) && u.connected ==> s.connected && u.armed == (s.armed && !(t.event.StopLoop? && s.running)))
  }

  lemma ReadFramed(c: Config, s: State, t: Moment)
    requires Consistent(s) && t.event.Read?
    ensures Framed(s, t, Step(c, s, t).s)
  {
    AppendDisconnects(c, s, t.event.chunk);
  }

  lemma CallbackFramed(c: Config, s: State, t: Moment)
    requires Consistent(s)
    requires FromLibuv(t.event) && !t.event.Read?
    ensures Framed(s, t, Step(c, s, t).s)
  {
  }

  lemma PublicCallFramed(c: Config, s: State, t: Moment)
    requires Consistent(s)
    requires !FromLibuv(t.event)
    ensures Framed(s, t, Step(c, s, t).s)
  {
  }

  lemma StepFrame(c: Config, s: State, t: Moment)
    requires Consistent(s)
    ensures Framed(s, t, Step(c, s, t).s)
  {
    if t.event.Read? {
      ReadFramed(c, s, t);
    } else if !FromLibuv(t.event) {
      PublicCallFramed(c, s, t);
    } else {
      CallbackFramed(c, s, t);
    }
  }

  /** Over every interleaving of calls and callbacks the flags and the timer agree. */
  lemma {:induction false} AlwaysConsistent(c: Config, s: State, ts: seq<Moment>)
    requires Consistent(s)
    ensures Consistent(Run(c, s, ts).s)
    decreases |ts|
  {
    if ts != [] {
      StepFrame(c, s, ts[0]);
      AlwaysConsistent(c, Step(c, s, ts[0]).s, ts[1..]);
    }
  }

  // ----- Dispatch over a whole run -----

  lemma {:induction false} ReactCallsNothing(s: State, acts: seq<Action>)
    ensures Calls(React(s, acts).outs) == []
    decreases |acts|
  {
    if acts != [] {
      var e := Act(s, acts[0]);
      ReactCallsNothing(e.s, acts[1..]);
      CallsAppend(e.outs, React(e.s, acts[1..]).outs);
    }
  }

  lemma HandleCalls(c: Config, s: State, m: Msg)
    ensures Calls(Handle(c, s, m).outs) == DeliverOne(Route(c.routes, m), m)
  {
    if Route(c.routes, m).Some? {
      var h := Route(c.routes, m).value;
      ReactCallsNothing(s, c.behave(h, m));
      CallsAppend([Call(h, m)], React(s, c.behave(h, m)).outs);
    }
  }

  lemma {:induction false} HandleAllCalls(c: Config, s: State, msgs: seq<Msg>)
    ensures Calls(HandleAll(c, s, msgs).outs) == Deliver(ClientRouter(c.routes), msgs)
    decreases |msgs|
  {
    if msgs != [] {
      var e := Handle(c, s, msgs[0]);
      HandleCalls(c, s, msgs[0]);
      HandleAllCalls(c, e.s, msgs[1..]);
      CallsAppend(e.outs, HandleAll(c, e.s, msgs[1..]).outs);
    }
  }

  function Chunks(ts: seq<Moment>): seq<seq<byte>> {
    if ts == [] then []
    else if ts[0].event.Read? && ts[0].event.chunk != [] then [ts[0].event.chunk] + Chunks(ts[1..])
    else Chunks(ts[1..])
  }

  /**
   Over a whole run, through disconnects, failures and new connections, the handlers called
   are those the fed bytes ask for.  Nothing but reading touches the buffer: what one
   connection leaves in it the next one starts with.
   */
  lemma {:induction false} RunDispatches(c: Config, s: State, ts: seq<Moment>)
    ensures var e := Run(c, s, ts); var f := Feed(c.order, s.buffer, Chunks(ts));
            && Calls(e.outs) == Deliver(ClientRouter(c.routes), f.msgs)
            && e.s.buffer == f.rest
    decreases |ts|
  {
    if ts != [] {
      var e := Step(c, s, ts[0]);
      StepDispatches(c, s, ts[0]);
      RunDispatches(c, e.s, ts[1..]);
      CallsAppend(e.outs, Run(c, e.s, ts[1..]).outs);
      if ts[0].event.Read? && ts[0].event.chunk != [] {
        var d := Drain(c.order, s.buffer + ts[0].event.chunk);
        assert Chunks(ts)[1..] == Chunks(ts[1..]);
        DeliverAppend(ClientRouter(c.routes), d.msgs, Feed(c.order, d.rest, Chunks(ts[1..])).msgs);
      }
    }
  }

  lemma StepDispatches(c: Config, s: State, t: Moment)
    ensures var e := Step(c, s, t);
            if t.event.Read? && t.event.chunk != [] then
              var d := Drain(c.order, s.buffer + t.event.chunk);
              Calls(e.outs) == Deliver(ClientRouter(c.routes), d.msgs) && e.s.buffer == d.rest
            else Calls(e.outs) == [] && e.s.buffer == s.buffer
  {
    if t.event.Read? && t.event.chunk != [] {
      AppendDispatches(c, s, t.event.chunk);
    } else {
      QuietStep(c, s, t);
    }
  }

  /** No handler is called and the buffer stays. */
  ghost predicate Quiet(s: State, e: Effect) {
    Calls(e.outs) == [] && e.s.buffer == s.buffer
  }

  lemma OneOutQuiet(o: Out)
    requires !o.Call?
    ensures Calls([o]) == []
  {
    assert [o][1..] == [];
  }

  lemma DisconnectQuiet(s: State)
    ensures Quiet(s, Disconnect(s))
  {
    OneOutQuiet(UvClose);
  }

  lemma ConnectQuiet(s: State, active: bool, initOk: bool, connectOk: bool)
    ensures Quiet(s, Connect(s, active, initOk, connectOk))
  {
    OneOutQuiet(UvCloseQuietly);
  }

  lemma OnConnectQuiet(c: Config, s: State, now: int, ok: bool, readOk: bool)
    ensures Quiet(s, OnConnect(c, s, now, ok, readOk))
  {
    DisconnectQuiet(s.(connecting := false));
    OneOutQuiet(Connected(c.notifyConnect));
  }

  lemma CallbackQuiet(c: Config, s: State, t: Moment)
    requires FromLibuv(t.event) && !t.event.Read?
    ensures Quiet(s, Step(c, s, t))
  {
    DisconnectQuiet(s);
    OneOutQuiet(Write(Msg(HEARTBEAT, [], 0)));
    OneOutQuiet(Closed(c.notifyDisconnect));
    if t.event.ConnectDone? {
      OnConnectQuiet(c, s, t.at, t.event.success, t.event.readOk);
    }
  }

  lemma PublicCallQuiet(c: Config, s: State, t: Moment)
    requires !FromLibuv(t.event)
    ensures Quiet(s, Step(c, s, t))
  {
    match t.event
    case SendCall(m) => OneOutQuiet(Write(m));
    case ConnectCall(active, initOk, connectOk) => ConnectQuiet(s, active, initOk, connectOk);
    case DisconnectCall => DisconnectQuiet(s);
    case _ =>
  }

  lemma QuietStep(c: Config, s: State, t: Moment)
    requires !(t.event.Read? && t.event.chunk != [])
    ensures Quiet(s, Step(c, s, t))
  {
    if !FromLibuv(t.event) {
      PublicCallQuiet(c, s, t);
    } else if !t.event.Read? {
      CallbackQuiet(c, s, t);
    }
  }

  lemma AppendDispatches(c: Config, s: State, chunk: seq<byte>)
    ensures var e, d := Append(c, s, chunk), Drain(c.order, s.buffer + chunk);
            Calls(e.outs) == Deliver(ClientRouter(c.routes), d.msgs) && e.s.buffer == d.rest
  {
    HandleAllCalls(c, s.(buffer := s.buffer + chunk), Drain(c.order, s.buffer + chunk).msgs);
  }

  // ----- The client's receive loop and the session's -----

  /** Calls other than those for HEARTBEAT packets. */
  function WithoutHeartbeats(calls: seq<(nat, Msg)>): seq<(nat, Msg)> {
    if calls == [] then []
    else (if calls[0].1.kind == HEARTBEAT then [] else [calls[0]]) + WithoutHeartbeats(calls[1..])
  }

  /**
   From the same buffer, with the same callbacks, the two loops keep the same bytes and call
   the same handlers for the same packets, apart from the HEARTBEATs a session swallows.
   This covers every buffer and chunk, bad versions included.
   */
  lemma LoopsAgree(c: Config, s: State, sc: SessionSpec.Config, ss: SessionSpec.State, chunk: seq<byte>, now: int)
    requires c.order == sc.order && c.routes == sc.routes && s.buffer == ss.buffer
    requires SessionSpec.Linked(ss)
    ensures var e, f := Append(c, s, chunk), SessionSpec.Append(sc, ss, now, chunk);
            && e.s.buffer == f.s.buffer
            && Calls(f.outs) == WithoutHeartbeats(Calls(e.outs))
  {
    var msgs := Drain(c.order, s.buffer + chunk).msgs;
    HandleAllCalls(c, s.(buffer := s.buffer + chunk), msgs);
    SessionSpec.HandleAllCalls(sc, ss.(buffer := ss.buffer + chunk), now, msgs);
    assert Calls(Append(c, s, chunk).outs) == Deliver(ClientRouter(c.routes), msgs);
    assert Calls(SessionSpec.Append(sc, ss, now, chunk).outs) == Deliver(SessionRouter(sc.routes), msgs);
    DeliverWithoutHeartbeats(c.routes, msgs);
  }

  lemma {:induction false} DeliverWithoutHeartbeats(r: Routes, msgs: seq<Msg>)
    ensures Deliver(SessionRouter(r), msgs) == WithoutHeartbeats(Deliver(ClientRouter(r), msgs))
  {
    if msgs != [] {
      var route := ClientRouter(r);
      var one, more := DeliverOne(route(msgs[0]), msgs[0]), Deliver(route, msgs[1..]);
      DeliverWithoutHeartbeats(r, msgs[1..]);
      if one == [] {
        assert one + more == more;
      } else {
        assert (one + more)[1..] == more;
      }
    }
  }

  // ----- The receive loop, one frame at a time -----

  lemma {:induction false} ReactBuffer(s: State, acts: seq<Action>, b: seq<byte>)
    ensures var e := React(s, acts);
            React(s.(buffer := b), acts) == Effect(e.s.(buffer := b), e.outs)
    decreases |acts|
  {
    if acts != [] {
      ReactBuffer(Act(s, acts[0]).s, acts[1..], b);
    }
  }

  lemma HandleBuffer(c: Config, s: State, m: Msg, b: seq<byte>)
    ensures var e := Handle(c, s, m);
            Handle(c, s.(buffer := b), m) == Effect(e.s.(buffer := b), e.outs)
  {
    if Route(c.routes, m).Some? {
      ReactBuffer(s, c.behave(Route(c.routes, m).value, m), b);
    }
  }

  lemma {:induction false} HandleAllBuffer(c: Config, s: State, msgs: seq<Msg>, b: seq<byte>)
    ensures var e := HandleAll(c, s, msgs);
            HandleAll(c, s.(buffer := b), msgs) == Effect(e.s.(buffer := b), e.outs)
    decreases |msgs|
  {
    if msgs != [] {
      HandleBuffer(c, s, msgs[0], b);
      HandleAllBuffer(c, Handle(c, s, msgs[0]).s, msgs[1..], b);
    }
  }

  /** Handles the frame at the front of the buffer and erases it. */
  function Consume(c: Config, s: State): Effect
    requires !Idle(c.order, s.buffer)
  {
    var e := Handle(c, s, Decode(c.order, s.buffer));
    Effect(e.s.(buffer := s.buffer[FrameSize(c.order, s.buffer)..]), e.outs)
  }

  lemma ProcessStep(c: Config, s: State)
    requires !Idle(c.order, s.buffer) && s.buffer[0] == PROTOCOL_VERSION
    ensures var e := Consume(c, s); Process(c, s) == Join2(e, Process(c, e.s))
  {
    var m, more := Decode(c.order, s.buffer), s.buffer[FrameSize(c.order, s.buffer)..];
    var e := Handle(c, s, m);
    var d := Drain(c.order, more);
    assert Drain(c.order, s.buffer).msgs == [m] + d.msgs;
    assert ([m] + d.msgs)[1..] == d.msgs;
    HandleAllBuffer(c, e.s, d.msgs, more);
  }

  /** Part of the way through a pass: what has been done, then the pass over what is left, makes the whole pass. */
  ghost predicate Pending(c: Config, whole: Effect, s: State, outs: seq<Out>) {
    whole == Join2(Effect(s, outs), Process(c, s))
  }

  lemma PendingStep(c: Config, whole: Effect, s: State, outs: seq<Out>)
    requires !Idle(c.order, s.buffer) && s.buffer[0] == PROTOCOL_VERSION
    requires Pending(c, whole, s, outs)
    ensures var e := Consume(c, s);
            |e.s.buffer| < |s.buffer| && Pending(c, whole, e.s, outs + e.outs)
  {
    var e := Consume(c, s);
    ProcessStep(c, s);
    var more := Process(c, e.s).outs;
    assert outs + (e.outs + more) == outs + e.outs + more;
  }

  lemma PendingDone(c: Config, whole: Effect, s: State, outs: seq<Out>)
    requires Pending(c, whole, s, outs)
    ensures Idle(c.order, s.buffer) ==> whole == Effect(s, outs)
    ensures !Idle(c.order, s.buffer) && s.buffer[0] != PROTOCOL_VERSION ==> whole == Effect(s.(buffer := []), outs)
  {
    assert outs + [] == outs;
  }
}
