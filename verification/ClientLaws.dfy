/**
 What the client does, event by event and over whole runs, said without its operations
 (src/client.cpp:69-260, 286-346): when it is connected, what it writes, when its handle is
 closed, what it reports, and which handlers it calls.
 */
module ClientLaws {
  import opened Message
  import opened Framing
  import opened Dispatch
  import opened Timing
  import opened ClientSpec
  import ClientSockets
  import SessionSpec

  // ----- What the handlers of one read do -----

  predicate Busy(s: State) {
    s.connected || s.connecting
  }

  /** The calls the packets completed by a read ask for. */
  function ReadCalls(c: Config, buffer: seq<byte>, chunk: seq<byte>): seq<(nat, Msg)> {
    if chunk == [] then [] else Deliver(ClientRouter(c.routes), Drain(c.order, buffer + chunk).msgs)
  }

  function ReadActs(c: Config, buffer: seq<byte>, chunk: seq<byte>): seq<Action> {
    Acts(c.behave, ReadCalls(c, buffer, chunk))
  }

  /** A close of the handle is issued exactly when it becomes closed. */
  ghost predicate ClosesOnce(s: State, e: Effect) {
    && (s.socketClosing ==> e.s.socketClosing)
    && Count(e.outs, UvClose) == One(!s.socketClosing && e.s.socketClosing)
  }

  /** A connected client carries out replies up to the first hang-up, which ends the connection or the attempt. */
  ghost predicate Performs(s: State, acts: seq<Action>, e: Effect) {
    && (e.s.connected <==> s.connected && !HangsUp(acts))
    && (e.s.connecting <==> s.connecting && !HangsUp(acts))
    && (e.s.socketClosing <==> s.socketClosing || (Busy(s) && HangsUp(acts)))
    && Written(e.outs) == (if s.connected then Replies(acts) else [])
    && ClosesOnce(s, e) && SessionSpec.Everyday(e.outs)
  }

  lemma PerformsJoin(s: State, a: seq<Action>, e: Effect, b: seq<Action>, f: Effect)
    requires Performs(s, a, e) && Performs(e.s, b, f)
    ensures Performs(s, a + b, Join2(e, f))
  {
    RepliesAppend(a, b);
    WrittenAppend(e.outs, f.outs);
    CountAppend(e.outs, f.outs, UvClose);
  }

  lemma ActPerforms(s: State, a: Action)
    ensures Performs(s, [a], Act(s, a))
  {
    assert [a][1..] == [];
    match a
    case Reply(m) =>
      WrittenSingle(Write(m));
      CountSingle(Write(m), UvClose);
    case HangUp =>
      WrittenSingle(UvClose);
      CountSingle(UvClose, UvClose);
  }

  lemma {:induction false} ReactPerforms(s: State, acts: seq<Action>)
    ensures Performs(s, acts, React(s, acts))
    decreases |acts|
  {
    if acts != [] {
      var e := Act(s, acts[0]);
      ActPerforms(s, acts[0]);
      ReactPerforms(e.s, acts[1..]);
      PerformsJoin(s, [acts[0]], e, acts[1..], React(e.s, acts[1..]));
      FirstAndRest(acts);
    }
  }

  lemma CallPerforms(c: Config, s: State, h: nat, m: Msg)
    ensures Performs(s, c.behave(h, m), Join2(Effect(s, [Call(h, m)]), React(s, c.behave(h, m))))
  {
    var acts := c.behave(h, m);
    ReactPerforms(s, acts);
    WrittenSingle(Call(h, m));
    CountSingle(Call(h, m), UvClose);
    PerformsJoin(s, [], Effect(s, [Call(h, m)]), acts, React(s, acts));
    assert [] + acts == acts;
  }

  lemma HandlePerforms(c: Config, s: State, m: Msg)
    ensures Performs(s, Acts(c.behave, DeliverOne(Route(c.routes, m), m)), Handle(c, s, m))
  {
    var route := Route(c.routes, m);
    if route.Some? {
      CallPerforms(c, s, route.value, m);
      OneAct(c.behave, (route.value, m));
    }
  }

  lemma {:induction false} HandleAllPerforms(c: Config, s: State, msgs: seq<Msg>)
    ensures Performs(s, Acts(c.behave, Deliver(ClientRouter(c.routes), msgs)), HandleAll(c, s, msgs))
    decreases |msgs|
  {
    if msgs != [] {
      var e := Handle(c, s, msgs[0]);
      var one, more := DeliverOne(Route(c.routes, msgs[0]), msgs[0]), Deliver(ClientRouter(c.routes), msgs[1..]);
      HandlePerforms(c, s, msgs[0]);
      HandleAllPerforms(c, e.s, msgs[1..]);
      PerformsJoin(s, Acts(c.behave, one), e, Acts(c.behave, more), HandleAll(c, e.s, msgs[1..]));
      ActsAppend(c.behave, one, more);
    }
  }

  /** A read carries out all that the handlers it calls ask for. */
  lemma ReadPerforms(c: Config, s: State, t: Moment)
    requires t.event.Read?
    ensures Performs(s, ReadActs(c, s.buffer, t.event.chunk), Step(c, s, t))
  {
    var chunk := t.event.chunk;
    if chunk != [] {
      HandleAllPerforms(c, s.(buffer := s.buffer + chunk), Drain(c.order, s.buffer + chunk).msgs);
    }
  }

  /** Handling a list of packets is handling its first part and then its second, with all effects in that order. */
  lemma {:induction false} HandleAllSplit(c: Config, s: State, a: seq<Msg>, b: seq<Msg>)
    ensures HandleAll(c, s, a + b) == Join2(HandleAll(c, s, a), HandleAll(c, HandleAll(c, s, a).s, b))
    decreases |a|
  {
    if a == [] {
      assert a + b == b;
    } else {
      var e := Handle(c, s, a[0]);
      assert (a + b)[0] == a[0] && (a + b)[1..] == a[1..] + b;
      HandleAllSplit(c, e.s, a[1..], b);
      var f := HandleAll(c, e.s, a[1..]);
      Assoc(e.outs, f.outs, HandleAll(c, f.s, b).outs);
    }
  }

  /** A packet's handler is called before anything it does takes effect. */
  lemma CallComesFirst(c: Config, s: State, m: Msg)
    ensures var outs := Handle(c, s, m).outs;
            if Route(c.routes, m).Some? then outs != [] && outs[0] == Call(Route(c.routes, m).value, m) else outs == []
  {
  }

  // ----- When the client is connected -----

  /** A firing that finds the timer armed and the connection 90001 ms old. */
  predicate Late(s: State, t: Moment) {
    t.event.Tick? && s.armed && t.at - s.lastBeat >= TIMEOUT_TICKS
  }

  /** The events that make the client disconnect. */
  predicate Ends(c: Config, s: State, t: Moment) {
    || t.event.ReadFailed?
    || (t.event.WriteDone? && !t.event.ok)
    || t.event.DisconnectCall?
    || Late(s, t)
    || (t.event.Read? && HangsUp(ReadActs(c, s.buffer, t.event.chunk)))
  }

  /** A success whose reading cannot start also ends a connection, if there were one. */
  predicate EndsConnection(c: Config, s: State, t: Moment) {
    Ends(c, s, t) || t.event.CloseDone? || ClientSockets.ReadStartFails(t)
  }

  /** An idle client whose handle is inactive begins an attempt, if libuv agrees. */
  predicate Attempts(s: State, t: Moment) {
    t.event.ConnectCall? && !Busy(s) && !t.event.active && t.event.initOk && t.event.connectOk
  }

  ghost predicate ConnectedLaw(c: Config, s: State, t: Moment, u: State) {
    && (u.connected <==> Makes(t) || (s.connected && !EndsConnection(c, s, t)))
    && (u.connecting <==> Attempts(s, t) || (s.connecting && !Ends(c, s, t) && !t.event.CloseDone? && !t.event.ConnectDone?))
  }

  lemma CallbackConnected(c: Config, s: State, t: Moment)
    requires Consistent(s) && FromLibuv(t.event) && !t.event.Read?
    ensures ConnectedLaw(c, s, t, Step(c, s, t).s)
  {
  }

  lemma PublicCallConnected(c: Config, s: State, t: Moment)
    requires !FromLibuv(t.event)
    ensures ConnectedLaw(c, s, t, Step(c, s, t).s)
  {
  }

  /**
   The client is connected after an event exactly when the event makes a connection, or it was
   connected and the event does not end it; and it is connecting exactly when the event begins
   an attempt, or it was connecting and the event neither answers nor ends it.
   */
  lemma StepConnectedExact(c: Config, s: State, t: Moment)
    requires Consistent(s)
    ensures ConnectedLaw(c, s, t, Step(c, s, t).s)
  {
    if t.event.Read? {
      ReadPerforms(c, s, t);
    } else if FromLibuv(t.event) {
      CallbackConnected(c, s, t);
    } else {
      PublicCallConnected(c, s, t);
    }
  }

  /** A connection made has not been ended since. */
  predicate ConnectedSince(c: Config, s: State, connected: bool, ts: seq<Moment>)
    decreases |ts|
  {
    if ts == [] then connected
    else ConnectedSince(c, Step(c, s, ts[0]).s, Makes(ts[0]) || (connected && !EndsConnection(c, s, ts[0])), ts[1..])
  }

  lemma {:induction false} RunConnectedExact(c: Config, s: State, ts: seq<Moment>)
    requires Consistent(s)
    ensures Run(c, s, ts).s.connected <==> ConnectedSince(c, s, s.connected, ts)
    decreases |ts|
  {
    if ts != [] {
      StepFrame(c, s, ts[0]);
      StepConnectedExact(c, s, ts[0]);
      RunConnectedExact(c, Step(c, s, ts[0]).s, ts[1..]);
    }
  }

  // ----- When its handle is closed -----

  /** The events that close an open handle. */
  predicate Shuts(c: Config, s: State, t: Moment) {
    || (Busy(s) && Ends(c, s, t))
    || (s.connected && ClientSockets.ReadStartFails(t))
    || (!Busy(s) && t.event.ConnectCall? && t.event.active)
  }

  ghost predicate SocketLaw(c: Config, s: State, t: Moment, e: Effect) {
    var closed := One(!s.socketClosing && Shuts(c, s, t));
    && (e.s.socketClosing <==> (s.socketClosing || Shuts(c, s, t)) && !ClientSockets.Initialises(s, t))
    && Count(e.outs, UvClose) == (if t.event.ConnectCall? then 0 else closed)
    && Count(e.outs, UvCloseQuietly) == (if t.event.ConnectCall? then closed else 0)
  }

  /**
   The handle is closed after an event exactly when it was or the event shuts it, and the
   event does not initialise it; each change to closed costs one `uv_close`, which has no
   callback exactly when it is a new attempt that shuts an active handle.
   */
  lemma StepSocketExact(c: Config, s: State, t: Moment)
    requires Consistent(s)
    ensures SocketLaw(c, s, t, Step(c, s, t))
  {
    if t.event.Read? {
      ReadPerforms(c, s, t);
      SessionSpec.EverydayCount(Step(c, s, t).outs, UvCloseQuietly);
    } else if t.event.ConnectDone? {
      ConnectDoneSocket(c, s, t);
    } else if FromLibuv(t.event) {
      CallbackSocket(c, s, t);
    } else {
      PublicCallSocket(c, s, t);
    }
  }

  lemma Closing(o: Out)
    ensures Count([o], UvClose) == One(o == UvClose) && Count([o], UvCloseQuietly) == One(o == UvCloseQuietly)
  {
    CountSingle(o, UvClose);
    CountSingle(o, UvCloseQuietly);
  }

  lemma ConnectDoneSocket(c: Config, s: State, t: Moment)
    requires t.event.ConnectDone?
    ensures SocketLaw(c, s, t, Step(c, s, t))
  {
    Closing(UvClose);
    Closing(Connected(c.notifyConnect));
  }

  /** Disconnecting a busy client closes an open handle. */
  lemma DisconnectSocket(s: State)
    ensures var e := Disconnect(s);
            && (e.s.socketClosing <==> s.socketClosing || Busy(s))
            && Count(e.outs, UvClose) == One(!s.socketClosing && Busy(s)) && Count(e.outs, UvCloseQuietly) == 0
  {
    Closing(UvClose);
  }

  lemma TickSocket(c: Config, s: State, t: Moment)
    requires Consistent(s) && t.event.Tick?
    ensures SocketLaw(c, s, t, Step(c, s, t))
  {
    DisconnectSocket(s);
    Closing(Write(Msg(HEARTBEAT, [], 0)));
  }

  lemma CallbackSocket(c: Config, s: State, t: Moment)
    requires Consistent(s) && FromLibuv(t.event) && !t.event.Read? && !t.event.ConnectDone?
    ensures SocketLaw(c, s, t, Step(c, s, t))
  {
    if t.event.Tick? {
      TickSocket(c, s, t);
    } else if t.event.CloseDone? {
      Closing(Closed(c.notifyDisconnect));
    } else {
      DisconnectSocket(s);
    }
  }

  lemma PublicCallSocket(c: Config, s: State, t: Moment)
    requires !FromLibuv(t.event)
    ensures SocketLaw(c, s, t, Step(c, s, t))
  {
    Closing(UvCloseQuietly);
    if t.event.SendCall? {
      Closing(Write(t.event.m));
    } else if t.event.DisconnectCall? {
      DisconnectSocket(s);
    }
  }

  // ----- What it reports -----

  /** The connect handler is called exactly for a connection made, and the disconnect handler exactly for a close callback. */
  lemma StepReportsExact(c: Config, s: State, t: Moment, notified: bool)
    ensures var outs := Step(c, s, t).outs;
            && Count(outs, Connected(notified)) == One(Makes(t) && notified == c.notifyConnect)
            && Count(outs, Closed(notified)) == One(t.event.CloseDone? && notified == c.notifyDisconnect)
  {
    var outs := Step(c, s, t).outs;
    if Makes(t) {
      CountSingle(Connected(c.notifyConnect), Connected(notified));
      CountSingle(Connected(c.notifyConnect), Closed(notified));
    } else if t.event.CloseDone? {
      CountSingle(Closed(c.notifyDisconnect), Connected(notified));
      CountSingle(Closed(c.notifyDisconnect), Closed(notified));
    } else {
      NoReport(c, s, t, Connected(notified));
      NoReport(c, s, t, Closed(notified));
    }
  }

  lemma NoReport(c: Config, s: State, t: Moment, o: Out)
    requires !Makes(t) && !t.event.CloseDone? && (o.Connected? || o.Closed?)
    ensures Count(Step(c, s, t).outs, o) == 0
  {
    if t.event.Read? {
      ReadPerforms(c, s, t);
      SessionSpec.EverydayCount(Step(c, s, t).outs, o);
    } else {
      CountSingle(UvClose, o);
      CountSingle(UvCloseQuietly, o);
      CountSingle(Write(if t.event.SendCall? then t.event.m else Msg(HEARTBEAT, [], 0)), o);
    }
  }

  function Connections(ts: seq<Moment>): nat {
    if ts == [] then 0 else One(Makes(ts[0])) + Connections(ts[1..])
  }

  function CloseCallbacks(ts: seq<Moment>): nat {
    if ts == [] then 0 else One(ts[0].event.CloseDone?) + CloseCallbacks(ts[1..])
  }

  /** Over a run the handlers that are set are called once for each connection made and each close callback, and others never. */
  lemma {:induction false} RunReportsExact(c: Config, s: State, ts: seq<Moment>, notified: bool)
    ensures var outs := Run(c, s, ts).outs;
            && Count(outs, Connected(notified)) == (if notified == c.notifyConnect then Connections(ts) else 0)
            && Count(outs, Closed(notified)) == (if notified == c.notifyDisconnect then CloseCallbacks(ts) else 0)
    decreases |ts|
  {
    if ts != [] {
      var e := Step(c, s, ts[0]);
      StepReportsExact(c, s, ts[0], notified);
      RunReportsExact(c, e.s, ts[1..], notified);
      CountAppend(e.outs, Run(c, e.s, ts[1..]).outs, Connected(notified));
      CountAppend(e.outs, Run(c, e.s, ts[1..]).outs, Closed(notified));
    }
  }

  // ----- What it writes -----

  /** What an event makes a connected client write: what it is given to send, a HEARTBEAT for a firing in time, its handlers' replies. */
  function Due(c: Config, s: State, t: Moment): seq<Msg> {
    if t.event.SendCall? then [t.event.m]
    else if t.event.Tick? && s.armed && !Late(s, t) then [Msg(HEARTBEAT, [], 0)]
    else if t.event.Read? then Replies(ReadActs(c, s.buffer, t.event.chunk))
    else []
  }

  lemma CallbackWrites(c: Config, s: State, t: Moment)
    requires Consistent(s) && FromLibuv(t.event) && !t.event.Read?
    ensures Written(Step(c, s, t).outs) == if s.connected then Due(c, s, t) else []
  {
    WrittenSingle(UvClose);
    if t.event.Tick? {
      WrittenSingle(Write(Msg(HEARTBEAT, [], 0)));
    } else if t.event.CloseDone? {
      WrittenSingle(Closed(c.notifyDisconnect));
    } else if t.event.ConnectDone? {
      WrittenSingle(Connected(c.notifyConnect));
    }
  }

  lemma PublicCallWrites(c: Config, s: State, t: Moment)
    requires !FromLibuv(t.event)
    ensures Written(Step(c, s, t).outs) == if s.connected then Due(c, s, t) else []
  {
    if t.event.SendCall? {
      WrittenSingle(Write(t.event.m));
    } else if t.event.ConnectCall? {
      WrittenSingle(UvCloseQuietly);
    } else {
      WrittenSingle(UvClose);
    }
  }

  lemma StepWritesExact(c: Config, s: State, t: Moment)
    requires Consistent(s)
    ensures Written(Step(c, s, t).outs) == if s.connected then Due(c, s, t) else []
  {
    if t.event.Read? {
      ReadPerforms(c, s, t);
    } else if FromLibuv(t.event) {
      CallbackWrites(c, s, t);
    } else {
      PublicCallWrites(c, s, t);
    }
  }

  /** What the events of a run make the client write while it is connected. */
  function AllDue(c: Config, s: State, ts: seq<Moment>): seq<Msg>
    decreases |ts|
  {
    if ts == [] then []
    else (if s.connected then Due(c, s, ts[0]) else []) + AllDue(c, Step(c, s, ts[0]).s, ts[1..])
  }

  /** Over a run, through disconnects and new connections, the packets written are exactly those, in order. */
  lemma {:induction false} RunWritesExact(c: Config, s: State, ts: seq<Moment>)
    requires Consistent(s)
    ensures Written(Run(c, s, ts).outs) == AllDue(c, s, ts)
    decreases |ts|
  {
    if ts != [] {
      var e := Step(c, s, ts[0]);
      StepFrame(c, s, ts[0]);
      StepWritesExact(c, s, ts[0]);
      RunWritesExact(c, e.s, ts[1..]);
      WrittenAppend(e.outs, Run(c, e.s, ts[1..]).outs);
    }
  }

  // ----- Which handlers it calls -----

  /**
   Over a whole run the handlers called are one for each packet read that passes its
   interceptor and has a handler: that of its type, or else the default one.
   */
  lemma RunCallsExact(c: Config, s: State, ts: seq<Moment>)
    ensures Follow(c.routes.handlers, c.routes.fallback, Calls(Run(c, s, ts).outs),
                   Picked(c.routes, false, Feed(c.order, s.buffer, Chunks(ts)).msgs))
  {
    RunDispatches(c, s, ts);
    DeliverFollows(c.routes, false, Feed(c.order, s.buffer, Chunks(ts)).msgs);
  }
}
