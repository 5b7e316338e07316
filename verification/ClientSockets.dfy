/**
 What becomes of the client's sockets over whole runs (src/client.cpp:69-204, 262-284): a
 connection whose reading cannot start, and how often a handle is closed.
 */
module ClientSockets {
  import opened Message
  import opened Framing
  import opened Dispatch
  import opened Timing
  import opened ClientSpec

  // ----- A read start that fails -----

  /** Does an attempt to connect await its answer?  A closed handle cancels it, and a success answers it. */
  predicate Awaits(c: Config, s: State, live: bool, t: Moment) {
    var s' := Step(c, s, t).s;
    if t.event.ConnectCall? && !s.connected && !s.connecting && s'.connecting then true
    else if t.event.ConnectDone? && t.event.success then false
    else live && !s'.socketClosing
  }

  /** libuv reports a success only as the answer to the one attempt that awaits it. */
  predicate Answered(c: Config, s: State, live: bool, ts: seq<Moment>)
    decreases |ts|
  {
    ts == [] ||
    ((ts[0].event.ConnectDone? && ts[0].event.success ==> live)
     && Answered(c, Step(c, s, ts[0]).s, Awaits(c, s, live, ts[0]), ts[1..]))
  }

  /** While an attempt awaits its answer the client is not connected and the handle is open. */
  ghost predicate AwaitingInv(s: State, live: bool) {
    Consistent(s) && (live ==> !s.connected && !s.socketClosing)
  }

  lemma AwaitingKept(c: Config, s: State, live: bool, t: Moment)
    requires AwaitingInv(s, live)
    ensures AwaitingInv(Step(c, s, t).s, Awaits(c, s, live, t))
  {
    StepFrame(c, s, t);
  }

  /** A success whose reading cannot start. */
  predicate ReadStartFails(t: Moment) {
    t.event.ConnectDone? && t.event.success && !t.event.readOk
  }

  /** What such a failure does: nothing but clear a flag.  The socket stays open. */
  ghost predicate LeftOpen(u: State, e: Effect) {
    && e.outs == [] && !u.socketClosing
    && e.s == u.(connecting := false) && !e.s.connected
  }

  lemma {:induction false} FailureAt(c: Config, s: State, live: bool, ts: seq<Moment>, i: nat)
    requires AwaitingInv(s, live) && Answered(c, s, live, ts)
    requires i < |ts| && ReadStartFails(ts[i])
    ensures var u := Run(c, s, ts[..i]).s; LeftOpen(u, Step(c, u, ts[i]))
    decreases |ts|
  {
    if i > 0 {
      var t := ts[0];
      AwaitingKept(c, s, live, t);
      FailureAt(c, Step(c, s, t).s, Awaits(c, s, live, t), ts[1..], i - 1);
      assert ts[..i][1..] == ts[1..][..i - 1] && ts[..i][0] == t;
    }
  }

  /**
   The source means to close a connection whose reading cannot start, but clears the flag
   first.  In every run from a new client the socket is never closed there: the client is
   left idle with the socket open.  The next attempt closes it without a callback and fails
   if the handle is active, and otherwise initialises it again without ever closing it.
   */
  lemma ReadStartFailureLeavesSocket(c: Config, ts: seq<Moment>, i: nat, initOk: bool, connectOk: bool)
    requires Answered(c, NEW_CLIENT, false, ts)
    requires i < |ts| && ReadStartFails(ts[i])
    ensures var u := Run(c, NEW_CLIENT, ts[..i]).s;
            var e := Step(c, u, ts[i]);
            && LeftOpen(u, e)
            && Connect(e.s, true, initOk, connectOk) == Effect(e.s.(socketClosing := true), [UvCloseQuietly])
            && Connect(e.s, false, initOk, connectOk) == Effect(e.s.(connecting := initOk && connectOk), [])
  {
    FailureAt(c, NEW_CLIENT, false, ts, i);
  }

  /** Such a run exists: one attempt, answered by a success whose reading cannot start. */
  lemma ReadStartCanFail(c: Config)
    ensures var ts := [Timed(0, ConnectCall(false, true, true)), Timed(1, ConnectDone(true, false))];
            Answered(c, NEW_CLIENT, false, ts) && ReadStartFails(ts[1])
  {
    var a, b := Timed(0, ConnectCall(false, true, true)), Timed(1, ConnectDone(true, false));
    assert [a, b][1..] == [b] && [b][1..] == [];
    var s := Step(c, NEW_CLIENT, a).s;
    assert Answered(c, Step(c, s, b).s, Awaits(c, s, true, b), []);
    assert Answered(c, s, true, [b]);
  }

  // ----- How often a handle is closed -----

  /** The `uv_close` calls among some effects, with a callback or without. */
  function Closes(outs: seq<Out>): nat {
    Count(outs, UvClose) + Count(outs, UvCloseQuietly)
  }

  lemma ClosesSingle(o: Out)
    ensures Closes([o]) == One(o == UvClose || o == UvCloseQuietly)
  {
    CountSingle(o, UvClose);
    CountSingle(o, UvCloseQuietly);
  }

  /** Every close ends an open handle; only initialising opens one again. */
  ghost predicate Paid(s: State, e: Effect, inits: nat) {
    Closes(e.outs) + One(!e.s.socketClosing) <= One(!s.socketClosing) + inits
  }

  lemma PaidJoin(s: State, e: Effect, f: Effect, i: nat, j: nat)
    requires Paid(s, e, i) && Paid(e.s, f, j)
    ensures Paid(s, Join2(e, f), i + j)
  {
    CountAppend(e.outs, f.outs, UvClose);
    CountAppend(e.outs, f.outs, UvCloseQuietly);
  }

  lemma DisconnectPaid(s: State)
    ensures Paid(s, Disconnect(s), 0)
  {
    ClosesSingle(UvClose);
  }

  lemma SendPaid(s: State, m: Msg)
    ensures Paid(s, Send(s, m), 0)
  {
    ClosesSingle(Write(m));
  }

  lemma {:induction false} ReactPaid(s: State, acts: seq<Action>)
    ensures Paid(s, React(s, acts), 0)
    decreases |acts|
  {
    if acts != [] {
      var e := Act(s, acts[0]);
      match acts[0] {
        case Reply(m) => SendPaid(s, m);
        case HangUp => DisconnectPaid(s);
      }
      ReactPaid(e.s, acts[1..]);
      PaidJoin(s, e, React(e.s, acts[1..]), 0, 0);
    }
  }

  lemma HandlePaid(c: Config, s: State, m: Msg)
    ensures Paid(s, Handle(c, s, m), 0)
  {
    if Route(c.routes, m).Some? {
      var h := Route(c.routes, m).value;
      ReactPaid(s, c.behave(h, m));
      ClosesSingle(Call(h, m));
      PaidJoin(s, Effect(s, [Call(h, m)]), React(s, c.behave(h, m)), 0, 0);
    }
  }

  lemma {:induction false} HandleAllPaid(c: Config, s: State, msgs: seq<Msg>)
    ensures Paid(s, HandleAll(c, s, msgs), 0)
    decreases |msgs|
  {
    if msgs != [] {
      var e := Handle(c, s, msgs[0]);
      HandlePaid(c, s, msgs[0]);
      HandleAllPaid(c, e.s, msgs[1..]);
      PaidJoin(s, e, HandleAll(c, e.s, msgs[1..]), 0, 0);
    }
  }

  /** A connect call that gets as far as initialising the handle. */
  predicate Initialises(s: State, t: Moment) {
    t.event.ConnectCall? && !s.connected && !s.connecting && !t.event.active && t.event.initOk
  }

  lemma AppendPaid(c: Config, s: State, chunk: seq<byte>)
    ensures Paid(s, Append(c, s, chunk), 0)
  {
    HandleAllPaid(c, s.(buffer := s.buffer + chunk), Drain(c.order, s.buffer + chunk).msgs);
  }

  lemma NothingPaid(s: State, t: State)
    requires s.socketClosing == t.socketClosing
    ensures Paid(s, Effect(t, []), 0)
  {
  }

  lemma SilentPaid(s: State, e: Effect)
    requires e.outs == [] && s.socketClosing == e.s.socketClosing
    ensures Paid(s, e, 0)
  {
  }

  lemma ConnectPaid(s: State, active: bool, initOk: bool, connectOk: bool)
    ensures Paid(s, Connect(s, active, initOk, connectOk), One(!s.connected && !s.connecting && !active && initOk))
  {
    ClosesSingle(UvCloseQuietly);
  }

  lemma OnConnectPaid(c: Config, s: State, now: int, ok: bool, readOk: bool)
    ensures Paid(s, OnConnect(c, s, now, ok, readOk), 0)
  {
    DisconnectPaid(s.(connecting := false));
    ClosesSingle(Connected(c.notifyConnect));
  }

  lemma OnClosePaid(c: Config, s: State)
    ensures Paid(s, OnClose(c, s), 0)
  {
    ClosesSingle(Closed(c.notifyDisconnect));
  }

  lemma OnTimerPaid(s: State, now: int)
    ensures Paid(s, OnTimer(s, now), 0)
  {
    DisconnectPaid(s);
    SendPaid(s, Msg(HEARTBEAT, [], 0));
  }

  lemma CallbackPaid(c: Config, s: State, t: Moment)
    requires FromLibuv(t.event) && !t.event.Read?
    ensures Paid(s, Step(c, s, t), 0)
  {
    match t.event
    case CloseDone => OnClosePaid(c, s);
    case Tick => if s.armed { OnTimerPaid(s, t.at); } else { NothingPaid(s, s); }
    case ConnectDone(success, readOk) => OnConnectPaid(c, s, t.at, success, readOk);
    case _ =>
      DisconnectPaid(s);
      NothingPaid(s, s);
  }

  lemma LoopPaid(c: Config, s: State, t: Moment)
    requires t.event.StartLoop? || t.event.StopLoop?
    ensures Paid(s, Step(c, s, t), 0)
  {
    SilentPaid(s, Step(c, s, t));
  }

  lemma ReadPaid(c: Config, s: State, t: Moment)
    requires t.event.Read?
    ensures Paid(s, Step(c, s, t), 0)
  {
    if t.event.chunk == [] {
      NothingPaid(s, s);
    } else {
      AppendPaid(c, s, t.event.chunk);
    }
  }

  lemma StepPaid(c: Config, s: State, t: Moment)
    ensures Paid(s, Step(c, s, t), One(Initialises(s, t)))
  {
    match t.event
    case Read(chunk) => ReadPaid(c, s, t);
    case ConnectCall(active, initOk, connectOk) => ConnectPaid(s, active, initOk, connectOk);
    case SendCall(m) => SendPaid(s, m);
    case DisconnectCall => DisconnectPaid(s);
    case StartLoop => LoopPaid(c, s, t);
    case StopLoop => LoopPaid(c, s, t);
    case _ => CallbackPaid(c, s, t);
  }

  /** The handle initialisations of a run. */
  function Initialisations(c: Config, s: State, ts: seq<Moment>): nat
    decreases |ts|
  {
    if ts == [] then 0 else One(Initialises(s, ts[0])) + Initialisations(c, Step(c, s, ts[0]).s, ts[1..])
  }

  lemma {:induction false} RunPaid(c: Config, s: State, ts: seq<Moment>)
    ensures Paid(s, Run(c, s, ts), Initialisations(c, s, ts))
    decreases |ts|
  {
    if ts != [] {
      var e := Step(c, s, ts[0]);
      StepPaid(c, s, ts[0]);
      RunPaid(c, e.s, ts[1..]);
      PaidJoin(s, e, Run(c, e.s, ts[1..]), One(Initialises(s, ts[0])), Initialisations(c, e.s, ts[1..]));
    }
  }

  /**
   Over any run, whatever fails, `uv_close` is called, with a callback or without, at most
   once more than a handle is initialised.
   */
  lemma ClosesAreBounded(c: Config, ts: seq<Moment>)
    ensures Closes(Run(c, NEW_CLIENT, ts).outs) <= 1 + Initialisations(c, NEW_CLIENT, ts)
  {
    RunPaid(c, NEW_CLIENT, ts);
  }
}
