/**
 The meaning of one session (src/session.cpp, include/libuv_net/session.hpp): every callback
 and public call as one atomic step of the event loop, and what every run of steps keeps.
 */
module SessionSpec {
  import opened Message
  import opened Framing
  import opened Dispatch
  import opened Timing

  /** What does not change during a run: byte order, callbacks, what handlers do, whether a close handler is set. */
  datatype Config = Config(order: ByteOrder, routes: Routes, behave: Behaviour, notifyClose: bool)

  /**
   `closing` is the session's own flag and `socketClosing` what `uv_is_closing` says;
   `owedCloses` counts `uv_close` calls whose callback has not run.  Times are clock ticks.
   */
  datatype State = State(
    buffer: seq<byte>, closing: bool, socketClosing: bool, owedCloses: nat,
    lastBeat: int, armed: bool, reading: bool)

  datatype Effect = Effect(s: State, outs: seq<Out>)

  const NEW_SESSION := State([], false, false, 0, 0, false, false)

  function Join2(e: Effect, f: Effect): Effect {
    Effect(f.s, e.outs + f.outs)
  }

  // ----- Operations -----

  function Close(s: State): Effect {
    if !s.closing && !s.socketClosing
    then Effect(s.(closing := true, socketClosing := true, owedCloses := s.owedCloses + 1), [UvClose])
    else Effect(s, [])
  }

  function Send(s: State, m: Msg): Effect {
    Effect(s, if s.closing then [] else [Write(m)])
  }

  function Act(s: State, a: Action): Effect {
    match a
    case Reply(m) => Send(s, m)
    case HangUp => Close(s)
  }

  function React(s: State, acts: seq<Action>): Effect
    decreases |acts|
  {
    if acts == [] then Effect(s, [])
    else var e := Act(s, acts[0]); Join2(e, React(e.s, acts[1..]))
  }

  function Handle(c: Config, s: State, now: int, m: Msg): Effect {
    if m.kind == HEARTBEAT then Effect(s.(lastBeat := now), [])
    else match Route(c.routes, m)
      case None => Effect(s, [])
      case Some(h) => Join2(Effect(s, [Call(h, m)]), React(s, c.behave(h, m)))
  }

  /** Handles packets one after another. */
  function HandleAll(c: Config, s: State, now: int, msgs: seq<Msg>): Effect
    decreases |msgs|
  {
    if msgs == [] then Effect(s, [])
    else var e := Handle(c, s, now, msgs[0]); Join2(e, HandleAll(c, e.s, now, msgs[1..]))
  }

  /** One pass of the receive loop: what it decodes is handled, what it cannot use is kept. */
  function Process(c: Config, s: State, now: int): Effect {
    var d := Drain(c.order, s.buffer);
    var e := HandleAll(c, s, now, d.msgs);
    e.(s := e.s.(buffer := d.rest))
  }

  function Append(c: Config, s: State, now: int, chunk: seq<byte>): Effect {
    Process(c, s.(buffer := s.buffer + chunk), now)
  }

  function OnTimer(s: State, now: int): Effect {
    if ElapsedMs(s.lastBeat, now) > HEARTBEAT_TIMEOUT_MS then Close(s)
    else Send(s, Msg(HEARTBEAT, [], 0))
  }

  function Start(s: State, now: int, readOk: bool): State {
    s.(reading := s.reading || (readOk && !s.closing), lastBeat := now, armed := true)
  }

  function OnClose(c: Config, s: State): Effect {
    if s.owedCloses == 0 then Effect(s, [])
    else Effect(s.(owedCloses := s.owedCloses - 1), [Closed(c.notifyClose)])
  }

  // ----- Runs -----

  /** A callback or public call.  A timer or close callback that libuv does not owe is no step. */
  datatype Event =
    | Read(chunk: seq<byte>) | ReadFailed | WriteDone(ok: bool) | CloseDone | Tick
    | SendCall(m: Msg) | CloseCall | StartCall(readOk: bool) | StopCall

  type Moment = Timed<Event>

  /** A callback of libuv; the other events are public calls. */
  predicate FromLibuv(e: Event) {
    e.Read? || e.ReadFailed? || e.WriteDone? || e.CloseDone? || e.Tick?
  }

  function Step(c: Config, s: State, t: Moment): Effect {
    match t.event
    case Read(chunk) => if chunk == [] then Effect(s, []) else Append(c, s, t.at, chunk)
    case ReadFailed => Close(s)
    case WriteDone(ok) => if ok then Effect(s, []) else Close(s)
    case CloseDone => OnClose(c, s)
    case Tick => if s.armed then OnTimer(s, t.at) else Effect(s, [])
    case SendCall(m) => Send(s, m)
    case CloseCall => Close(s)
    case StartCall(readOk) => Effect(Start(s, t.at, readOk), [])
    case StopCall => Effect(s.(reading := false, armed := false), [])
  }

  function Run(c: Config, s: State, ts: seq<Moment>): Effect
    decreases |ts|
  {
    if ts == [] then Effect(s, [])
    else var e := Step(c, s, ts[0]); Join2(e, Run(c, e.s, ts[1..]))
  }

  // ----- Every step: at most one close, nothing written once closing -----

  predicate Writes(outs: seq<Out>) {
    exists i :: 0 <= i < |outs| && outs[i].Write?
  }

  ghost predicate Linked(s: State) {
    s.closing == s.socketClosing
  }

  /** What every piece of a run keeps: closing is final, costs one `uv_close`, silences writes and is called back once. */
  ghost predicate Sane(c: Config, s: State, e: Effect) {
    && Linked(e.s)
    && (s.closing ==> e.s.closing && !Writes(e.outs))
    && One(s.closing) + Count(e.outs, UvClose) == One(e.s.closing)
    && s.owedCloses + Count(e.outs, UvClose) == e.s.owedCloses + Count(e.outs, Closed(c.notifyClose))
    && Count(e.outs, Closed(!c.notifyClose)) == 0
  }

  lemma SaneJoin(c: Config, s: State, e: Effect, f: Effect)
    requires Sane(c, s, e) && Sane(c, e.s, f)
    ensures Sane(c, s, Join2(e, f))
  {
    CountAppend(e.outs, f.outs, UvClose);
    CountAppend(e.outs, f.outs, Closed(true));
    CountAppend(e.outs, f.outs, Closed(false));
    var outs := e.outs + f.outs;
    forall i | 0 <= i < |outs| && s.closing
      ensures !outs[i].Write?
    {
      assert outs[i] == if i < |e.outs| then e.outs[i] else f.outs[i - |e.outs|];
    }
  }

  lemma OneOut(o: Out)
    ensures forall p :: Count([o], p) == One(o == p)
    ensures Writes([o]) <==> o.Write?
  {
    assert [o][1..] == [];
    if o.Write? {
      assert [o][0].Write?;
    }
  }

  lemma CloseSane(c: Config, s: State)
    requires Linked(s)
    ensures Sane(c, s, Close(s))
  {
    OneOut(UvClose);
  }

  lemma SendSane(c: Config, s: State, m: Msg)
    requires Linked(s)
    ensures Sane(c, s, Send(s, m))
  {
  }

  lemma ActSane(c: Config, s: State, a: Action)
    requires Linked(s)
    ensures Sane(c, s, Act(s, a))
    ensures Act(s, a).s == s.(closing := Act(s, a).s.closing, socketClosing := Act(s, a).s.closing,
                              owedCloses := Act(s, a).s.owedCloses)
  {
    match a
    case Reply(m) => SendSane(c, s, m);
    case HangUp => CloseSane(c, s);
  }

  lemma NothingSane(c: Config, s: State, t: State)
    requires Linked(s) && Linked(t) && s.closing == t.closing && s.owedCloses == t.owedCloses
    ensures Sane(c, s, Effect(t, []))
  {
  }

  lemma {:induction false} ReactSane(c: Config, s: State, acts: seq<Action>)
    requires Linked(s)
    ensures Sane(c, s, React(s, acts))
    ensures React(s, acts).s == s.(closing := React(s, acts).s.closing, socketClosing := React(s, acts).s.closing,
                                   owedCloses := React(s, acts).s.owedCloses)
    decreases |acts|
  {
    if acts != [] {
      var e := Act(s, acts[0]);
      ActSane(c, s, acts[0]);
      ReactSane(c, e.s, acts[1..]);
      SaneJoin(c, s, e, React(e.s, acts[1..]));
    }
  }

  lemma CallSane(c: Config, s: State, h: nat, m: Msg)
    requires Linked(s)
    ensures Sane(c, s, Join2(Effect(s, [Call(h, m)]), React(s, c.behave(h, m))))
  {
    ReactSane(c, s, c.behave(h, m));
    SaneJoin(c, s, Effect(s, [Call(h, m)]), React(s, c.behave(h, m)));
  }

  lemma HandleSane(c: Config, s: State, now: int, m: Msg)
    requires Linked(s)
    ensures Sane(c, s, Handle(c, s, now, m))
  {
    if m.kind == HEARTBEAT {
      NothingSane(c, s, s.(lastBeat := now));
    } else {
      match Route(c.routes, m)
      case None => NothingSane(c, s, s);
      case Some(h) => CallSane(c, s, h, m);
    }
  }

  lemma {:induction false} HandleAllSane(c: Config, s: State, now: int, msgs: seq<Msg>)
    requires Linked(s)
    ensures Sane(c, s, HandleAll(c, s, now, msgs))
    decreases |msgs|
  {
    if msgs != [] {
      var e := Handle(c, s, now, msgs[0]);
      HandleSane(c, s, now, msgs[0]);
      HandleAllSane(c, e.s, now, msgs[1..]);
      SaneJoin(c, s, e, HandleAll(c, e.s, now, msgs[1..]));
    }
  }

  lemma AppendSane(c: Config, s: State, now: int, chunk: seq<byte>)
    requires Linked(s)
    ensures Sane(c, s, Append(c, s, now, chunk))
  {
    var s' := s.(buffer := s.buffer + chunk);
    var msgs := Drain(c.order, s'.buffer).msgs;
    HandleAllSane(c, s', now, msgs);
    assert Append(c, s, now, chunk).outs == HandleAll(c, s', now, msgs).outs;
  }

  lemma OnCloseSane(c: Config, s: State)
    requires Linked(s)
    ensures Sane(c, s, OnClose(c, s))
  {
  }

  lemma OnTimerSane(c: Config, s: State, now: int)
    requires Linked(s)
    ensures Sane(c, s, OnTimer(s, now))
  {
    CloseSane(c, s);
    SendSane(c, s, Msg(HEARTBEAT, [], 0));
  }

  lemma ReadSane(c: Config, s: State, t: Moment)
    requires Linked(s) && t.event.Read?
    ensures Sane(c, s, Step(c, s, t))
  {
    if t.event.chunk == [] {
      NothingSane(c, s, s);
    } else {
      AppendSane(c, s, t.at, t.event.chunk);
    }
  }

  lemma CallbackSane(c: Config, s: State, t: Moment)
    requires Linked(s) && FromLibuv(t.event) && !t.event.Read?
    ensures Sane(c, s, Step(c, s, t))
  {
    NothingSane(c, s, s);
    match t.event
    case CloseDone => OnCloseSane(c, s);
    case Tick => OnTimerSane(c, s, t.at);
    case _ => CloseSane(c, s);
  }

  lemma PublicCallSane(c: Config, s: State, t: Moment)
    requires Linked(s) && !FromLibuv(t.event)
    ensures Sane(c, s, Step(c, s, t))
  {
    match t.event
    case SendCall(m) => SendSane(c, s, m);
    case CloseCall => CloseSane(c, s);
    case _ => NothingSane(c, s, Step(c, s, t).s);
  }

  lemma StepSane(c: Config, s: State, t: Moment)
    requires Linked(s)
    ensures Sane(c, s, Step(c, s, t))
  {
    if t.event.Read? {
      ReadSane(c, s, t);
    } else if !FromLibuv(t.event) {
      PublicCallSane(c, s, t);
    } else {
      CallbackSane(c, s, t);
    }
  }

  /** Effects other than the report of a close. */
  predicate Everyday(outs: seq<Out>) {
    forall i :: 0 <= i < |outs| ==> outs[i].Write? || outs[i].UvClose? || outs[i].Call?
  }

  lemma {:induction false} EverydayCount(outs: seq<Out>, o: Out)
    requires Everyday(outs) && !o.Write? && !o.UvClose? && !o.Call?
    ensures Count(outs, o) == 0
  {
    if outs != [] {
      assert outs[0] != o;
      EverydayCount(outs[1..], o);
    }
  }

  lemma {:induction false} ReactEveryday(s: State, acts: seq<Action>)
    ensures Everyday(React(s, acts).outs)
    decreases |acts|
  {
    if acts != [] {
      ReactEveryday(Act(s, acts[0]).s, acts[1..]);
    }
  }

  lemma HandleEveryday(c: Config, s: State, now: int, m: Msg)
    ensures Everyday(Handle(c, s, now, m).outs)
  {
    if m.kind != HEARTBEAT && Route(c.routes, m).Some? {
      ReactEveryday(s, c.behave(Route(c.routes, m).value, m));
    }
  }

  lemma {:induction false} HandleAllEveryday(c: Config, s: State, now: int, msgs: seq<Msg>)
    ensures Everyday(HandleAll(c, s, now, msgs).outs)
    decreases |msgs|
  {
    if msgs != [] {
      HandleEveryday(c, s, now, msgs[0]);
      HandleAllEveryday(c, Handle(c, s, now, msgs[0]).s, now, msgs[1..]);
    }
  }

  /** Nothing but an owed close callback reports a close. */
  lemma StepOuts(c: Config, s: State, t: Moment)
    ensures var outs := Step(c, s, t).outs;
            if t.event.CloseDone? && s.owedCloses > 0 then outs == [Closed(c.notifyClose)] else Everyday(outs)
  {
    if t.event.Read? {
      HandleAllEveryday(c, s.(buffer := s.buffer + t.event.chunk), t.at, Drain(c.order, s.buffer + t.event.chunk).msgs);
    }
  }

  /** A step calls the close handler once if it is an owed close callback and a handler is set, and otherwise not at all. */
  lemma StepClosesBack(c: Config, s: State, t: Moment, notified: bool)
    ensures Count(Step(c, s, t).outs, Closed(notified)) ==
              One(t.event.CloseDone? && s.owedCloses > 0 && notified == c.notifyClose)
  {
    StepOuts(c, s, t);
    CountSingle(Closed(c.notifyClose), Closed(notified));
    if !(t.event.CloseDone? && s.owedCloses > 0) {
      EverydayCount(Step(c, s, t).outs, Closed(notified));
    }
  }

  lemma {:induction false} RunSane(c: Config, s: State, ts: seq<Moment>)
    requires Linked(s)
    ensures Sane(c, s, Run(c, s, ts))
    decreases |ts|
  {
    if ts != [] {
      var e := Step(c, s, ts[0]);
      StepSane(c, s, ts[0]);
      RunSane(c, e.s, ts[1..]);
      SaneJoin(c, s, e, Run(c, e.s, ts[1..]));
    }
  }

  /**
   Whatever interleaving of read errors, write errors, timeouts, handler and user closes a
   session meets, `uv_close` is issued at most once, and exactly once if the session is
   closing; `on_close` runs at most once and never before the `uv_close`.
   */
  lemma ClosesOnce(c: Config, ts: seq<Moment>)
    ensures var e := Run(c, NEW_SESSION, ts);
            && Count(e.outs, UvClose) == One(e.s.closing)
            && Count(e.outs, Closed(true)) + Count(e.outs, Closed(false)) <= Count(e.outs, UvClose)
            && (!c.notifyClose ==> Count(e.outs, Closed(true)) == 0)
  {
    RunSane(c, NEW_SESSION, ts);
  }

  /** True of an event that leaves the heartbeat timer alone. */
  predicate KeepsTimer(t: Moment) {
    !t.event.StartCall? && !t.event.StopCall?
  }

  /**
   Once a session is closing, nothing is written and no second `uv_close` is issued, although
   the timer stays armed and goes on firing until somebody stops it.
   */
  lemma ClosedIsSilent(c: Config, s: State, ts: seq<Moment>)
    requires Linked(s) && s.closing
    ensures var e := Run(c, s, ts);
            && e.s.closing && !Writes(e.outs) && Count(e.outs, UvClose) == 0
            && ((forall i :: 0 <= i < |ts| ==> KeepsTimer(ts[i])) ==> e.s.armed == s.armed)
  {
    RunSane(c, s, ts);
    TimerKept(c, s, ts);
  }

  lemma {:induction false} TimerKept(c: Config, s: State, ts: seq<Moment>)
    requires Linked(s)
    ensures (forall i :: 0 <= i < |ts| ==> KeepsTimer(ts[i])) ==> Run(c, s, ts).s.armed == s.armed
    decreases |ts|
  {
    if ts != [] && forall i :: 0 <= i < |ts| ==> KeepsTimer(ts[i]) {
      var e := Step(c, s, ts[0]);
      assert KeepsTimer(ts[0]);
      assert e.s.armed == s.armed by { StepFrame(c, s, ts[0]); }
      StepSane(c, s, ts[0]);
      TimerKept(c, e.s, ts[1..]);
    }
  }

  // ----- What handling packets leaves alone -----

  lemma {:induction false} HandleAllFrame(c: Config, s: State, now: int, msgs: seq<Msg>)
    requires Linked(s)
    ensures var t := HandleAll(c, s, now, msgs).s;
            && t.buffer == s.buffer && t.armed == s.armed && t.reading == s.reading
            && t.lastBeat == if (exists i :: 0 <= i < |msgs| && msgs[i].kind == HEARTBEAT) then now else s.lastBeat
    decreases |msgs|
  {
    if msgs != [] {
      var e := Handle(c, s, now, msgs[0]);
      HandleFrame(c, s, now, msgs[0]);
      HandleAllFrame(c, e.s, now, msgs[1..]);
      assert forall i :: 0 < i < |msgs| ==> msgs[i] == msgs[1..][i - 1];
    }
  }

  lemma HandleFrame(c: Config, s: State, now: int, m: Msg)
    requires Linked(s)
    ensures var t := Handle(c, s, now, m).s;
            && Linked(t) && t.buffer == s.buffer && t.armed == s.armed && t.reading == s.reading
            && t.lastBeat == if m.kind == HEARTBEAT then now else s.lastBeat
  {
    HandleSane(c, s, now, m);
    if m.kind != HEARTBEAT && Route(c.routes, m).Some? {
      ReactSane(c, s, c.behave(Route(c.routes, m).value, m));
    }
  }

  /** True when the packets completed by an event include a HEARTBEAT. */
  predicate Beats(c: Config, s: State, t: Moment) {
    t.event.Read? && t.event.chunk != [] &&
    var msgs := Drain(c.order, s.buffer + t.event.chunk).msgs;
    exists i :: 0 <= i < |msgs| && msgs[i].kind == HEARTBEAT
  }

  /** An event that resets the timeout: a processed HEARTBEAT, or starting the session. */
  predicate Refreshes(c: Config, s: State, t: Moment) {
    t.event.StartCall? || Beats(c, s, t)
  }

  lemma StepFrame(c: Config, s: State, t: Moment)
    requires Linked(s)
    ensures var e := Step(c, s, t);
            && e.s.lastBeat == (if Refreshes(c, s, t) then t.at else s.lastBeat)
            && (KeepsTimer(t) ==> e.s.armed == s.armed)
  {
    if t.event.Read? && t.event.chunk != [] {
      var s' := s.(buffer := s.buffer + t.event.chunk);
      HandleAllFrame(c, s', t.at, Drain(c.order, s'.buffer).msgs);
    }
  }

  // ----- Dispatch over a whole run -----

  lemma {:induction false} ReactCallsNothing(s: State, acts: seq<Action>)
    ensures Calls(React(s, acts).outs) == []
    decreases |acts|
  {
    if acts != [] {
      var e := Act(s, acts[0]);
      ReactCallsNothing(e.s, acts[1..]);
      CallsAppend(e.outs, React(e.s, acts[1..]).outs);
    }
  }

  /** Each packet reaches its handler once, in order, even after a handler has closed the session. */
  lemma {:induction false} HandleAllCalls(c: Config, s: State, now: int, msgs: seq<Msg>)
    ensures Calls(HandleAll(c, s, now, msgs).outs) == Deliver(SessionRouter(c.routes), msgs)
    decreases |msgs|
  {
    if msgs != [] {
      var m := msgs[0];
      var e := Handle(c, s, now, m);
      HandleAllCalls(c, e.s, now, msgs[1..]);
      CallsAppend(e.outs, HandleAll(c, e.s, now, msgs[1..]).outs);
      if m.kind != HEARTBEAT && Route(c.routes, m).Some? {
        var h := Route(c.routes, m).value;
        ReactCallsNothing(s, c.behave(h, m));
        CallsAppend([Call(h, m)], React(s, c.behave(h, m)).outs);
      }
    }
  }

  /** The bytes a run reads, read by read. */
  function Chunks(ts: seq<Moment>): seq<seq<byte>> {
    if ts == [] then []
    else if ts[0].event.Read? && ts[0].event.chunk != [] then [ts[0].event.chunk] + Chunks(ts[1..])
    else Chunks(ts[1..])
  }

  /**
   Over a whole run, however closes, timeouts, sends and errors fall between the reads, the
   handlers called are those the fed packets ask for, and the buffer is what feeding leaves.
   */
  lemma {:induction false} RunDispatches(c: Config, s: State, ts: seq<Moment>)
    requires Linked(s)
    ensures var e := Run(c, s, ts); var f := Feed(c.order, s.buffer, Chunks(ts));
            && Calls(e.outs) == Deliver(SessionRouter(c.routes), f.msgs)
            && e.s.buffer == f.rest
    decreases |ts|
  {
    if ts != [] {
      var route := SessionRouter(c.routes);
      var e := Step(c, s, ts[0]);
      StepSane(c, s, ts[0]);
      StepDispatches(c, s, ts[0]);
      RunDispatches(c, e.s, ts[1..]);
      CallsAppend(e.outs, Run(c, e.s, ts[1..]).outs);
      if ts[0].event.Read? && ts[0].event.chunk != [] {
        var d := Drain(c.order, s.buffer + ts[0].event.chunk);
        assert Chunks(ts)[1..] == Chunks(ts[1..]);
        DeliverAppend(route, d.msgs, Feed(c.order, d.rest, Chunks(ts[1..])).msgs);
      }
    }
  }

  lemma StepDispatches(c: Config, s: State, t: Moment)
    requires Linked(s)
    ensures var e := Step(c, s, t);
            if t.event.Read? && t.event.chunk != [] then
              var d := Drain(c.order, s.buffer + t.event.chunk);
              Calls(e.outs) == Deliver(SessionRouter(c.routes), d.msgs) && e.s.buffer == d.rest
            else Calls(e.outs) == [] && e.s.buffer == s.buffer
  {
    match t.event
    case Read(chunk) => HandleAllCalls(c, s.(buffer := s.buffer + chunk), t.at, Drain(c.order, s.buffer + chunk).msgs);
    case _ =>
  }

  // ----- The buffer plays no part in handling a packet -----

  lemma {:induction false} ReactBuffer(s: State, acts: seq<Action>, b: seq<byte>)
    ensures var e := React(s, acts);
            React(s.(buffer := b), acts) == Effect(e.s.(buffer := b), e.outs)
    decreases |acts|
  {
    if acts != [] {
      ReactBuffer(Act(s, acts[0]).s, acts[1..], b);
    }
  }

  lemma HandleBuffer(c: Config, s: State, now: int, m: Msg, b: seq<byte>)
    ensures var e := Handle(c, s, now, m);
            Handle(c, s.(buffer := b), now, m) == Effect(e.s.(buffer := b), e.outs)
  {
    if m.kind != HEARTBEAT && Route(c.routes, m).Some? {
      ReactBuffer(s, c.behave(Route(c.routes, m).value, m), b);
    }
  }

  lemma {:induction false} HandleAllBuffer(c: Config, s: State, now: int, msgs: seq<Msg>, b: seq<byte>)
    ensures var e := HandleAll(c, s, now, msgs);
            HandleAll(c, s.(buffer := b), now, msgs) == Effect(e.s.(buffer := b), e.outs)
    decreases |msgs|
  {
    if msgs != [] {
      HandleBuffer(c, s, now, msgs[0], b);
      HandleAllBuffer(c, Handle(c, s, now, msgs[0]).s, now, msgs[1..], b);
    }
  }

  /** The receive loop one frame at a time: handle it, erase it, and go on with what is left. */
  lemma ProcessStep(c: Config, s: State, now: int)
    requires Linked(s) && !Idle(c.order, s.buffer) && s.buffer[0] == PROTOCOL_VERSION
    ensures var e := Handle(c, s, now, Decode(c.order, s.buffer));
            && e.s.buffer == s.buffer
            && Process(c, s, now) ==
                 Join2(e, Process(c, e.s.(buffer := s.buffer[FrameSize(c.order, s.buffer)..]), now))
  {
    var m, more := Decode(c.order, s.buffer), s.buffer[FrameSize(c.order, s.buffer)..];
    var e := Handle(c, s, now, m);
    var d := Drain(c.order, more);
    HandleFrame(c, s, now, m);
    assert Drain(c.order, s.buffer).msgs == [m] + d.msgs;
    assert ([m] + d.msgs)[1..] == d.msgs;
    HandleAllBuffer(c, e.s, now, d.msgs, more);
  }

  /** Part of the way through a pass: what has been done, then the pass over what is left, makes the whole pass. */
  ghost predicate Pending(c: Config, whole: Effect, s: State, outs: seq<Out>, now: int) {
    whole == Join2(Effect(s, outs), Process(c, s, now))
  }

  /** Handles the frame at the front of the buffer and erases it. */
  function Consume(c: Config, s: State, now: int): Effect
    requires !Idle(c.order, s.buffer)
  {
    var e := Handle(c, s, now, Decode(c.order, s.buffer));
    Effect(e.s.(buffer := s.buffer[FrameSize(c.order, s.buffer)..]), e.outs)
  }

  lemma PendingStep(c: Config, whole: Effect, s: State, outs: seq<Out>, now: int)
    requires Linked(s) && !Idle(c.order, s.buffer) && s.buffer[0] == PROTOCOL_VERSION
    requires Pending(c, whole, s, outs, now)
    ensures var e := Consume(c, s, now);
            Linked(e.s) && |e.s.buffer| < |s.buffer| && Pending(c, whole, e.s, outs + e.outs, now)
  {
    var e := Consume(c, s, now);
    ProcessStep(c, s, now);
    HandleFrame(c, s, now, Decode(c.order, s.buffer));
    var more := Process(c, e.s, now).outs;
    assert outs + (e.outs + more) == outs + e.outs + more;
  }

  lemma PendingDone(c: Config, whole: Effect, s: State, outs: seq<Out>, now: int)
    requires Pending(c, whole, s, outs, now)
    ensures Idle(c.order, s.buffer) ==> whole == Effect(s, outs)
    ensures !Idle(c.order, s.buffer) && s.buffer[0] != PROTOCOL_VERSION ==> whole == Effect(s.(buffer := []), outs)
  {
    assert outs + [] == outs;
  }
}
