/**
 What a session does, event by event and over whole runs, said without its operations
 (src/session.cpp:86-334): when it closes, what it writes, when its timer runs and when it
 reads, and which handlers it calls.
 */
module SessionLaws {
  import opened Message
  import opened Framing
  import opened Dispatch
  import opened Timing
  import opened SessionSpec

  // ----- What the handlers of one read do -----

  /** The calls the packets completed by a read ask for. */
  function ReadCalls(c: Config, buffer: seq<byte>, chunk: seq<byte>): seq<(nat, Msg)> {
    if chunk == [] then [] else Deliver(SessionRouter(c.routes), Drain(c.order, buffer + chunk).msgs)
  }

  function ReadActs(c: Config, buffer: seq<byte>, chunk: seq<byte>): seq<Action> {
    Acts(c.behave, ReadCalls(c, buffer, chunk))
  }

  /** An open session carries out replies up to the first hang-up, and then is closing; a closing one does nothing. */
  ghost predicate Performs(s: State, acts: seq<Action>, e: Effect) {
    && Linked(e.s)
    && (e.s.closing <==> s.closing || HangsUp(acts))
    && Written(e.outs) == (if s.closing then [] else Replies(acts))
  }

  lemma PerformsJoin(s: State, a: seq<Action>, e: Effect, b: seq<Action>, f: Effect)
    requires Performs(s, a, e) && Performs(e.s, b, f)
    ensures Performs(s, a + b, Join2(e, f))
  {
    RepliesAppend(a, b);
    WrittenAppend(e.outs, f.outs);
  }

  lemma ActPerforms(s: State, a: Action)
    requires Linked(s)
    ensures Performs(s, [a], Act(s, a))
  {
    assert [a][1..] == [];
    match a
    case Reply(m) => WrittenSingle(Write(m));
    case HangUp => WrittenSingle(UvClose);
  }

  lemma {:induction false} ReactPerforms(s: State, acts: seq<Action>)
    requires Linked(s)
    ensures Performs(s, acts, React(s, acts))
    decreases |acts|
  {
    if acts != [] {
      var e := Act(s, acts[0]);
      ActPerforms(s, acts[0]);
      ReactPerforms(e.s, acts[1..]);
      PerformsJoin(s, [acts[0]], e, acts[1..], React(e.s, acts[1..]));
      FirstAndRest(acts);
    }
  }

  lemma CallPerforms(c: Config, s: State, h: nat, m: Msg)
    requires Linked(s)
    ensures Performs(s, c.behave(h, m), Join2(Effect(s, [Call(h, m)]), React(s, c.behave(h, m))))
  {
    var acts := c.behave(h, m);
    ReactPerforms(s, acts);
    WrittenSingle(Call(h, m));
    PerformsJoin(s, [], Effect(s, [Call(h, m)]), acts, React(s, acts));
    assert [] + acts == acts;
  }

  lemma HandlePerforms(c: Config, s: State, now: int, m: Msg)
    requires Linked(s)
    ensures Performs(s, Acts(c.behave, DeliverOne(SessionRoute(c.routes, m), m)), Handle(c, s, now, m))
  {
    var route := SessionRoute(c.routes, m);
    if route.Some? {
      CallPerforms(c, s, route.value, m);
      OneAct(c.behave, (route.value, m));
    }
  }

  lemma {:induction false} HandleAllPerforms(c: Config, s: State, now: int, msgs: seq<Msg>)
    requires Linked(s)
    ensures Performs(s, Acts(c.behave, Deliver(SessionRouter(c.routes), msgs)), HandleAll(c, s, now, msgs))
    decreases |msgs|
  {
    if msgs != [] {
      var e := Handle(c, s, now, msgs[0]);
      var one, more := DeliverOne(SessionRoute(c.routes, msgs[0]), msgs[0]), Deliver(SessionRouter(c.routes), msgs[1..]);
      HandlePerforms(c, s, now, msgs[0]);
      HandleAllPerforms(c, e.s, now, msgs[1..]);
      PerformsJoin(s, Acts(c.behave, one), e, Acts(c.behave, more), HandleAll(c, e.s, now, msgs[1..]));
      ActsAppend(c.behave, one, more);
    }
  }

  /** A read carries out all that the handlers it calls ask for. */
  lemma ReadPerforms(c: Config, s: State, t: Moment)
    requires Linked(s) && t.event.Read?
    ensures Performs(s, ReadActs(c, s.buffer, t.event.chunk), Step(c, s, t))
  {
    var chunk := t.event.chunk;
    if chunk != [] {
      HandleAllPerforms(c, s.(buffer := s.buffer + chunk), t.at, Drain(c.order, s.buffer + chunk).msgs);
    }
  }

  /** Handling a list of packets is handling its first part and then its second, with all effects in that order. */
  lemma {:induction false} HandleAllSplit(c: Config, s: State, now: int, a: seq<Msg>, b: seq<Msg>)
    ensures HandleAll(c, s, now, a + b) ==
              Join2(HandleAll(c, s, now, a), HandleAll(c, HandleAll(c, s, now, a).s, now, b))
    decreases |a|
  {
    if a == [] {
      assert a + b == b;
    } else {
      var e := Handle(c, s, now, a[0]);
      assert (a + b)[0] == a[0] && (a + b)[1..] == a[1..] + b;
      HandleAllSplit(c, e.s, now, a[1..], b);
      var f := HandleAll(c, e.s, now, a[1..]);
      Assoc(e.outs, f.outs, HandleAll(c, f.s, now, b).outs);
    }
  }

  /** A packet's handler is called before anything it does takes effect. */
  lemma CallComesFirst(c: Config, s: State, now: int, m: Msg)
    ensures var outs := Handle(c, s, now, m).outs;
            if SessionRoute(c.routes, m).Some? then outs != [] && outs[0] == Call(SessionRoute(c.routes, m).value, m) else outs == []
  {
  }

  // ----- When a session closes -----

  /** A firing that finds the timer armed and the last refresh 90001 ms back. */
  predicate Late(s: State, t: Moment) {
    t.event.Tick? && s.armed && t.at - s.lastBeat >= TIMEOUT_TICKS
  }

  /** The events that close an open session. */
  predicate Ends(c: Config, s: State, t: Moment) {
    || t.event.ReadFailed?
    || (t.event.WriteDone? && !t.event.ok)
    || t.event.CloseCall?
    || Late(s, t)
    || (t.event.Read? && HangsUp(ReadActs(c, s.buffer, t.event.chunk)))
  }

  /**
   A step leaves a session closing exactly when it was, or when the event is a failed read, a
   failed write, a close call, a late firing, or a read with a packet whose handler hangs up;
   and it issues a `uv_close` exactly when it is such an event that closes it.
   */
  lemma StepClosesExact(c: Config, s: State, t: Moment)
    requires Linked(s)
    ensures var e := Step(c, s, t);
            && (e.s.closing <==> s.closing || Ends(c, s, t))
            && Count(e.outs, UvClose) == One(!s.closing && Ends(c, s, t))
  {
    StepSane(c, s, t);
    if t.event.Read? {
      ReadPerforms(c, s, t);
    }
  }

  /** Some event of a run closes the session, or would if it were open. */
  predicate SomeEnds(c: Config, s: State, ts: seq<Moment>)
    decreases |ts|
  {
    ts != [] && (Ends(c, s, ts[0]) || SomeEnds(c, Step(c, s, ts[0]).s, ts[1..]))
  }

  /** At the end of a run a session is closing exactly when it was at its start or some such event occurred. */
  lemma {:induction false} RunClosesExact(c: Config, s: State, ts: seq<Moment>)
    requires Linked(s)
    ensures var e := Run(c, s, ts);
            && (e.s.closing <==> s.closing || SomeEnds(c, s, ts))
            && Count(e.outs, UvClose) == One(!s.closing && SomeEnds(c, s, ts))
    decreases |ts|
  {
    if ts != [] {
      var e := Step(c, s, ts[0]);
      StepSane(c, s, ts[0]);
      StepClosesExact(c, s, ts[0]);
      RunClosesExact(c, e.s, ts[1..]);
      CountAppend(e.outs, Run(c, e.s, ts[1..]).outs, UvClose);
    }
  }

  // ----- What a session writes -----

  /** What an event makes an open session write: what it is given to send, a HEARTBEAT for a firing in time, its handlers' replies. */
  function Due(c: Config, s: State, t: Moment): seq<Msg> {
    if t.event.SendCall? then [t.event.m]
    else if t.event.Tick? && s.armed && !Late(s, t) then [Msg(HEARTBEAT, [], 0)]
    else if t.event.Read? then Replies(ReadActs(c, s.buffer, t.event.chunk))
    else []
  }

  lemma StepWritesExact(c: Config, s: State, t: Moment)
    requires Linked(s)
    ensures Written(Step(c, s, t).outs) == if s.closing then [] else Due(c, s, t)
  {
    if t.event.Read? {
      ReadPerforms(c, s, t);
    } else {
      var m := if t.event.SendCall? then t.event.m else Msg(HEARTBEAT, [], 0);
      WrittenSingle(Write(m));
      WrittenSingle(UvClose);
      WrittenSingle(Closed(c.notifyClose));
    }
  }

  /** What the events of a run make the session write, as long as it is open. */
  function AllDue(c: Config, s: State, ts: seq<Moment>): seq<Msg>
    decreases |ts|
  {
    if ts == [] || s.closing then [] else Due(c, s, ts[0]) + AllDue(c, Step(c, s, ts[0]).s, ts[1..])
  }

  /** Over a run the packets written are exactly those, in order. */
  lemma {:induction false} RunWritesExact(c: Config, s: State, ts: seq<Moment>)
    requires Linked(s)
    ensures Written(Run(c, s, ts).outs) == AllDue(c, s, ts)
    decreases |ts|
  {
    if ts != [] {
      var e := Step(c, s, ts[0]);
      StepSane(c, s, ts[0]);
      StepWritesExact(c, s, ts[0]);
      RunWritesExact(c, e.s, ts[1..]);
      WrittenAppend(e.outs, Run(c, e.s, ts[1..]).outs);
    }
  }

  // ----- When its timer runs and when it reads -----

  /** From the events alone: was the last of the starts and stops a start? */
  predicate Started(armed: bool, ts: seq<Moment>)
    decreases |ts|
  {
    if ts == [] then armed
    else Started(if ts[0].event.StartCall? then true else if ts[0].event.StopCall? then false else armed, ts[1..])
  }

  /** The timer runs exactly from a start to a stop, whatever else happens, closing included. */
  lemma {:induction false} TimerExact(c: Config, s: State, ts: seq<Moment>)
    requires Linked(s)
    ensures Run(c, s, ts).s.armed <==> Started(s.armed, ts)
    decreases |ts|
  {
    if ts != [] {
      StepSane(c, s, ts[0]);
      StepFrame(c, s, ts[0]);
      TimerExact(c, Step(c, s, ts[0]).s, ts[1..]);
    }
  }

  /** A start that succeeds on an open session has not been followed by a stop. */
  predicate ReadingSince(c: Config, s: State, reading: bool, ts: seq<Moment>)
    decreases |ts|
  {
    if ts == [] then reading
    else
      var t := ts[0];
      ReadingSince(c, Step(c, s, t).s, !t.event.StopCall? && (reading || (t.event.StartCall? && t.event.readOk && !s.closing)), ts[1..])
  }

  lemma StepReading(c: Config, s: State, t: Moment)
    requires Linked(s)
    ensures Step(c, s, t).s.reading <==> !t.event.StopCall? && (s.reading || (t.event.StartCall? && t.event.readOk && !s.closing))
  {
    if t.event.Read? {
      HandleAllFrame(c, s.(buffer := s.buffer + t.event.chunk), t.at, Drain(c.order, s.buffer + t.event.chunk).msgs);
    }
  }

  lemma {:induction false} ReadingExact(c: Config, s: State, ts: seq<Moment>)
    requires Linked(s)
    ensures Run(c, s, ts).s.reading <==> ReadingSince(c, s, s.reading, ts)
    decreases |ts|
  {
    if ts != [] {
      StepSane(c, s, ts[0]);
      StepReading(c, s, ts[0]);
      ReadingExact(c, Step(c, s, ts[0]).s, ts[1..]);
    }
  }

  // ----- Runs in parts -----

  lemma RunUnfold(c: Config, s: State, t: Moment, ts: seq<Moment>)
    ensures Run(c, s, [t] + ts) == Join2(Step(c, s, t), Run(c, Step(c, s, t).s, ts))
  {
    assert ([t] + ts)[1..] == ts;
  }

  lemma {:induction false} RunAppend(c: Config, s: State, a: seq<Moment>, b: seq<Moment>)
    ensures Run(c, s, a + b) == Join2(Run(c, s, a), Run(c, Run(c, s, a).s, b))
    decreases |a|
  {
    if a == [] {
      assert a + b == b;
    } else {
      var t, more := a[0], a[1..];
      var e := Step(c, s, t);
      assert a == [t] + more && a + b == [t] + (more + b);
      RunUnfold(c, s, t, more);
      RunUnfold(c, s, t, more + b);
      RunAppend(c, e.s, more, b);
      Assoc(e.outs, Run(c, e.s, more).outs, Run(c, Run(c, e.s, more).s, b).outs);
    }
  }

  /** A session that is closing after part of a run is closing at its end. */
  lemma ClosingStays(c: Config, s: State, ts: seq<Moment>, k: nat)
    requires Linked(s) && k <= |ts| && Run(c, s, ts[..k]).s.closing
    ensures Run(c, s, ts).s.closing
  {
    assert ts == ts[..k] + ts[k..];
    RunAppend(c, s, ts[..k], ts[k..]);
    RunSane(c, s, ts[..k]);
    RunSane(c, Run(c, s, ts[..k]).s, ts[k..]);
  }

  // ----- Which handlers it calls -----

  /**
   Over a whole run the handlers called are one for each packet read that is not a HEARTBEAT,
   passes its interceptor and has a handler: that of its type, or else the default one.
   */
  lemma RunCallsExact(c: Config, s: State, ts: seq<Moment>)
    requires Linked(s)
    ensures Follow(c.routes.handlers, c.routes.fallback, Calls(Run(c, s, ts).outs),
                   Picked(c.routes, true, Feed(c.order, s.buffer, Chunks(ts)).msgs))
  {
    RunDispatches(c, s, ts);
    DeliverFollows(c.routes, true, Feed(c.order, s.buffer, Chunks(ts)).msgs);
  }
}
