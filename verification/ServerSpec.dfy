/**
 The meaning of the server (src/server.cpp): the registry of sessions over whole runs, the
 routing of packets through the callbacks it installs on each session, and delivery to
 sessions by broadcast or by id.
 */
module ServerSpec {
  import opened Message
  import opened Framing
  import opened Dispatch
  import opened SessionIds
  import Spec = SessionSpec

  // ----- Two-level routing -----

  /** The two callbacks the server installs on a session: one that does nothing, one that forwards. */
  const IGNORE: nat := 0
  const FORWARD: nat := 1

  function InstalledRoutes(interceptors: map<byte, Interceptor>): Routes {
    Routes(map[HEARTBEAT := IGNORE], Some(FORWARD), interceptors)
  }

  /** The server's own callbacks. */
  datatype ServerHandlers = ServerHandlers(handlers: map<byte, nat>, fallback: Option<nat>)

  /** The server callback a call on the session turns into. */
  function Forwarded(h: ServerHandlers, call: (nat, Msg)): seq<(nat, Msg)> {
    if call.0 == FORWARD then DeliverOne(Lookup(h.handlers, h.fallback, call.1.kind), call.1) else []
  }

  function ServerCalls(h: ServerHandlers, calls: seq<(nat, Msg)>): seq<(nat, Msg)> {
    if calls == [] then [] else Forwarded(h, calls[0]) + ServerCalls(h, calls[1..])
  }

  /** A packet some server callback is meant to see. */
  predicate Wanted(h: ServerHandlers, interceptors: map<byte, Interceptor>, m: Msg) {
    && m.kind != HEARTBEAT
    && Passes(interceptors, m)
    && (m.kind in h.handlers || h.fallback.Some?)
  }

  /** The packets of a list that some server callback is meant to see, in order. */
  function Select(h: ServerHandlers, interceptors: map<byte, Interceptor>, msgs: seq<Msg>): seq<Msg> {
    if msgs == [] then []
    else (if Wanted(h, interceptors, msgs[0]) then [msgs[0]] else []) + Select(h, interceptors, msgs[1..])
  }

  /** The server callbacks a packet stream reaches are one for each wanted packet, in order, each the right one. */
  ghost predicate CallsAre(h: ServerHandlers, calls: seq<(nat, Msg)>, msgs: seq<Msg>) {
    && |calls| == |msgs|
    && forall i :: 0 <= i < |calls| ==>
         && calls[i].1 == msgs[i]
         && if msgs[i].kind in h.handlers then calls[i].0 == h.handlers[msgs[i].kind] else h.fallback == Some(calls[i].0)
  }

  /**
   Through both levels, over a whole stream: every wanted packet reaches exactly one server
   callback, in order; HEARTBEATs (even with a server callback registered for them) and
   packets an interceptor rejects reach none.
   */
  lemma {:induction false} TwoLevelRouting(h: ServerHandlers, interceptors: map<byte, Interceptor>, msgs: seq<Msg>)
    ensures CallsAre(h, ServerCalls(h, Deliver(SessionRouter(InstalledRoutes(interceptors)), msgs)), Select(h, interceptors, msgs))
    decreases |msgs|
  {
    if msgs != [] {
      var router := SessionRouter(InstalledRoutes(interceptors));
      var m, rest := msgs[0], Deliver(router, msgs[1..]);
      TwoLevelRouting(h, interceptors, msgs[1..]);
      OneRouting(h, interceptors, m);
      ServerCallsAppend(h, DeliverOne(router(m), m), rest);
    }
  }

  lemma OneRouting(h: ServerHandlers, interceptors: map<byte, Interceptor>, m: Msg)
    ensures var one := DeliverOne(SessionRoute(InstalledRoutes(interceptors), m), m);
            && |one| <= 1
            && CallsAre(h, ServerCalls(h, one), if Wanted(h, interceptors, m) then [m] else [])
  {
    assert [(FORWARD, m)][1..] == [];
    assert ServerCalls(h, [(FORWARD, m)]) == Forwarded(h, (FORWARD, m)) + [];
  }

  lemma ServerCallsAppend(h: ServerHandlers, one: seq<(nat, Msg)>, rest: seq<(nat, Msg)>)
    requires |one| <= 1
    ensures ServerCalls(h, one + rest) == ServerCalls(h, one) + ServerCalls(h, rest)
  {
    if one == [] {
      assert one + rest == rest;
    } else {
      assert (one + rest)[1..] == rest && one[1..] == [];
    }
  }

  /** The same for a session's whole run: what its reads feed decides which server callbacks run. */
  lemma RunRoutes(c: Spec.Config, h: ServerHandlers, interceptors: map<byte, Interceptor>, s: Spec.State,
                  ts: seq<Spec.Moment>)
    requires Spec.Linked(s) && c.routes == InstalledRoutes(interceptors)
    ensures CallsAre(h, ServerCalls(h, Calls(Spec.Run(c, s, ts).outs)),
                     Select(h, interceptors, Feed(c.order, s.buffer, Spec.Chunks(ts)).msgs))
  {
    Spec.RunDispatches(c, s, ts);
    TwoLevelRouting(h, interceptors, Feed(c.order, s.buffer, Spec.Chunks(ts)).msgs);
  }

  // ----- The registry -----

  /** What does not change during a run: how sessions are set up, and whether the server's own handlers are set. */
  datatype Config = Config(
    order: ByteOrder, interceptors: map<byte, Interceptor>, behave: Behaviour, notifyConnect: bool, notifyClose: bool)

  /** Every session forwards to the server, and its close handler is always set. */
  function SessionConfig(c: Config): Spec.Config {
    Spec.Config(c.order, InstalledRoutes(c.interceptors), c.behave, true)
  }

  /** A session is known by its address; `states` has every session accepted, for its own callbacks keep it alive. */
  datatype State = State(sessions: seq<nat>, states: map<nat, Spec.State>)

  const NEW_SERVER := State([], map[])

  datatype Event =
    | Accept(address: nat, at: int, readOk: bool) | AcceptFailed
    | On(address: nat, t: Spec.Moment) | Broadcast(m: Msg, now: int) | SendTo(id: string, m: Msg, now: int)

  datatype Effect = Effect(s: State, outs: seq<(nat, Out)>)

  /** Erasing one element from the registry: all its occurrences go, the order of the others stays. */
  function Without(sessions: seq<nat>, a: nat): seq<nat> {
    if sessions == [] then []
    else (if sessions[0] == a then [] else [sessions[0]]) + Without(sessions[1..], a)
  }

  function Open(states: map<nat, Spec.State>, a: nat): bool {
    a in states && !states[a].closing
  }

  function BroadcastOuts(states: map<nat, Spec.State>, sessions: seq<nat>, m: Msg): seq<(nat, Out)> {
    if sessions == [] then []
    else (if Open(states, sessions[0]) then [(sessions[0], Write(m))] else []) + BroadcastOuts(states, sessions[1..], m)
  }

  function SendToOuts(states: map<nat, Spec.State>, sessions: seq<nat>, id: string, m: Msg): seq<(nat, Out)> {
    if sessions == [] then []
    else if SessionId(sessions[0]) == id then
      if Open(states, sessions[0]) then [(sessions[0], Write(m))] else []
    else SendToOuts(states, sessions[1..], id, m)
  }

  /**
   An address is not reused while the session object exists.  When a session calls its close
   handler, the server forgets the session.  What the connect handler does with the new
   session are further events.
   */
  function Step(c: Config, v: State, ev: Event): Effect {
    match ev
    case Accept(a, at, readOk) =>
      if a in v.states then Effect(v, [])
      else Effect(State(v.sessions + [a], v.states[a := Spec.Start(Spec.NEW_SESSION, at, readOk)]),
                  [(a, Connected(c.notifyConnect))])
    case AcceptFailed => Effect(v, [])
    case On(a, t) =>
      if a !in v.states then Effect(v, [])
      else
        var e := Spec.Step(SessionConfig(c), v.states[a], t);
        var states := v.states[a := e.s];
        if Closed(true) in e.outs
        then Effect(State(Without(v.sessions, a), states), Tag(a, e.outs + [Forgotten(c.notifyClose)]))
        else Effect(State(v.sessions, states), Tag(a, e.outs))
    case Broadcast(m, _) => Effect(v, BroadcastOuts(v.states, v.sessions, m))
    case SendTo(id, m, _) => Effect(v, SendToOuts(v.states, v.sessions, id, m))
  }

  function Run(c: Config, v: State, evs: seq<Event>): Effect
    decreases |evs|
  {
    if evs == [] then Effect(v, [])
    else
      var e := Step(c, v, evs[0]);
      var f := Run(c, e.s, evs[1..]);
      Effect(f.s, e.outs + f.outs)
  }

  // ----- What a log says -----

  /** The sessions an effect happened to, in order. */
  function Who(log: seq<(nat, Out)>, o: Out): seq<nat> {
    if log == [] then [] else (if log[0].1 == o then [log[0].0] else []) + Who(log[1..], o)
  }

  lemma {:induction false} WhoAppend(a: seq<(nat, Out)>, b: seq<(nat, Out)>, o: Out)
    ensures Who(a + b, o) == Who(a, o) + Who(b, o)
  {
    if a == [] {
      assert a + b == b;
    } else {
      var one, more := if a[0].1 == o then [a[0].0] else [], Who(a[1..], o);
      WhoAppend(a[1..], b, o);
      assert (a + b)[1..] == a[1..] + b;
      Assoc(one, more, Who(b, o));
    }
  }

  lemma {:induction false} WhoNone(log: seq<(nat, Out)>, o: Out)
    requires forall i :: 0 <= i < |log| ==> log[i].1 != o
    ensures Who(log, o) == []
  {
    if log != [] {
      WhoNone(log[1..], o);
    }
  }

  lemma WhoSingle(a: nat, p: Out, o: Out)
    ensures Who([(a, p)], o) == if p == o then [a] else []
  {
    assert [(a, p)][1..] == [];
  }

  lemma {:induction false} CountWho(log: seq<(nat, Out)>, o: Out, a: nat)
    ensures Count(Who(log, o), a) == Count(log, (a, o))
  {
    if log != [] {
      CountWho(log[1..], o, a);
      var one: seq<nat> := if log[0].1 == o then [log[0].0] else [];
      CountAppend(one, Who(log[1..], o), a);
      CountSingle(log[0].0, a);
    }
  }

  predicate Distinct(s: seq<nat>) {
    forall i, j :: 0 <= i < j < |s| ==> s[i] != s[j]
  }

  lemma {:induction false} DistinctCount(s: seq<nat>, a: nat)
    requires Distinct(s)
    ensures Count(s, a) == One(a in s)
  {
    if s != [] {
      DistinctCount(s[1..], a);
      assert s == [s[0]] + s[1..];
    }
  }

  lemma CountDistinct(log: seq<(nat, Out)>, o: Out, a: nat)
    requires Distinct(Who(log, o))
    ensures Count(log, (a, o)) == One(a in Who(log, o))
  {
    CountWho(log, o, a);
    DistinctCount(Who(log, o), a);
  }

  /** The elements of `all` that are not in `gone`, in order. */
  function Remaining(all: seq<nat>, gone: seq<nat>): seq<nat> {
    if all == [] then []
    else (if all[0] in gone then [] else [all[0]]) + Remaining(all[1..], gone)
  }

  lemma {:induction false} WithoutRemaining(all: seq<nat>, gone: seq<nat>, a: nat)
    ensures Without(Remaining(all, gone), a) == Remaining(all, gone + [a])
  {
    if all != [] {
      WithoutRemaining(all[1..], gone, a);
      var one, rest := (if all[0] in gone then [] else [all[0]]), Remaining(all[1..], gone);
      if one == [] {
        assert one + rest == rest;
      } else {
        assert (one + rest)[1..] == rest;
      }
      assert (if all[0] in gone + [a] then [] else [all[0]]) == if all[0] == a then [] else one;
    }
  }

  lemma {:induction false} RemainingAppend(all: seq<nat>, gone: seq<nat>, a: nat)
    requires a !in gone
    ensures Remaining(all + [a], gone) == Remaining(all, gone) + [a]
  {
    if all == [] {
      assert all + [a] == [a];
      assert [a][1..] == [];
    } else {
      RemainingAppend(all[1..], gone, a);
      assert (all + [a])[1..] == all[1..] + [a];
    }
  }

  lemma {:induction false} RemainingDistinct(all: seq<nat>, gone: seq<nat>)
    requires Distinct(all)
    ensures Distinct(Remaining(all, gone))
  {
    if all != [] {
      RemainingDistinct(all[1..], gone);
      RemainingMembers(all[1..], gone);
    }
  }

  lemma {:induction false} RemainingMembers(all: seq<nat>, gone: seq<nat>)
    ensures forall a :: a in Remaining(all, gone) <==> a in all && a !in gone
  {
    if all != [] {
      RemainingMembers(all[1..], gone);
    }
  }

  // ----- The registry agrees with history -----

  /** A session called back has closed; one that is closing and not called back is owed one callback. */
  ghost predicate Called(s: Spec.State, called: bool) {
    Spec.Linked(s) && s.owedCloses == One(s.closing && !called) && (called ==> s.closing)
  }

  /** The registry is the sessions accepted and not called back, in order. */
  ghost predicate Agrees(v: State, accepted: seq<nat>, closed: seq<nat>) {
    && Distinct(accepted) && Distinct(closed)
    && (forall a :: a in v.states <==> a in accepted)
    && (forall a :: a in closed ==> a in accepted)
    && v.sessions == Remaining(accepted, closed)
    && forall a :: a in v.states ==> Called(v.states[a], a in closed)
  }

  /** The state agrees with what has happened, and the server's close handler was told of each call back. */
  ghost predicate Inv(c: Config, v: State, log: seq<(nat, Out)>) {
    && Agrees(v, Who(log, Connected(c.notifyConnect)), Who(log, Closed(true)))
    && Who(log, Forgotten(true)) == if c.notifyClose then Who(log, Closed(true)) else []
  }

  lemma AcceptAgrees(v: State, accepted: seq<nat>, closed: seq<nat>, a: nat, s: Spec.State)
    requires Agrees(v, accepted, closed) && a !in v.states && Called(s, false)
    ensures Agrees(State(v.sessions + [a], v.states[a := s]), accepted + [a], closed)
  {
    RemainingAppend(accepted, closed, a);
  }

  lemma UpdateAgrees(v: State, accepted: seq<nat>, closed: seq<nat>, a: nat, s: Spec.State)
    requires Agrees(v, accepted, closed) && a in v.states && Called(s, a in closed)
    ensures Agrees(State(v.sessions, v.states[a := s]), accepted, closed)
  {
  }

  lemma CloseAgrees(v: State, accepted: seq<nat>, closed: seq<nat>, a: nat, s: Spec.State)
    requires Agrees(v, accepted, closed) && a in v.states && a !in closed && Called(s, true)
    ensures Agrees(State(Without(v.sessions, a), v.states[a := s]), accepted, closed + [a])
  {
    WithoutRemaining(accepted, closed, a);
  }

  /** The events at which a session calls its close handler. */
  predicate CallsBack(v: State, ev: Event) {
    ev.On? && ev.address in v.states && ev.t.event.CloseDone? && v.states[ev.address].owedCloses > 0
  }

  /** What one event does to a session's account of close callbacks. */
  lemma CalledAfterStep(c: Spec.Config, s: Spec.State, t: Spec.Moment, called: bool)
    requires Called(s, called) && c.notifyClose
    ensures Called(Spec.Step(c, s, t).s, called || (t.event.CloseDone? && s.owedCloses > 0))
  {
    Spec.StepSane(c, s, t);
    Spec.StepClosesBack(c, s, t, true);
  }

  lemma OnOuts(c: Config, v: State, a: nat, t: Spec.Moment)
    requires a in v.states
    ensures var outs := Step(c, v, On(a, t)).outs;
            if CallsBack(v, On(a, t)) then outs == [(a, Closed(true)), (a, Forgotten(c.notifyClose))]
            else Plain(outs)
  {
    Spec.StepOuts(SessionConfig(c), v.states[a], t);
    var n := Forgotten(c.notifyClose);
    assert Tag(a, [Closed(true)] + [n]) == [(a, Closed(true)), (a, n)];
  }

  /** The whole effect of such an event. */
  lemma OnClosing(c: Config, v: State, a: nat, t: Spec.Moment)
    requires CallsBack(v, On(a, t))
    ensures var s := Spec.OnClose(SessionConfig(c), v.states[a]).s;
            Step(c, v, On(a, t)) ==
              Effect(State(Without(v.sessions, a), v.states[a := s]), Tag(a, [Closed(true)]) + [(a, Forgotten(c.notifyClose))])
  {
    var n := Forgotten(c.notifyClose);
    assert Tag(a, [Closed(true)] + [n]) == Tag(a, [Closed(true)]) + [(a, n)];
  }

  /** The session an event adds to the registry, and the one it removes, if any. */
  function Added(v: State, ev: Event): seq<nat> {
    if ev.Accept? && ev.address !in v.states then [ev.address] else []
  }

  function Dropped(v: State, ev: Event): seq<nat> {
    if CallsBack(v, ev) then [ev.address] else []
  }

  /** What an event adds to the history. */
  lemma StepHistory(c: Config, v: State, ev: Event)
    ensures var outs := Step(c, v, ev).outs;
            && Who(outs, Connected(c.notifyConnect)) == Added(v, ev)
            && Who(outs, Closed(true)) == Dropped(v, ev)
            && Who(outs, Forgotten(true)) == if c.notifyClose then Dropped(v, ev) else []
  {
    if CallsBack(v, ev) {
      OnOuts(c, v, ev.address, ev.t);
      TwoHistory(ev.address, Forgotten(c.notifyClose), c.notifyConnect);
    } else if Added(v, ev) != [] {
      WhoSingle(ev.address, Connected(c.notifyConnect), Connected(c.notifyConnect));
      WhoSingle(ev.address, Connected(c.notifyConnect), Closed(true));
      WhoSingle(ev.address, Connected(c.notifyConnect), Forgotten(true));
    } else {
      var outs := Step(c, v, ev).outs;
      PlainOuts(c, v, ev);
      WhoNone(outs, Connected(c.notifyConnect));
      WhoNone(outs, Closed(true));
      WhoNone(outs, Forgotten(true));
    }
  }

  lemma TwoHistory(a: nat, n: Out, notified: bool)
    requires n.Forgotten?
    ensures var log := [(a, Closed(true)), (a, n)];
            && Who(log, Connected(notified)) == [] && Who(log, Closed(true)) == [a]
            && Who(log, Forgotten(true)) == if n.notified then [a] else []
  {
    assert [(a, Closed(true)), (a, n)][1..] == [(a, n)];
    WhoSingle(a, n, Connected(notified));
    WhoSingle(a, n, Closed(true));
    WhoSingle(a, n, Forgotten(true));
  }

  /** Effects that add nothing to the history. */
  predicate Plain(outs: seq<(nat, Out)>) {
    forall i :: 0 <= i < |outs| ==> outs[i].1.Write? || outs[i].1.UvClose? || outs[i].1.Call?
  }

  lemma SendsPlain(outs: seq<(nat, Out)>, sessions: seq<nat>, m: Msg)
    requires Sends(outs, sessions, m)
    ensures Plain(outs)
  {
  }

  lemma PlainOuts(c: Config, v: State, ev: Event)
    requires !CallsBack(v, ev) && Added(v, ev) == []
    ensures Plain(Step(c, v, ev).outs)
  {
    match ev
    case On(a, t) =>
      if a in v.states {
        OnOuts(c, v, a, t);
        assert !CallsBack(v, On(a, t));
      }
    case Broadcast(m, _) =>
      var outs := BroadcastOuts(v.states, v.sessions, m);
      BroadcastAmong(v.states, v.sessions, m);
      SendsPlain(outs, v.sessions, m);
    case SendTo(id, m, _) => SendToPlain(v.states, v.sessions, id, m);
    case _ =>
  }

  lemma {:induction false} SendToPlain(states: map<nat, Spec.State>, sessions: seq<nat>, id: string, m: Msg)
    ensures Plain(SendToOuts(states, sessions, id, m))
    decreases |sessions|
  {
    if sessions != [] && SessionId(sessions[0]) != id {
      SendToPlain(states, sessions[1..], id, m);
    }
  }

  lemma OnKeeps(c: Config, v: State, accepted: seq<nat>, closed: seq<nat>, a: nat, t: Spec.Moment)
    requires Agrees(v, accepted, closed) && a in v.states
    ensures Agrees(Step(c, v, On(a, t)).s, accepted, if CallsBack(v, On(a, t)) then closed + [a] else closed)
  {
    var s, called := v.states[a], a in closed;
    var e := Spec.Step(SessionConfig(c), s, t);
    assert Called(s, called);
    CalledAfterStep(SessionConfig(c), s, t, called);
    Spec.StepOuts(SessionConfig(c), s, t);
    if CallsBack(v, On(a, t)) {
      CloseAgrees(v, accepted, closed, a, e.s);
    } else {
      UpdateAgrees(v, accepted, closed, a, e.s);
    }
  }

  lemma StateKeeps(c: Config, v: State, accepted: seq<nat>, closed: seq<nat>, ev: Event)
    requires Agrees(v, accepted, closed)
    ensures Agrees(Step(c, v, ev).s, accepted + Added(v, ev), closed + Dropped(v, ev))
  {
    assert accepted + [] == accepted && closed + [] == closed;
    match ev
    case Accept(a, at, readOk) =>
      if a !in v.states {
        AcceptAgrees(v, accepted, closed, a, Spec.Start(Spec.NEW_SESSION, at, readOk));
      }
    case On(a, t) =>
      if a in v.states {
        OnKeeps(c, v, accepted, closed, a, t);
      }
    case _ =>
  }

  lemma StepKeeps(c: Config, v: State, log: seq<(nat, Out)>, ev: Event)
    requires Inv(c, v, log)
    ensures var e := Step(c, v, ev); Inv(c, e.s, log + e.outs)
  {
    var outs := Step(c, v, ev).outs;
    StepHistory(c, v, ev);
    WhoAppend(log, outs, Connected(c.notifyConnect));
    WhoAppend(log, outs, Closed(true));
    WhoAppend(log, outs, Forgotten(true));
    StateKeeps(c, v, Who(log, Connected(c.notifyConnect)), Who(log, Closed(true)), ev);
  }

  lemma {:induction false} AlwaysInv(c: Config, v: State, log: seq<(nat, Out)>, evs: seq<Event>)
    requires Inv(c, v, log)
    ensures var e := Run(c, v, evs); Inv(c, e.s, log + e.outs)
    decreases |evs|
  {
    if evs == [] {
      assert log + [] == log;
    } else {
      var e := Step(c, v, evs[0]);
      StepKeeps(c, v, log, evs[0]);
      AlwaysInv(c, e.s, log + e.outs, evs[1..]);
      Assoc(log, e.outs, Run(c, e.s, evs[1..]).outs);
    }
  }

  /** A registered session leaves the registry in a run exactly when it calls its close handler in it, and it does so once. */
  lemma RemovedAreCalledBack(c: Config, v: State, log: seq<(nat, Out)>, evs: seq<Event>, a: nat)
    requires Inv(c, v, log) && a in v.sessions
    ensures var e := Run(c, v, evs); Count(e.outs, (a, Closed(true))) == One(a !in e.s.sessions)
  {
    var e := Run(c, v, evs);
    var before, during := Who(log, Closed(true)), Who(e.outs, Closed(true));
    AlwaysInv(c, v, log, evs);
    WhoAppend(log, e.outs, Closed(true));
    WhoAppend(log, e.outs, Connected(c.notifyConnect));
    RemainingMembers(Who(log, Connected(c.notifyConnect)), before);
    RemainingMembers(Who(log + e.outs, Connected(c.notifyConnect)), before + during);
    CountDistinct(log, Closed(true), a);
    CountDistinct(log + e.outs, Closed(true), a);
    CountAppend(log, e.outs, (a, Closed(true)));
  }

  lemma RunInv(c: Config, evs: seq<Event>)
    ensures var e := Run(c, NEW_SERVER, evs); Inv(c, e.s, e.outs)
  {
    AlwaysInv(c, NEW_SERVER, [], evs);
    var outs := Run(c, NEW_SERVER, evs).outs;
    assert [] + outs == outs;
  }

  /**
   Over any run the registry is exactly the sessions accepted whose close handler has not been
   called, in the order they were accepted and without duplicates; no session calls its close
   handler twice; and the server's own close handler, if one is set, has been called once for
   each of them, in the order of their calls, and for no other.
   */
  lemma RegistryAgreesWithHistory(c: Config, evs: seq<Event>)
    ensures var e := Run(c, NEW_SERVER, evs);
            var accepted, closed := Who(e.outs, Connected(c.notifyConnect)), Who(e.outs, Closed(true));
            && Distinct(accepted) && Distinct(e.s.sessions)
            && e.s.sessions == Remaining(accepted, closed)
            && (forall a :: Count(e.outs, (a, Closed(true))) == One(a in accepted && a !in e.s.sessions))
            && Who(e.outs, Forgotten(true)) == (if c.notifyClose then closed else [])
  {
    var e := Run(c, NEW_SERVER, evs);
    var accepted, closed := Who(e.outs, Connected(c.notifyConnect)), Who(e.outs, Closed(true));
    RunInv(c, evs);
    RemainingDistinct(accepted, closed);
    RemainingMembers(accepted, closed);
    forall a
      ensures Count(e.outs, (a, Closed(true))) == One(a in accepted && a !in e.s.sessions)
    {
      CountDistinct(e.outs, Closed(true), a);
    }
  }

  // ----- Whom the server's callbacks serve -----

  /** The server callback one logged effect turns into, with the session it is called for. */
  function ServedOne(h: ServerHandlers, entry: (nat, Out)): seq<(nat, (nat, Msg))> {
    if !entry.1.Call? then []
    else
      var calls := Forwarded(h, (entry.1.handler, entry.1.m));
      if calls == [] then [] else [(entry.0, calls[0])]
  }

  /** The server callbacks of a run, in order. */
  function Served(h: ServerHandlers, log: seq<(nat, Out)>): seq<(nat, (nat, Msg))> {
    if log == [] then [] else ServedOne(h, log[0]) + Served(h, log[1..])
  }

  /** Those called for one session. */
  function ServedTo(a: nat, served: seq<(nat, (nat, Msg))>): seq<(nat, Msg)> {
    if served == [] then []
    else (if served[0].0 == a then [served[0].1] else []) + ServedTo(a, served[1..])
  }

  /** The packet handlers one session calls, in order. */
  function CallsOf(a: nat, log: seq<(nat, Out)>): seq<(nat, Msg)> {
    if log == [] then []
    else (if log[0].0 == a && log[0].1.Call? then [(log[0].1.handler, log[0].1.m)] else []) + CallsOf(a, log[1..])
  }

  lemma {:induction false} ServedAppend(h: ServerHandlers, a: seq<(nat, Out)>, b: seq<(nat, Out)>)
    ensures Served(h, a + b) == Served(h, a) + Served(h, b)
  {
    if a == [] {
      assert a + b == b;
    } else {
      ServedAppend(h, a[1..], b);
      assert (a + b)[1..] == a[1..] + b;
      Assoc(ServedOne(h, a[0]), Served(h, a[1..]), Served(h, b));
    }
  }

  lemma {:induction false} CallsOfAppend(x: nat, a: seq<(nat, Out)>, b: seq<(nat, Out)>)
    ensures CallsOf(x, a + b) == CallsOf(x, a) + CallsOf(x, b)
  {
    if a == [] {
      assert a + b == b;
    } else {
      CallsOfAppend(x, a[1..], b);
      assert (a + b)[1..] == a[1..] + b;
      Assoc(if a[0].0 == x && a[0].1.Call? then [(a[0].1.handler, a[0].1.m)] else [], CallsOf(x, a[1..]), CallsOf(x, b));
    }
  }

  /** Effects that call no packet handler. */
  predicate CallFree(log: seq<(nat, Out)>) {
    forall i :: 0 <= i < |log| ==> !log[i].1.Call?
  }

  lemma {:induction false} CallFreeServes(h: ServerHandlers, log: seq<(nat, Out)>, a: nat)
    requires CallFree(log)
    ensures Served(h, log) == [] && CallsOf(a, log) == []
  {
    if log != [] {
      CallFreeServes(h, log[1..], a);
    }
  }

  lemma {:induction false} CallsOfTag(a: nat, b: nat, outs: seq<Out>)
    ensures CallsOf(a, Tag(b, outs)) == if a == b then Calls(outs) else []
  {
    if outs != [] {
      CallsOfTag(a, b, outs[1..]);
      assert Tag(b, outs)[0] == (b, outs[0]) && Tag(b, outs)[1..] == Tag(b, outs[1..]);
    }
  }

  lemma {:induction false} ServedToCalls(h: ServerHandlers, log: seq<(nat, Out)>, a: nat)
    ensures ServedTo(a, Served(h, log)) == ServerCalls(h, CallsOf(a, log))
  {
    if log != [] {
      var more := Served(h, log[1..]);
      var call: seq<(nat, Msg)> := if log[0].0 == a && log[0].1.Call? then [(log[0].1.handler, log[0].1.m)] else [];
      ServedToCalls(h, log[1..], a);
      ServerCallsAppend(h, call, CallsOf(a, log[1..]));
      OneServed(h, log[0], more, a);
    }
  }

  lemma OneCall(h: ServerHandlers, call: (nat, Msg))
    ensures ServerCalls(h, [call]) == Forwarded(h, call)
  {
    assert ServerCalls(h, [call]) == Forwarded(h, call) + ServerCalls(h, [call][1..]);
  }

  lemma OneServed(h: ServerHandlers, entry: (nat, Out), more: seq<(nat, (nat, Msg))>, a: nat)
    ensures var call: seq<(nat, Msg)> := if entry.0 == a && entry.1.Call? then [(entry.1.handler, entry.1.m)] else [];
            ServedTo(a, ServedOne(h, entry) + more) == ServerCalls(h, call) + ServedTo(a, more)
  {
    var one := ServedOne(h, entry);
    if one == [] {
      assert one + more == more;
    } else {
      assert (one + more)[1..] == more;
    }
    if entry.1.Call? {
      var call := (entry.1.handler, entry.1.m);
      OneCall(h, call);
    }
  }

  /** The bytes a session reads in a run, read by read, from the moment it exists. */
  function ChunksOf(a: nat, known: bool, evs: seq<Event>): seq<seq<byte>>
    decreases |evs|
  {
    if evs == [] then []
    else
      (if known && ReadsAt(a, evs[0]) then [evs[0].t.event.chunk] else [])
      + ChunksOf(a, known || (evs[0].Accept? && evs[0].address == a), evs[1..])
  }

  predicate ReadsAt(a: nat, ev: Event) {
    ev.On? && ev.address == a && ev.t.event.Read? && ev.t.event.chunk != []
  }

  function BufferOf(v: State, a: nat): seq<byte> {
    if a in v.states then v.states[a].buffer else []
  }

  ghost predicate LinkedAt(v: State, a: nat) {
    a in v.states ==> Spec.Linked(v.states[a])
  }

  lemma OnServes(c: Config, v: State, a: nat, t: Spec.Moment)
    requires a in v.states && LinkedAt(v, a)
    ensures var e := Step(c, v, On(a, t));
            && a in e.s.states && LinkedAt(e.s, a)
            && if ReadsAt(a, On(a, t)) then
                 var d := Drain(c.order, v.states[a].buffer + t.event.chunk);
                 CallsOf(a, e.outs) == Deliver(SessionRouter(InstalledRoutes(c.interceptors)), d.msgs) && BufferOf(e.s, a) == d.rest
               else CallsOf(a, e.outs) == [] && BufferOf(e.s, a) == BufferOf(v, a)
  {
    var e := Spec.Step(SessionConfig(c), v.states[a], t);
    Spec.StepSane(SessionConfig(c), v.states[a], t);
    Spec.StepDispatches(SessionConfig(c), v.states[a], t);
    Spec.StepOuts(SessionConfig(c), v.states[a], t);
    CallsOfTag(a, a, e.outs);
    if CallsBack(v, On(a, t)) {
      OnOuts(c, v, a, t);
      CallFreeServes(ServerHandlers(map[], None), Step(c, v, On(a, t)).outs, a);
    }
  }

  /** What happens elsewhere calls none of a session's handlers and leaves its buffer alone. */
  lemma OthersServe(c: Config, v: State, ev: Event, a: nat)
    requires LinkedAt(v, a) && !(ev.On? && ev.address == a && a in v.states)
    ensures var e := Step(c, v, ev);
            && LinkedAt(e.s, a) && (a in e.s.states <==> a in v.states || (ev.Accept? && ev.address == a))
            && CallsOf(a, e.outs) == [] && BufferOf(e.s, a) == BufferOf(v, a)
  {
    var e := Step(c, v, ev);
    var h := ServerHandlers(map[], None);
    match ev
    case Accept(b, at, readOk) => CallFreeServes(h, e.outs, a);
    case AcceptFailed => CallFreeServes(h, e.outs, a);
    case On(b, t) =>
      if b in v.states {
        var outs := Spec.Step(SessionConfig(c), v.states[b], t).outs;
        CallsOfTag(a, b, outs);
        CallsOfTag(a, b, outs + [Forgotten(c.notifyClose)]);
      }
    case Broadcast(m, _) =>
      BroadcastAmong(v.states, v.sessions, m);
      SendsCallFree(e.outs, v.sessions, m);
      CallFreeServes(h, e.outs, a);
    case SendTo(id, m, _) =>
      SendToCallFree(v.states, v.sessions, id, m);
      CallFreeServes(h, e.outs, a);
  }

  lemma SendsCallFree(outs: seq<(nat, Out)>, sessions: seq<nat>, m: Msg)
    requires Sends(outs, sessions, m)
    ensures CallFree(outs)
  {
  }

  lemma {:induction false} SendToCallFree(states: map<nat, Spec.State>, sessions: seq<nat>, id: string, m: Msg)
    ensures CallFree(SendToOuts(states, sessions, id, m))
    decreases |sessions|
  {
    if sessions != [] && SessionId(sessions[0]) != id {
      SendToCallFree(states, sessions[1..], id, m);
    }
  }

  /** Only what happens to a session calls a server callback. */
  lemma OnlySessionsServe(c: Config, h: ServerHandlers, v: State, ev: Event)
    ensures !ev.On? ==> Served(h, Step(c, v, ev).outs) == []
  {
    var outs := Step(c, v, ev).outs;
    match ev
    case On(a, t) =>
    case Broadcast(m, _) =>
      BroadcastAmong(v.states, v.sessions, m);
      SendsCallFree(outs, v.sessions, m);
      CallFreeServes(h, outs, 0);
    case SendTo(id, m, _) =>
      SendToCallFree(v.states, v.sessions, id, m);
      CallFreeServes(h, outs, 0);
    case Accept(a, at, readOk) => CallFreeServes(h, outs, a);
    case AcceptFailed =>
  }

  /** Feeding one read, then the others. */
  lemma FeedFirst(o: ByteOrder, route: Msg -> Option<nat>, b: seq<byte>, chunk: seq<byte>, chunks: seq<seq<byte>>)
    ensures var d := Drain(o, b + chunk);
            Deliver(route, Feed(o, b, [chunk] + chunks).msgs) == Deliver(route, d.msgs) + Deliver(route, Feed(o, d.rest, chunks).msgs)
  {
    var d := Drain(o, b + chunk);
    assert ([chunk] + chunks)[1..] == chunks;
    DeliverAppend(route, d.msgs, Feed(o, d.rest, chunks).msgs);
  }

  lemma StepServes(c: Config, v: State, ev: Event, a: nat, chunks: seq<seq<byte>>)
    requires LinkedAt(v, a)
    ensures var e := Step(c, v, ev); var route := SessionRouter(InstalledRoutes(c.interceptors));
            var now := if a in v.states && ReadsAt(a, ev) then [ev.t.event.chunk] else [];
            && LinkedAt(e.s, a) && (a in e.s.states <==> a in v.states || (ev.Accept? && ev.address == a))
            && Deliver(route, Feed(c.order, BufferOf(v, a), now + chunks).msgs) ==
                 CallsOf(a, e.outs) + Deliver(route, Feed(c.order, BufferOf(e.s, a), chunks).msgs)
  {
    assert [] + chunks == chunks;
    if ev.On? && ev.address == a && a in v.states {
      OnServes(c, v, a, ev.t);
      if ReadsAt(a, ev) {
        FeedFirst(c.order, SessionRouter(InstalledRoutes(c.interceptors)), v.states[a].buffer, ev.t.event.chunk, chunks);
      }
    } else {
      OthersServe(c, v, ev, a);
    }
  }

  lemma {:induction false} RunServes(c: Config, v: State, evs: seq<Event>, a: nat)
    requires LinkedAt(v, a)
    ensures CallsOf(a, Run(c, v, evs).outs) ==
              Deliver(SessionRouter(InstalledRoutes(c.interceptors)), Feed(c.order, BufferOf(v, a), ChunksOf(a, a in v.states, evs)).msgs)
    decreases |evs|
  {
    if evs != [] {
      var e := Step(c, v, evs[0]);
      StepServes(c, v, evs[0], a, ChunksOf(a, a in e.s.states, evs[1..]));
      RunServes(c, e.s, evs[1..], a);
      CallsOfAppend(a, e.outs, Run(c, e.s, evs[1..]).outs);
    }
  }

  /**
   Over any run of the server, with any number of sessions coming, going and sending at once:
   the server callbacks called for a session are one for each wanted packet in the bytes that
   session has read, in order, each the right one.
   */
  lemma EverySessionIsServed(c: Config, h: ServerHandlers, evs: seq<Event>, a: nat)
    ensures CallsAre(h, ServedTo(a, Served(h, Run(c, NEW_SERVER, evs).outs)),
                     Select(h, c.interceptors, Feed(c.order, [], ChunksOf(a, false, evs)).msgs))
  {
    RunServes(c, NEW_SERVER, evs, a);
    ServedToCalls(h, Run(c, NEW_SERVER, evs).outs, a);
    TwoLevelRouting(h, c.interceptors, Feed(c.order, [], ChunksOf(a, false, evs)).msgs);
  }

  // ----- Delivery -----

  /** Writes of one packet on registered sessions, and nothing else. */
  ghost predicate Sends(outs: seq<(nat, Out)>, sessions: seq<nat>, m: Msg) {
    forall i :: 0 <= i < |outs| ==> outs[i].0 in sessions && outs[i].1 == Write(m)
  }

  /** A broadcast attempts exactly one write on each registered open session, and no other effect. */
  lemma BroadcastOnce(states: map<nat, Spec.State>, sessions: seq<nat>, m: Msg)
    requires Distinct(sessions)
    ensures var outs := BroadcastOuts(states, sessions, m);
            && (forall a :: Count(outs, (a, Write(m))) == One(a in sessions && Open(states, a)))
            && Sends(outs, sessions, m)
  {
    forall a
      ensures Count(BroadcastOuts(states, sessions, m), (a, Write(m))) == One(a in sessions && Open(states, a))
    {
      BroadcastCount(states, sessions, m, a);
    }
    BroadcastAmong(states, sessions, m);
  }

  lemma {:induction false} BroadcastCount(states: map<nat, Spec.State>, sessions: seq<nat>, m: Msg, a: nat)
    requires Distinct(sessions)
    ensures Count(BroadcastOuts(states, sessions, m), (a, Write(m))) == One(a in sessions && Open(states, a))
    decreases |sessions|
  {
    if sessions != [] {
      var b, rest := sessions[0], sessions[1..];
      var one := if Open(states, b) then [(b, Write(m))] else [];
      BroadcastCount(states, rest, m, a);
      CountAppend(one, BroadcastOuts(states, rest, m), (a, Write(m)));
      CountSingle((b, Write(m)), (a, Write(m)));
      assert b !in rest && (a in sessions <==> a == b || a in rest);
    }
  }

  lemma {:induction false} BroadcastAmong(states: map<nat, Spec.State>, sessions: seq<nat>, m: Msg)
    ensures Sends(BroadcastOuts(states, sessions, m), sessions, m)
    decreases |sessions|
  {
    if sessions != [] {
      var one: seq<(nat, Out)> := if Open(states, sessions[0]) then [(sessions[0], Write(m))] else [];
      var more := BroadcastOuts(states, sessions[1..], m);
      BroadcastAmong(states, sessions[1..], m);
      SendsJoin(one, more, sessions, m);
    }
  }

  lemma SendsJoin(one: seq<(nat, Out)>, more: seq<(nat, Out)>, sessions: seq<nat>, m: Msg)
    requires sessions != [] && (one == [] || one == [(sessions[0], Write(m))]) && Sends(more, sessions[1..], m)
    ensures Sends(one + more, sessions, m)
  {
    forall i | 0 <= i < |one + more|
      ensures (one + more)[i].0 in sessions && (one + more)[i].1 == Write(m)
    {
      if i >= |one| {
        var k := i - |one|;
        assert (one + more)[i] == more[k];
        assert more[k].0 in sessions[1..] && more[k].1 == Write(m);
      }
    }
  }

  /** `a` stands before `b` in the registry. */
  ghost predicate Before(sessions: seq<nat>, a: nat, b: nat) {
    exists p, q :: 0 <= p < q < |sessions| && sessions[p] == a && sessions[q] == b
  }

  /** The writes of a broadcast are attempted in registry order. */
  lemma {:induction false} BroadcastInOrder(states: map<nat, Spec.State>, sessions: seq<nat>, m: Msg)
    requires Distinct(sessions)
    ensures var outs := BroadcastOuts(states, sessions, m);
            forall i, j :: 0 <= i < j < |outs| ==> Before(sessions, outs[i].0, outs[j].0)
    decreases |sessions|
  {
    if sessions != [] {
      var rest := sessions[1..];
      var one: seq<(nat, Out)> := if Open(states, sessions[0]) then [(sessions[0], Write(m))] else [];
      var more := BroadcastOuts(states, rest, m);
      BroadcastInOrder(states, rest, m);
      BroadcastOnce(states, rest, m);
      forall i, j | 0 <= i < j < |one + more|
        ensures Before(sessions, (one + more)[i].0, (one + more)[j].0)
      {
        if i < |one| {
          BeforeFirst(sessions, more[j - |one|].0);
        } else {
          assert Before(rest, more[i - |one|].0, more[j - |one|].0);
          BeforeLater(sessions, more[i - |one|].0, more[j - |one|].0);
        }
      }
    }
  }

  lemma BeforeFirst(sessions: seq<nat>, b: nat)
    requires sessions != [] && b in sessions[1..]
    ensures Before(sessions, sessions[0], b)
  {
    var q :| 0 <= q < |sessions[1..]| && sessions[1..][q] == b;
    assert sessions[q + 1] == b;
  }

  lemma BeforeLater(sessions: seq<nat>, a: nat, b: nat)
    requires sessions != [] && Before(sessions[1..], a, b)
    ensures Before(sessions, a, b)
  {
    var rest := sessions[1..];
    var p, q :| 0 <= p < q < |rest| && rest[p] == a && rest[q] == b;
    assert sessions[p + 1] == a && sessions[q + 1] == b;
  }

  /**
   Sending to an id attempts a write exactly on the registered open session with that id: at
   most one, because no two addresses share an id.
   */
  lemma {:induction false} SendToExact(states: map<nat, Spec.State>, sessions: seq<nat>, id: string, m: Msg)
    ensures var outs := SendToOuts(states, sessions, id, m);
            && |outs| <= 1
            && forall a :: (a, Write(m)) in outs <==> a in sessions && SessionId(a) == id && Open(states, a)
    decreases |sessions|
  {
    if sessions != [] {
      var b, rest := sessions[0], sessions[1..];
      SendToExact(states, rest, id, m);
      forall a
        ensures (a, Write(m)) in SendToOuts(states, sessions, id, m) <==> a in sessions && SessionId(a) == id && Open(states, a)
      {
        IdsAreInjective(a, b);
      }
    }
  }
}
