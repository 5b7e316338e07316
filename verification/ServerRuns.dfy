/**
 The server's runs taken apart (src/server.cpp:119-192): whom it accepts, and how each of its
 sessions lives a life of its own.
 */
module ServerRuns {
  import opened Message
  import opened Dispatch
  import opened SessionIds
  import opened Timing
  import opened ServerSpec
  import Heartbeat
  import S = SessionSpec
  import SessionLaws

  // ----- Whom the server accepts -----

  /** The addresses at which connections come in, read off the events alone; an address in use is not given out again. */
  function Comers(known: set<nat>, evs: seq<Event>): seq<nat>
    decreases |evs|
  {
    if evs == [] then []
    else if evs[0].Accept? && evs[0].address !in known
    then [evs[0].address] + Comers(known + {evs[0].address}, evs[1..])
    else Comers(known, evs[1..])
  }

  lemma StepKeys(c: Config, v: State, ev: Event)
    ensures Step(c, v, ev).s.states.Keys == v.states.Keys + if ev.Accept? then {ev.address} else {}
  {
  }

  lemma ComersFirst(c: Config, v: State, ev: Event, more: seq<Event>)
    ensures Comers(v.states.Keys, [ev] + more) == Added(v, ev) + Comers(Step(c, v, ev).s.states.Keys, more)
  {
    StepKeys(c, v, ev);
    assert ([ev] + more)[1..] == more;
    if Added(v, ev) == [] {
      assert Step(c, v, ev).s.states.Keys == v.states.Keys;
      assert [] + Comers(v.states.Keys, more) == Comers(v.states.Keys, more);
    }
  }

  lemma {:induction false} ComersFrom(c: Config, v: State, evs: seq<Event>)
    ensures Who(Run(c, v, evs).outs, Connected(c.notifyConnect)) == Comers(v.states.Keys, evs)
    decreases |evs|
  {
    if evs != [] {
      var e := Step(c, v, evs[0]);
      ComersFirst(c, v, evs[0], evs[1..]);
      FirstAndRest(evs);
      StepHistory(c, v, evs[0]);
      ComersFrom(c, e.s, evs[1..]);
      WhoAppend(e.outs, Run(c, e.s, evs[1..]).outs, Connected(c.notifyConnect));
    }
  }

  /**
   Every connection that comes in is accepted, and the connect handler, if set, is called with
   it: over any run the registry is the comers whose close handler has not been called, in order.
   */
  lemma EveryComerIsAccepted(c: Config, evs: seq<Event>)
    ensures var e := Run(c, NEW_SERVER, evs);
            && Who(e.outs, Connected(c.notifyConnect)) == Comers({}, evs)
            && e.s.sessions == Remaining(Comers({}, evs), Who(e.outs, Closed(true)))
  {
    ComersFrom(c, NEW_SERVER, evs);
    assert NEW_SERVER.states.Keys == {};
    RegistryAgreesWithHistory(c, evs);
  }

  /** What an accepted connection is from the start: open, with its timer running, and reading if libuv agrees. */
  lemma AcceptedIsStarted(c: Config, v: State, a: nat, at: int, readOk: bool)
    requires a !in v.states
    ensures var w := Step(c, v, Accept(a, at, readOk)).s;
            && a in w.states && w.sessions == v.sessions + [a]
            && (forall b :: b in v.states ==> b in w.states && w.states[b] == v.states[b])
            && var s := w.states[a];
               && s.armed && s.lastBeat == at && s.reading == readOk && s.buffer == []
               && !s.closing && !s.socketClosing && s.owedCloses == 0
  {
  }

  // ----- Each session by itself -----

  /** What an event of the server is to one session: its start, something of its own, or a packet to send. */
  function MomentOf(a: nat, known: bool, ev: Event): seq<S.Moment> {
    match ev
    case Accept(b, at, readOk) => if a == b && !known then [Timed(at, S.StartCall(readOk))] else []
    case AcceptFailed => []
    case On(b, t) => if a == b && known then [t] else []
    case Broadcast(m, now) => if known then [Timed(now, S.SendCall(m))] else []
    case SendTo(id, m, now) => if known && id == SessionId(a) then [Timed(now, S.SendCall(m))] else []
  }

  predicate Comes(a: nat, ev: Event) {
    ev.Accept? && ev.address == a
  }

  function MomentsOf(a: nat, known: bool, evs: seq<Event>): seq<S.Moment>
    decreases |evs|
  {
    if evs == [] then [] else MomentOf(a, known, evs[0]) + MomentsOf(a, known || Comes(a, evs[0]), evs[1..])
  }

  /** A session's own effects in the log; the server's reports about it are not among them. */
  function OutsAt(a: nat, log: seq<(nat, Out)>): seq<Out> {
    if log == [] then []
    else (if log[0].0 == a && !log[0].1.Connected? && !log[0].1.Forgotten? then [log[0].1] else []) + OutsAt(a, log[1..])
  }

  lemma {:induction false} OutsAtAppend(a: nat, x: seq<(nat, Out)>, y: seq<(nat, Out)>)
    ensures OutsAt(a, x + y) == OutsAt(a, x) + OutsAt(a, y)
  {
    if x == [] {
      assert x + y == y;
    } else {
      OutsAtAppend(a, x[1..], y);
      assert (x + y)[1..] == x[1..] + y;
      Assoc(if x[0].0 == a && !x[0].1.Connected? && !x[0].1.Forgotten? then [x[0].1] else [], OutsAt(a, x[1..]), OutsAt(a, y));
    }
  }

  predicate Own(outs: seq<Out>) {
    forall i :: 0 <= i < |outs| ==> !outs[i].Connected? && !outs[i].Forgotten?
  }

  lemma {:induction false} OutsAtTag(a: nat, b: nat, outs: seq<Out>)
    requires Own(outs)
    ensures OutsAt(a, Tag(b, outs)) == if a == b then outs else []
  {
    if outs != [] {
      OutsAtTag(a, b, outs[1..]);
      assert Tag(b, outs)[0] == (b, outs[0]) && Tag(b, outs)[1..] == Tag(b, outs[1..]);
      if a == b {
        FirstAndRest(outs);
      }
    }
  }

  lemma OutsAtSingle(a: nat, b: nat, o: Out)
    ensures OutsAt(a, [(b, o)]) == if a == b && !o.Connected? && !o.Forgotten? then [o] else []
  {
    assert [(b, o)][1..] == [];
  }

  lemma {:induction false} OutsAtBroadcast(states: map<nat, S.State>, sessions: seq<nat>, m: Msg, a: nat)
    requires Distinct(sessions)
    ensures OutsAt(a, BroadcastOuts(states, sessions, m)) == if a in sessions && Open(states, a) then [Write(m)] else []
    decreases |sessions|
  {
    if sessions != [] {
      var b, rest := sessions[0], sessions[1..];
      var one: seq<(nat, Out)> := if Open(states, b) then [(b, Write(m))] else [];
      OutsAtBroadcast(states, rest, m, a);
      OutsAtAppend(a, one, BroadcastOuts(states, rest, m));
      OutsAtSingle(a, b, Write(m));
      assert b !in rest && (a in sessions <==> a == b || a in rest);
    }
  }

  lemma SameId(a: nat, b: nat)
    ensures SessionId(a) == SessionId(b) <==> a == b
  {
    IdsAreInjective(a, b);
  }

  lemma {:induction false} OutsAtSendTo(states: map<nat, S.State>, sessions: seq<nat>, id: string, m: Msg, a: nat)
    requires Distinct(sessions)
    ensures OutsAt(a, SendToOuts(states, sessions, id, m)) ==
              if a in sessions && SessionId(a) == id && Open(states, a) then [Write(m)] else []
    decreases |sessions|
  {
    if sessions != [] {
      var b, rest := sessions[0], sessions[1..];
      assert b !in rest && (a in sessions <==> a == b || a in rest);
      if SessionId(b) == id {
        OutsAtSingle(a, b, Write(m));
        SameId(a, b);
      } else {
        OutsAtSendTo(states, rest, id, m, a);
      }
    }
  }

  function StateOf(v: State, a: nat): S.State {
    if a in v.states then v.states[a] else S.NEW_SESSION
  }

  /** The server's step, seen at one session. */
  ghost predicate LivesOn(c: Config, v: State, ev: Event, a: nat) {
    var e := Step(c, v, ev);
    S.Run(SessionConfig(c), StateOf(v, a), MomentOf(a, a in v.states, ev)) == S.Effect(StateOf(e.s, a), OutsAt(a, e.outs))
  }

  lemma RunOne(c: S.Config, s: S.State, t: S.Moment)
    ensures S.Run(c, s, [t]) == S.Step(c, s, t)
  {
    var e := S.Step(c, s, t);
    assert [t][1..] == [] && e.outs + [] == e.outs;
  }

  lemma OnLivesOn(c: Config, v: State, b: nat, t: S.Moment, a: nat)
    ensures LivesOn(c, v, On(b, t), a)
  {
    if b in v.states {
      var e := S.Step(SessionConfig(c), v.states[b], t);
      var n := Forgotten(c.notifyClose);
      S.StepOuts(SessionConfig(c), v.states[b], t);
      assert Own(e.outs);
      OutsAtTag(a, b, e.outs);
      RunOne(SessionConfig(c), v.states[b], t);
      assert Tag(b, e.outs + [n]) == Tag(b, e.outs) + [(b, n)];
      OutsAtAppend(a, Tag(b, e.outs), [(b, n)]);
      OutsAtSingle(a, b, n);
      assert OutsAt(a, Tag(b, e.outs)) + [] == OutsAt(a, Tag(b, e.outs));
    }
  }

  lemma AcceptLivesOn(c: Config, v: State, b: nat, at: int, readOk: bool, a: nat)
    ensures LivesOn(c, v, Accept(b, at, readOk), a)
  {
    OutsAtSingle(a, b, Connected(c.notifyConnect));
    RunOne(SessionConfig(c), S.NEW_SESSION, Timed(at, S.StartCall(readOk)));
  }

  /** A session that is not registered is closing, so only registered ones can write. */
  lemma OpenIsRegistered(c: Config, v: State, log: seq<(nat, Out)>, a: nat)
    requires Inv(c, v, log) && Open(v.states, a)
    ensures a in v.sessions && Distinct(v.sessions)
  {
    var accepted, closed := Who(log, Connected(c.notifyConnect)), Who(log, Closed(true));
    RemainingMembers(accepted, closed);
    RemainingDistinct(accepted, closed);
  }

  lemma RegistryIsDistinct(c: Config, v: State, log: seq<(nat, Out)>)
    requires Inv(c, v, log)
    ensures Distinct(v.sessions)
  {
    RemainingDistinct(Who(log, Connected(c.notifyConnect)), Who(log, Closed(true)));
  }

  lemma RunSend(c: S.Config, s: S.State, m: Msg, now: int)
    ensures S.Run(c, s, [Timed(now, S.SendCall(m))]) == S.Effect(s, if s.closing then [] else [Write(m)])
  {
    RunOne(c, s, Timed(now, S.SendCall(m)));
  }

  lemma BroadcastLivesOn(c: Config, v: State, log: seq<(nat, Out)>, m: Msg, now: int, a: nat)
    requires Inv(c, v, log)
    ensures LivesOn(c, v, Broadcast(m, now), a)
  {
    RegistryIsDistinct(c, v, log);
    OutsAtBroadcast(v.states, v.sessions, m, a);
    if a in v.states {
      RunSend(SessionConfig(c), v.states[a], m, now);
      if Open(v.states, a) {
        OpenIsRegistered(c, v, log, a);
      }
    }
  }

  lemma SendToLivesOn(c: Config, v: State, log: seq<(nat, Out)>, id: string, m: Msg, now: int, a: nat)
    requires Inv(c, v, log)
    ensures LivesOn(c, v, SendTo(id, m, now), a)
  {
    RegistryIsDistinct(c, v, log);
    OutsAtSendTo(v.states, v.sessions, id, m, a);
    if id != SessionId(a) {
      assert MomentOf(a, a in v.states, SendTo(id, m, now)) == [];
    } else if a in v.states {
      RunSend(SessionConfig(c), v.states[a], m, now);
      if Open(v.states, a) {
        OpenIsRegistered(c, v, log, a);
      }
    }
  }

  lemma StepLivesOn(c: Config, v: State, log: seq<(nat, Out)>, ev: Event, a: nat)
    requires Inv(c, v, log)
    ensures LivesOn(c, v, ev, a)
  {
    match ev
    case Accept(b, at, readOk) => AcceptLivesOn(c, v, b, at, readOk, a);
    case AcceptFailed =>
    case On(b, t) => OnLivesOn(c, v, b, t, a);
    case Broadcast(m, now) => BroadcastLivesOn(c, v, log, m, now, a);
    case SendTo(id, m, now) => SendToLivesOn(c, v, log, id, m, now, a);
  }

  lemma {:induction false} RunLivesOn(c: Config, v: State, log: seq<(nat, Out)>, evs: seq<Event>, a: nat)
    requires Inv(c, v, log)
    ensures var e := Run(c, v, evs);
            S.Run(SessionConfig(c), StateOf(v, a), MomentsOf(a, a in v.states, evs)) == S.Effect(StateOf(e.s, a), OutsAt(a, e.outs))
    decreases |evs|
  {
    if evs != [] {
      var e := Step(c, v, evs[0]);
      StepLivesOn(c, v, log, evs[0], a);
      StepKeeps(c, v, log, evs[0]);
      StepKeys(c, v, evs[0]);
      assert a in e.s.states <==> a in e.s.states.Keys;
      RunLivesOn(c, e.s, log + e.outs, evs[1..], a);
      SessionLaws.RunAppend(SessionConfig(c), StateOf(v, a), MomentOf(a, a in v.states, evs[0]),
                            MomentsOf(a, a in e.s.states, evs[1..]));
      OutsAtAppend(a, e.outs, Run(c, e.s, evs[1..]).outs);
    }
  }

  /**
   However the server's sessions come, go and act at once, each one is in the state, and has
   had exactly the effects, of a session by itself: one that is started when it is accepted,
   meets its own callbacks and calls, and is given each broadcast and each packet sent to its
   id to send.
   */
  lemma SessionsAreIndependent(c: Config, evs: seq<Event>, a: nat)
    ensures var e := Run(c, NEW_SERVER, evs);
            var own := S.Run(SessionConfig(c), S.NEW_SESSION, MomentsOf(a, false, evs));
            && OutsAt(a, e.outs) == own.outs
            && (a in e.s.states ==> e.s.states[a] == own.s)
  {
    InvAtStart(c);
    RunLivesOn(c, NEW_SERVER, [], evs, a);
  }

  lemma InvAtStart(c: Config)
    ensures Inv(c, NEW_SERVER, [])
  {
  }

  // ----- A silent connection ends -----

  /** From its start at `at` up to `end` a session hears no HEARTBEAT, and its timer is left alone and fires at most `gap` apart. */
  ghost predicate Silent(c: S.Config, s: S.State, at: int, ts: seq<S.Moment>, gap: nat, end: int) {
    && Ordered(at, ts) && (forall i :: 0 <= i < |ts| ==> S.KeepsTimer(ts[i]))
    && Heartbeat.RefreshTimes(c, s, ts) == []
    && Spaced(gap, at, Heartbeat.TickTimes(ts), end)
  }

  /**
   A connection from which no HEARTBEAT comes is closed by the server: if its timer is left
   alone and fires at most 30000 + `jitter` ms apart, its session is closing at most
   120000 + `jitter` ms after its accept, and at the end of every run that lasts longer.
   */
  lemma SilentSessionIsClosed(c: Config, v: State, log: seq<(nat, Out)>, a: nat, at: int, readOk: bool, evs: seq<Event>,
                              end: int, jitter: nat) returns (k: nat)
    requires Inv(c, v, log) && a !in v.states
    requires Silent(SessionConfig(c), Step(c, v, Accept(a, at, readOk)).s.states[a], at, MomentsOf(a, true, evs),
                    (HEARTBEAT_INTERVAL_MS + jitter) * TICKS_PER_MS, end)
    requires ElapsedMs(at, end) > 120000 + jitter
    ensures var w := Run(c, Step(c, v, Accept(a, at, readOk)).s, evs).s; a in w.states && w.states[a].closing
    ensures var ts := MomentsOf(a, true, evs); var s := Step(c, v, Accept(a, at, readOk)).s.states[a];
            k < |ts| && ElapsedMs(at, ts[k].at) <= 120000 + jitter && S.Run(SessionConfig(c), s, ts[..k + 1]).s.closing
  {
    var e := Step(c, v, Accept(a, at, readOk));
    var ts, s := MomentsOf(a, true, evs), e.s.states[a];
    AcceptedIsStarted(c, v, a, at, readOk);
    k := SilenceCloses(SessionConfig(c), s, at, ts, end, jitter);
    StepKeeps(c, v, log, Accept(a, at, readOk));
    RunLivesOn(c, e.s, log + e.outs, evs, a);
    StaysKnown(c, e.s, evs, a);
  }

  lemma SilenceCloses(c: S.Config, s: S.State, at: int, ts: seq<S.Moment>, end: int, jitter: nat) returns (k: nat)
    requires S.Linked(s) && s.armed && s.lastBeat == at
    requires Silent(c, s, at, ts, (HEARTBEAT_INTERVAL_MS + jitter) * TICKS_PER_MS, end) && ElapsedMs(at, end) > 120000 + jitter
    ensures k < |ts| && ElapsedMs(at, ts[k].at) <= 120000 + jitter
    ensures S.Run(c, s, ts[..k + 1]).s.closing && S.Run(c, s, ts).s.closing
  {
    k := Heartbeat.SilenceDetected(c, s, at, ts, end, jitter);
    SessionLaws.ClosingStays(c, s, ts, k + 1);
  }

  lemma {:induction false} StaysKnown(c: Config, v: State, evs: seq<Event>, a: nat)
    requires a in v.states
    ensures a in Run(c, v, evs).s.states
    decreases |evs|
  {
    if evs != [] {
      StaysKnown(c, Step(c, v, evs[0]).s, evs[1..], a);
    }
  }
}
