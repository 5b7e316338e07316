/**
 The client's heartbeat timer over whole runs (src/client.cpp:57-67, 180-182, 241-260,
 348-358): when it watches a connection, and when it ends one.
 */
module ClientTimer {
  import opened Message
  import opened Framing
  import opened Dispatch
  import opened Timing
  import opened ClientSpec

  // ----- When a connection is watched -----

  /** Of all events only stopping a running loop thread leaves a connection without its timer. */
  lemma TimerStepExact(c: Config, s: State, t: Moment)
    requires Consistent(s) && (s.connected ==> s.armed)
    ensures var s' := Step(c, s, t).s;
            (s'.connected ==> s'.armed) <==> !(t.event.StopLoop? && s.running && s.connected)
  {
    StepFrame(c, s, t);
  }

  /** From the events alone: was a running loop thread stopped after the last connection was made? */
  predicate StoppedSince(running: bool, stopped: bool, ts: seq<Moment>)
    decreases |ts|
  {
    if ts == [] then stopped
    else
      var t := ts[0];
      StoppedSince(t.event.StartLoop? || (running && !t.event.StopLoop?),
                   !Makes(t) && (stopped || (t.event.StopLoop? && running)), ts[1..])
  }

  lemma {:induction false} WatchedUnlessStopped(c: Config, s: State, ts: seq<Moment>, stopped: bool)
    requires Consistent(s) && (s.connected ==> (s.armed <==> !stopped))
    ensures var u := Run(c, s, ts).s;
            u.connected ==> (u.armed <==> !StoppedSince(s.running, stopped, ts))
    decreases |ts|
  {
    if ts != [] {
      var t := ts[0];
      StepFrame(c, s, t);
      WatchedUnlessStopped(c, Step(c, s, t).s, ts[1..], !Makes(t) && (stopped || (t.event.StopLoop? && s.running)));
    }
  }

  /**
   At the end of any run of a client, being connected implies an armed timer exactly when it
   is not connected, or no running loop thread was stopped after its connection was made.
   */
  lemma ConnectedImpliesArmedExact(c: Config, ts: seq<Moment>)
    ensures var u := Run(c, NEW_CLIENT, ts).s;
            (u.connected ==> u.armed) <==> !(u.connected && StoppedSince(false, false, ts))
  {
    WatchedUnlessStopped(c, NEW_CLIENT, ts, false);
  }

  /** A run that ends connected without its timer: the loop thread is stopped behind a live connection. */
  lemma ConnectedWithoutTimer(c: Config)
    ensures var s := Run(c, NEW_CLIENT, [
              Timed(0, StartLoop), Timed(1, ConnectCall(false, true, true)),
              Timed(2, ConnectDone(true, true)), Timed(3, StopLoop)]).s;
            s.connected && !s.armed
  {
    var a, b, d, e := Timed(0, StartLoop), Timed(1, ConnectCall(false, true, true)), Timed(2, ConnectDone(true, true)), Timed(3, StopLoop);
    assert [a, b, d, e][1..] == [b, d, e] && [b, d, e][1..] == [d, e] && [d, e][1..] == [e] && [e][1..] == [];
    var s1 := Step(c, NEW_CLIENT, a).s;
    var s2 := Step(c, s1, b).s;
    var s3 := Step(c, s2, d).s;
    var s4 := Step(c, s3, e).s;
    assert Run(c, s4, []).s == s4;
    assert Run(c, s3, [e]).s == s4;
    assert Run(c, s2, [d, e]).s == s4;
    assert Run(c, s1, [b, d, e]).s == s4;
  }

  lemma {:induction false} StaysDisarmed(c: Config, s: State, ts: seq<Moment>)
    requires Consistent(s) && !s.armed && forall i :: 0 <= i < |ts| ==> !Makes(ts[i])
    ensures !Run(c, s, ts).s.armed
    decreases |ts|
  {
    if ts != [] {
      StepFrame(c, s, ts[0]);
      StaysDisarmed(c, Step(c, s, ts[0]).s, ts[1..]);
    }
  }

  /**
   Nobody watches such a connection: until one is made anew, no timer event closes it, sends
   a HEARTBEAT, or does anything else.
   */
  lemma UnwatchedIsLeftAlone(c: Config, s: State, ts: seq<Moment>)
    requires Consistent(s) && !s.armed && forall i :: 0 <= i < |ts| ==> !Makes(ts[i])
    ensures forall i :: 0 <= i < |ts| && ts[i].event.Tick? ==>
              var u := Run(c, s, ts[..i]).s; Step(c, u, ts[i]) == Effect(u, [])
  {
    forall i | 0 <= i < |ts| && ts[i].event.Tick?
      ensures var u := Run(c, s, ts[..i]).s; Step(c, u, ts[i]) == Effect(u, [])
    {
      StaysDisarmed(c, s, ts[..i]);
    }
  }

  // ----- When the timer ends a connection -----

  /** Some timer firing of the run disconnects a connected client. */
  predicate GivenUp(c: Config, s: State, ts: seq<Moment>)
    decreases |ts|
  {
    ts != [] &&
    ((ts[0].event.Tick? && s.connected && !Step(c, s, ts[0]).s.connected)
     || GivenUp(c, Step(c, s, ts[0]).s, ts[1..]))
  }

  /** Some timer firing finds a watched connection 90001 ms or more after it was made, at tick `made`. */
  predicate LateTick(c: Config, s: State, made: int, ts: seq<Moment>)
    decreases |ts|
  {
    ts != [] &&
    var t := ts[0];
    ((t.event.Tick? && s.connected && s.armed && t.at - made >= TIMEOUT_TICKS)
     || LateTick(c, Step(c, s, t).s, if Makes(t) then t.at else made, ts[1..]))
  }

  /** A firing disconnects exactly when the connection is watched and 90001 ms old. */
  lemma TickExact(c: Config, s: State, t: Moment)
    requires Consistent(s) && s.connected && t.event.Tick? && s.lastBeat <= t.at
    ensures !Step(c, s, t).s.connected <==> s.armed && t.at - s.lastBeat >= TIMEOUT_TICKS
  {
  }

  /**
   Only the age of a connection counts.  Over any run, reconnects included, the timer gives a
   connection up if and only if some firing finds it watched and at least 90001 ms old,
   whatever has been received in the meantime, and never earlier.
   */
  lemma {:induction false} GivenUpExact(c: Config, s: State, start: int, ts: seq<Moment>)
    requires Consistent(s) && s.lastBeat <= start && Ordered(start, ts)
    ensures GivenUp(c, s, ts) <==> LateTick(c, s, s.lastBeat, ts)
    decreases |ts|
  {
    if ts != [] {
      var t := ts[0];
      StepFrame(c, s, t);
      if t.event.Tick? && s.connected {
        TickExact(c, s, t);
      }
      GivenUpExact(c, Step(c, s, t).s, t.at, ts[1..]);
    }
  }

  /** While the timer is armed, it is never more than `gap` ticks since it last fired (at `fired`). */
  predicate Punctual(c: Config, gap: nat, fired: int, s: State, ts: seq<Moment>, end: int)
    decreases |ts|
  {
    if ts == [] then s.armed ==> end - fired <= gap
    else
      && (s.armed ==> ts[0].at - fired <= gap)
      && Punctual(c, gap, if ts[0].event.Tick? then ts[0].at else fired, Step(c, s, ts[0]).s, ts[1..], end)
  }

  /** An event that neither makes a new connection nor stops the loop thread. */
  predicate Ordinary(t: Moment) {
    !Makes(t) && !t.event.StopLoop?
  }

  /**
   However many HEARTBEATs arrive, a connection is given up by its own timer: unless it ends
   earlier, it ends at most 120000 + `jitter` ms after it was made.
   */
  lemma {:induction false} NeverKeptAlive(c: Config, s: State, fired: int, ts: seq<Moment>, end: int, jitter: nat)
      returns (k: nat)
    requires Consistent(s) && s.connected && s.armed
    requires s.lastBeat <= fired < s.lastBeat + TIMEOUT_TICKS && Ordered(fired, ts)
    requires forall i :: 0 <= i < |ts| ==> Ordinary(ts[i])
    requires Punctual(c, (HEARTBEAT_INTERVAL_MS + jitter) * TICKS_PER_MS, fired, s, ts, end)
    requires ElapsedMs(s.lastBeat, end) > 120000 + jitter
    ensures k < |ts|
    ensures !Run(c, s, ts[..k + 1]).s.connected
    ensures ElapsedMs(s.lastBeat, ts[k].at) <= 120000 + jitter
    decreases |ts|
  {
    assert ts != [];
    var t, rest := ts[0], ts[1..];
    var s' := Step(c, s, t).s;
    assert Ordinary(t);
    StepFrame(c, s, t);
    if !s'.connected {
      k := 0;
      RunFirst(c, s, ts, 0);
    } else {
      OrderedLater(fired, t.at, rest);
      k := NeverKeptAlive(c, s', if t.event.Tick? then t.at else fired, rest, end, jitter);
      k := k + 1;
      RunFirst(c, s, ts, k);
    }
  }

  lemma RunFirst(c: Config, s: State, ts: seq<Moment>, k: nat)
    requires k < |ts|
    ensures Run(c, s, ts[..k + 1]).s == Run(c, Step(c, s, ts[0]).s, ts[1..][..k]).s
  {
    assert ts[..k + 1][1..] == ts[1..][..k] && ts[..k + 1][0] == ts[0];
  }

  // ----- A connection given up although HEARTBEATs arrive in time -----

  ghost function HeartbeatAt(o: ByteOrder, pad: Padding, ms: nat): Moment {
    Timed(ms * TICKS_PER_MS, Read(Encode(o, pad, Msg(HEARTBEAT, [], 0))))
  }

  function TickAt(ms: nat): Moment {
    Timed(ms * TICKS_PER_MS, Tick)
  }

  /** A client with an empty buffer and no callbacks reads a HEARTBEAT without any effect. */
  lemma HeartbeatDoesNothing(c: Config, s: State, pad: Padding, ms: nat)
    requires s.buffer == [] && c.routes == Routes(map[], None, map[])
    ensures Step(c, s, HeartbeatAt(c.order, pad, ms)) == Effect(s, [])
  {
    var b := Encode(c.order, pad, Msg(HEARTBEAT, [], 0));
    assert [] + b == b;
    LoneHeartbeat(c.order, pad);
    NobodyListens(c, s.(buffer := b), Msg(HEARTBEAT, [], 0));
  }

  lemma LoneHeartbeat(o: ByteOrder, pad: Padding)
    ensures Drain(o, Encode(o, pad, Msg(HEARTBEAT, [], 0))) == Drained([Msg(HEARTBEAT, [], 0)], [], false)
  {
    var b := Encode(o, pad, Msg(HEARTBEAT, [], 0));
    DrainFrame(o, pad, Msg(HEARTBEAT, [], 0), []);
    assert b + [] == b;
  }

  lemma NobodyListens(c: Config, s: State, m: Msg)
    requires c.routes == Routes(map[], None, map[])
    ensures HandleAll(c, s, [m]) == Effect(s, [])
  {
    assert [m][1..] == [];
  }

  /** From the `k`-th multiple of 30 s to the fourth: a HEARTBEAT arrives, and the timer fires. */
  ghost function Rounds(o: ByteOrder, pad: Padding, k: nat): seq<Moment>
    decreases 5 - k
  {
    if k >= 5 then [] else [HeartbeatAt(o, pad, 30000 * k), TickAt(30000 * k)] + Rounds(o, pad, k + 1)
  }

  /** A HEARTBEAT arrives with every firing, and the client gives its connection up at 120 s all the same. */
  lemma GivenUpDespiteHeartbeats(c: Config, pad: Padding)
    requires c.routes == Routes(map[], None, map[])
    ensures GivenUp(c, NEW_CLIENT, [Timed(0, ConnectCall(false, true, true)), Timed(0, ConnectDone(true, true))] + Rounds(c.order, pad, 1))
  {
    var a, b, r := Timed(0, ConnectCall(false, true, true)), Timed(0, ConnectDone(true, true)), Rounds(c.order, pad, 1);
    assert ([a, b] + r)[1..] == [b] + r && ([b] + r)[1..] == r;
    var s := NEW_CLIENT.(connected := true, armed := true);
    assert Step(c, Step(c, NEW_CLIENT, a).s, b).s == s;
    RoundsGiveUp(c, s, pad, 1);
  }

  lemma {:induction false} RoundsGiveUp(c: Config, s: State, pad: Padding, k: nat)
    requires s.buffer == [] && s.connected && s.armed && s.lastBeat == 0
    requires c.routes == Routes(map[], None, map[]) && k <= 4
    ensures GivenUp(c, s, Rounds(c.order, pad, k))
    decreases 5 - k
  {
    var more := Rounds(c.order, pad, k + 1);
    HeartbeatDoesNothing(c, s, pad, 30000 * k);
    BeatAndTick(c, s, HeartbeatAt(c.order, pad, 30000 * k), 30000 * k, more);
    if k < 4 {
      RoundsGiveUp(c, s, pad, k + 1);
    }
  }

  lemma BeatAndTick(c: Config, s: State, h: Moment, ms: nat, more: seq<Moment>)
    requires s.connected && s.armed && s.lastBeat == 0 && !h.event.Tick? && Step(c, s, h).s == s
    ensures GivenUp(c, s, [h, TickAt(ms)] + more) <==> ms > HEARTBEAT_TIMEOUT_MS || GivenUp(c, s, more)
  {
    var t := TickAt(ms);
    assert [h, t] + more == [h] + ([t] + more);
    GivenUpFirst(c, s, h, [t] + more);
    GivenUpFirst(c, s, t, more);
    TickGivesUp(c, s, ms);
  }

  lemma GivenUpFirst(c: Config, s: State, t: Moment, more: seq<Moment>)
    ensures var s' := Step(c, s, t).s;
            GivenUp(c, s, [t] + more) <==> (t.event.Tick? && s.connected && !s'.connected) || GivenUp(c, s', more)
  {
    assert ([t] + more)[1..] == more;
  }

  lemma TickGivesUp(c: Config, s: State, ms: nat)
    requires s.connected && s.armed && s.lastBeat == 0
    ensures var s' := Step(c, s, TickAt(ms)).s; if ms > HEARTBEAT_TIMEOUT_MS then !s'.connected else s' == s
  {
    assert ElapsedMs(0, ms * TICKS_PER_MS) == ms;
  }
}
