/**
 When the heartbeat timer ends a session (src/session.cpp:210-229, 275-282, 317-334).
 Runs are lists of timed events with non-decreasing times.
 */
module Heartbeat {
  import opened Message
  import opened SessionSpec
  import opened Timing

  /** The timer closes a session exactly when more than the allowed milliseconds have passed. */
  lemma TimeoutExact(s: State, now: int)
    requires Linked(s) && !s.closing && s.lastBeat <= now
    ensures OnTimer(s, now).s.closing <==> now - s.lastBeat >= TIMEOUT_TICKS
    ensures OnTimer(s, now).outs == if now - s.lastBeat >= TIMEOUT_TICKS then [Dispatch.UvClose] else [Dispatch.Write(Msg(HEARTBEAT, [], 0))]
  {
  }

  /** The times at which the timeout is reset during a run. */
  function RefreshTimes(c: Config, s: State, ts: seq<Moment>): seq<int>
    decreases |ts|
  {
    if ts == [] then []
    else (if Refreshes(c, s, ts[0]) then [ts[0].at] else []) + RefreshTimes(c, Step(c, s, ts[0]).s, ts[1..])
  }

  /** True when some timer firing of the run issues a `uv_close`. */
  predicate TimedOut(c: Config, s: State, ts: seq<Moment>)
    decreases |ts|
  {
    ts != [] &&
    ((ts[0].event.Tick? && Step(c, s, ts[0]).s.closing && !s.closing)
     || TimedOut(c, Step(c, s, ts[0]).s, ts[1..]))
  }

  /** Some timer firing of the run finds the timer armed, the session open, and its last refresh, at tick `beat`, 90001 ms back. */
  predicate LateTick(c: Config, s: State, beat: int, ts: seq<Moment>)
    decreases |ts|
  {
    ts != [] &&
    var t := ts[0];
    ((t.event.Tick? && s.armed && !s.closing && t.at - beat >= TIMEOUT_TICKS)
     || LateTick(c, Step(c, s, t).s, if Refreshes(c, s, t) then t.at else beat, ts[1..]))
  }

  /** Over any run, some firing closes the session if and only if some firing is late. */
  lemma {:induction false} TimedOutExact(c: Config, s: State, start: int, ts: seq<Moment>)
    requires Linked(s) && s.lastBeat <= start && Ordered(start, ts)
    ensures TimedOut(c, s, ts) <==> LateTick(c, s, s.lastBeat, ts)
    decreases |ts|
  {
    if ts != [] {
      var t := ts[0];
      StepFrame(c, s, t);
      StepSane(c, s, t);
      if t.event.Tick? && !s.closing && s.armed {
        TimeoutExact(s, t.at);
      }
      TimedOutExact(c, Step(c, s, t).s, t.at, ts[1..]);
    }
  }

  /** The instants of a run after its start are not before its start. */
  lemma {:induction false} NextInstant(c: Config, s: State, start: int, ts: seq<Moment>, end: int)
    requires Ordered(start, ts) && start <= end && forall i :: 0 <= i < |ts| ==> ts[i].at <= end
    ensures var r := RefreshTimes(c, s, ts); start <= (if r == [] then end else r[0])
    decreases |ts|
  {
    if ts != [] {
      NextInstant(c, Step(c, s, ts[0]).s, ts[0].at, ts[1..], end);
    }
  }

  /**
   Safety: if HEARTBEATs are processed (counting the start) never more than 90000 ms apart up
   to `end`, no timer firing up to `end` ever closes the session.
   */
  lemma {:induction false} KeptAlive(c: Config, s: State, start: int, ts: seq<Moment>, end: int)
    requires Linked(s) && s.lastBeat <= start <= end
    requires Ordered(start, ts) && forall i :: 0 <= i < |ts| ==> ts[i].at <= end
    requires Spaced(TIMEOUT_TICKS - 1, s.lastBeat, RefreshTimes(c, s, ts), end)
    ensures !TimedOut(c, s, ts)
    decreases |ts|
  {
    if ts != [] {
      var t, rest := ts[0], ts[1..];
      var s' := Step(c, s, t).s;
      StepFrame(c, s, t);
      StepSane(c, s, t);
      assert t.at <= end;
      NextInstant(c, s', t.at, rest, end);
      var r, r' := RefreshTimes(c, s, ts), RefreshTimes(c, s', rest);
      if Refreshes(c, s, t) {
        assert r == [t.at] + r' && r[1..] == r';
      } else {
        assert r == r';
      }
      KeptAlive(c, s', t.at, rest, end);
    }
  }

  /** The instants at which the timer fires. */
  function TickTimes(ts: seq<Moment>): seq<int> {
    if ts == [] then [] else (if ts[0].event.Tick? then [ts[0].at] else []) + TickTimes(ts[1..])
  }

  /**
   Detection: suppose the timer is armed and fires at most 30000 + `jitter` ms apart, and no
   HEARTBEAT is processed.  Then some prefix of the run ends with the session closing, at
   most 120000 + `jitter` ms after the last HEARTBEAT, as soon as the run lasts that long.
   */
  lemma {:induction false} SilenceDetected(c: Config, s: State, fired: int, ts: seq<Moment>, end: int, jitter: nat)
      returns (k: nat)
    requires Linked(s) && s.armed && s.lastBeat <= fired < s.lastBeat + TIMEOUT_TICKS
    requires Ordered(fired, ts)
    requires forall i :: 0 <= i < |ts| ==> KeepsTimer(ts[i])
    requires RefreshTimes(c, s, ts) == []
    requires Spaced((HEARTBEAT_INTERVAL_MS + jitter) * TICKS_PER_MS, fired, TickTimes(ts), end)
    requires ElapsedMs(s.lastBeat, end) > 120000 + jitter
    ensures k < |ts|
    ensures Run(c, s, ts[..k + 1]).s.closing
    ensures ElapsedMs(s.lastBeat, ts[k].at) <= 120000 + jitter
    decreases |ts|
  {
    assert ts != [];
    var t, rest := ts[0], ts[1..];
    var s' := Step(c, s, t).s;
    assert ts == [t] + rest && KeepsTimer(t);
    TicksFirst((HEARTBEAT_INTERVAL_MS + jitter) * TICKS_PER_MS, fired, ts, end);
    QuietStep(c, s, t, rest);
    if t.event.Tick? && t.at - s.lastBeat >= TIMEOUT_TICKS {
      k := 0;
      RunFirst(c, s, ts, 0);
    } else {
      OrderedLater(fired, t.at, rest);
      k := SilenceDetected(c, s', if t.event.Tick? then t.at else fired, rest, end, jitter);
      k := k + 1;
      RunFirst(c, s, ts, k);
    }
  }

  lemma QuietStep(c: Config, s: State, t: Moment, rest: seq<Moment>)
    requires Linked(s) && KeepsTimer(t) && RefreshTimes(c, s, [t] + rest) == []
    ensures var s' := Step(c, s, t).s;
            && Linked(s') && s'.armed == s.armed && s'.lastBeat == s.lastBeat
            && RefreshTimes(c, s', rest) == []
  {
    assert ([t] + rest)[1..] == rest;
    StepFrame(c, s, t);
    StepSane(c, s, t);
  }

  lemma TicksFirst(gap: nat, start: int, ts: seq<Moment>, end: int)
    requires ts != [] && Spaced(gap, start, TickTimes(ts), end)
    ensures Spaced(gap, if ts[0].event.Tick? then ts[0].at else start, TickTimes(ts[1..]), end)
    ensures ts[0].event.Tick? ==> ts[0].at - start <= gap
  {
    if ts[0].event.Tick? {
      assert TickTimes(ts)[1..] == TickTimes(ts[1..]);
    } else {
      assert TickTimes(ts) == TickTimes(ts[1..]);
    }
  }

  lemma RunFirst(c: Config, s: State, ts: seq<Moment>, k: nat)
    requires k < |ts|
    ensures Run(c, s, ts[..k + 1]).s == Run(c, Step(c, s, ts[0]).s, ts[1..][..k]).s
  {
    assert ts[..k + 1][1..] == ts[1..][..k] && ts[..k + 1][0] == ts[0];
  }

  function TickAt(ms: nat): Moment {
    Timed(ms * TICKS_PER_MS, Tick)
  }

  /** The bound cannot be lowered: a session started at tick 0 can still be open just before it. */
  lemma DetectionBoundIsReached(c: Config, jitter: nat)
    ensures var s := Start(NEW_SESSION, 0, true);
            var ts := [TickAt(30000), TickAt(60000), TickAt(90000), TickAt(120000 + jitter)];
            && Spaced((HEARTBEAT_INTERVAL_MS + jitter) * TICKS_PER_MS, 0, TickTimes(ts), (120000 + jitter) * TICKS_PER_MS)
            && !Run(c, s, ts[..3]).s.closing
            && Run(c, s, ts).s.closing
            && ElapsedMs(s.lastBeat, ts[3].at) == 120000 + jitter
  {
    var s := Start(NEW_SESSION, 0, true);
    var t0, t1, t2, t3 := TickAt(30000), TickAt(60000), TickAt(90000), TickAt(120000 + jitter);
    var e := (120000 + jitter) * TICKS_PER_MS;
    var gap := (HEARTBEAT_INTERVAL_MS + jitter) * TICKS_PER_MS;
    assert [t0, t1, t2, t3][1..] == [t1, t2, t3] && [t1, t2, t3][1..] == [t2, t3] && [t2, t3][1..] == [t3] && [t3][1..] == [];
    assert [t0, t1, t2, t3][..3] == [t0, t1, t2] && [t0, t1, t2][1..] == [t1, t2] && [t1, t2][1..] == [t2] && [t2][1..] == [];
    assert TickTimes([]) == [] && TickTimes([t3]) == [t3.at] && TickTimes([t2, t3]) == [t2.at, t3.at];
    assert TickTimes([t1, t2, t3]) == [t1.at, t2.at, t3.at];
    assert TickTimes([t0, t1, t2, t3]) == [t0.at, t1.at, t2.at, t3.at];
    assert Spaced(gap, t3.at, [], e) && Spaced(gap, t2.at, [t3.at], e);
    assert Spaced(gap, t1.at, [t2.at, t3.at], e) && Spaced(gap, t0.at, [t1.at, t2.at, t3.at], e);
    assert Step(c, s, t0).s == Step(c, s, t1).s == Step(c, s, t2).s == s;
    assert Run(c, s, []).s == s && Run(c, s, [t2]).s == s && Run(c, s, [t1, t2]).s == s;
    assert Run(c, s, [t3]).s.closing && Run(c, s, [t2, t3]).s.closing && Run(c, s, [t1, t2, t3]).s.closing;
  }
}
