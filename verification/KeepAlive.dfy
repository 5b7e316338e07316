/**
 The heartbeat protocol end to end: a client whose timer is punctual keeps its session open,
 if the network is not too slow (src/client.cpp:241-260, src/session.cpp:210-229, 275-282).
 */
module KeepAlive {
  import opened Message
  import opened Framing
  import opened Dispatch
  import opened Timing
  import opened Channel
  import C = ClientSpec
  import S = SessionSpec
  import ClientTimer
  import Heartbeat

  // ----- The run, with the tick at which each packet was written -----

  function MoveTime(mv: Move): int {
    match mv
    case ClientDoes(t, _) => t.at
    case SessionDoes(t, _) => t.at
    case Upward(_, at, _) => at
    case Downward(_, at, _) => at
  }

  function Repeat(t: int, n: nat): (r: seq<int>)
    ensures |r| == n && forall i :: 0 <= i < n ==> r[i] == t
  {
    seq(n, _ => t)
  }

  /** The ticks at which the packets sent upward were written, after one more move. */
  ghost function Stamp(before: Net, after: Net, times: seq<int>, t: int): seq<int> {
    times + Repeat(t, if |after.up.sent| > |before.up.sent| then |after.up.sent| - |before.up.sent| else 0)
  }

  /** No byte stays in the channel longer than `delay`: what was written earlier than that has arrived. */
  ghost predicate Prompt(o: ByteOrder, delay: nat, st: Stream, times: seq<int>, now: int) {
    && |st.pads| == |st.sent| == |times|
    && forall k :: 0 <= k < |times| && times[k] + delay < now ==> |st.channel| <= |Wire(o, st.pads[k + 1..], st.sent[k + 1..])|
  }

  /**
   Moves in order of time.  While the client's timer is armed it is never more than `gap`
   ticks since it fired (last at `fired`), bytes take at most `delay` ticks to the session,
   and every body fits the length field.
   */
  ghost predicate Timely(cc: C.Config, sc: S.Config, gap: nat, delay: nat, net: Net, times: seq<int>, now: int,
                         fired: int, moves: seq<Move>)
    decreases |moves|
  {
    moves != [] ==>
      var mv, t, after := moves[0], MoveTime(moves[0]), Next(cc, sc, net, moves[0]);
      && now <= t
      && (net.client.armed ==> t - fired <= gap)
      && AllSendable(net.up.sent)
      && Prompt(cc.order, delay, net.up, times, t)
      && Timely(cc, sc, gap, delay, after, Stamp(net, after, times, t), t, if Fires(net, mv) then t else fired, moves[1..])
  }

  /** The client's timer fires. */
  predicate Fires(net: Net, mv: Move) {
    mv.ClientDoes? && mv.ct.event.Tick? && net.client.armed
  }

  /** Some firing of the session's timer closes the session while the client watches its side of the connection. */
  ghost predicate TimesOut(cc: C.Config, sc: S.Config, net: Net, moves: seq<Move>)
    decreases |moves|
  {
    moves != [] &&
    var mv, after := moves[0], Next(cc, sc, net, moves[0]);
    ((mv.SessionDoes? && mv.st.event.Tick? && net.client.armed && !net.session.closing && after.session.closing)
     || TimesOut(cc, sc, after, moves[1..]))
  }

  // ----- Heartbeats written, and instants spaced -----

  /** The ticks at which HEARTBEATs were written. */
  function Beats(msgs: seq<Msg>, times: seq<int>): seq<int>
    requires |msgs| == |times|
  {
    if msgs == [] then []
    else (if msgs[0].kind == HEARTBEAT then [times[0]] else []) + Beats(msgs[1..], times[1..])
  }

  lemma {:induction false} BeatsAppend(a: seq<Msg>, x: seq<int>, b: seq<Msg>, y: seq<int>)
    requires |a| == |x| && |b| == |y|
    ensures Beats(a + b, x + y) == Beats(a, x) + Beats(b, y)
  {
    if a == [] {
      assert a + b == b && x + y == y;
    } else {
      BeatsAppend(a[1..], x[1..], b, y);
      assert (a + b)[1..] == a[1..] + b && (x + y)[1..] == x[1..] + y;
      Assoc(if a[0].kind == HEARTBEAT then [x[0]] else [], Beats(a[1..], x[1..]), Beats(b, y));
    }
  }

  lemma {:induction false} BeatsOf(msgs: seq<Msg>, times: seq<int>, b: int) returns (k: nat)
    requires |msgs| == |times| && b in Beats(msgs, times)
    ensures k < |msgs| && msgs[k].kind == HEARTBEAT && times[k] == b
  {
    if msgs[0].kind == HEARTBEAT && times[0] == b {
      k := 0;
    } else {
      k := BeatsOf(msgs[1..], times[1..], b);
      k := k + 1;
    }
  }

  lemma {:induction false} BeatsNow(msgs: seq<Msg>, t: int)
    ensures forall i :: 0 <= i < |Beats(msgs, Repeat(t, |msgs|))| ==> Beats(msgs, Repeat(t, |msgs|))[i] == t
  {
    if msgs != [] {
      BeatsNow(msgs[1..], t);
      assert Repeat(t, |msgs|)[1..] == Repeat(t, |msgs| - 1);
    }
  }

  function Last(start: int, times: seq<int>): int {
    if times == [] then start else times[|times| - 1]
  }

  /** Spacing from `start` to `end`, seen from its end. */
  lemma {:induction false} SpacedUntil(gap: nat, start: int, times: seq<int>, end: int, later: int)
    requires Spaced(gap, start, times, end) && later - Last(start, times) <= gap
    ensures Spaced(gap, start, times, later)
    decreases |times|
  {
    if times != [] {
      SpacedUntil(gap, times[0], times[1..], end, later);
    }
  }

  /** More instants, all at the end. */
  lemma {:induction false} SpacedMore(gap: nat, start: int, times: seq<int>, more: seq<int>, end: int)
    requires Spaced(gap, start, times, end) && forall i :: 0 <= i < |more| ==> more[i] == end
    ensures Spaced(gap, start, times + more, end)
    decreases |times|, |more|
  {
    if times != [] {
      assert (times + more)[1..] == times[1..] + more;
      SpacedMore(gap, times[0], times[1..], more, end);
    } else if more != [] {
      assert times + more == more && [] + more[1..] == more[1..];
      SpacedMore(gap, end, [], more[1..], end);
    }
  }

  /** Any instant before the end has one less than `gap` before it, or at it. */
  lemma {:induction false} SpacedFind(gap: nat, start: int, times: seq<int>, end: int, x: int) returns (b: int)
    requires Spaced(gap, start, times, end) && start <= x < end
    ensures x - gap < b <= x && (b == start || b in times)
    decreases |times|
  {
    if times == [] || x < times[0] {
      b := start;
    } else {
      b := SpacedFind(gap, times[0], times[1..], end, x);
    }
  }

  // ----- What has arrived has been handled -----

  /** A packet none of whose bytes, or of those before it, is still in the channel has been decoded. */
  lemma ArrivedIsDecoded(o: ByteOrder, st: Stream, buffer: seq<byte>, k: nat)
    requires |st.pads| == |st.sent| && AllSendable(st.sent) && Aligned(o, st, buffer) && k < |st.sent|
    requires |st.channel| <= |Wire(o, st.pads[k + 1..], st.sent[k + 1..])|
    ensures k < |st.got|
  {
    var g := |st.got|;
    if g <= k {
      var pads, msgs := st.pads[g..], st.sent[g..];
      WireFirst(o, pads, msgs, []);
      assert pads[1..] == st.pads[g + 1..] && msgs[1..] == st.sent[g + 1..];
      WireShrinks(o, st.pads, st.sent, g + 1, k + 1);
      FrontIsFrame(o, pads, msgs, buffer, st.channel);
      assert false;
    }
  }

  lemma {:induction false} WireShrinks(o: ByteOrder, pads: seq<Padding>, msgs: seq<Msg>, i: nat, j: nat)
    requires |pads| == |msgs| && i <= j <= |msgs|
    ensures |Wire(o, pads[j..], msgs[j..])| <= |Wire(o, pads[i..], msgs[i..])|
    decreases j - i
  {
    if i < j {
      WireShrinks(o, pads, msgs, i + 1, j);
      assert pads[i..][1..] == pads[i + 1..] && msgs[i..][1..] == msgs[i + 1..];
    }
  }

  lemma FrontIsFrame(o: ByteOrder, pads: seq<Padding>, msgs: seq<Msg>, buffer: seq<byte>, channel: seq<byte>)
    requires |pads| == |msgs| > 0 && Sendable(msgs[0])
    requires buffer + channel == Wire(o, pads, msgs) && |channel| <= |Wire(o, pads[1..], msgs[1..])|
    ensures !Idle(o, buffer)
  {
    var f, w := Encode(o, pads[0], msgs[0]), Wire(o, pads[1..], msgs[1..]);
    assert Wire(o, pads, msgs) == f + w;
    SplitEqual(f, w, buffer, channel);
    EncodedHeader(o, pads[0], msgs[0], buffer[|f|..]);
  }

  // ----- What every move keeps -----

  /** While the client's timer is armed, the HEARTBEATs it wrote since `base` are at most `gap` apart. */
  ghost predicate ClientSide(gap: nat, base: int, s: C.State, sent: seq<Msg>, times: seq<int>, now: int, fired: int)
    requires |sent| == |times|
  {
    var beats := Beats(sent, times);
    && C.Consistent(s) && fired <= now
    && (forall k :: 0 <= k < |times| ==> times[k] <= now)
    && (s.armed ==> fired <= Last(base, beats) && Spaced(gap, base, beats, Last(base, beats)))
  }

  /** The session's timeout is no older than any HEARTBEAT it has decoded. */
  ghost predicate SessionSide(first: int, s: S.State, got: seq<Msg>, times: seq<int>, now: int) {
    && first <= s.lastBeat <= now
    && forall k :: 0 <= k < |got| && k < |times| && got[k].kind == HEARTBEAT ==> times[k] <= s.lastBeat
  }

  ghost predicate Watched(cc: C.Config, sc: S.Config, gap: nat, base: int, first: int, net: Net, times: seq<int>,
                          now: int, fired: int) {
    && Inv(cc, sc, net) && |times| == |net.up.sent|
    && ClientSide(gap, base, net.client, net.up.sent, times, now, fired)
    && SessionSide(first, net.session, net.up.got, times, now)
  }

  /** An armed timer that fires either ends the connection or writes a HEARTBEAT. */
  lemma FiringWrites(cc: C.Config, s: C.State, t: C.Moment)
    requires C.Consistent(s) && s.armed && t.event.Tick? && C.Step(cc, s, t).s.armed
    ensures Written(C.Step(cc, s, t).outs) == [Msg(HEARTBEAT, [], 0)]
  {
    var m := Msg(HEARTBEAT, [], 0);
    assert C.Step(cc, s, t).outs == [Write(m)] && [Write(m)][1..] == [];
    assert Written([Write(m)]) == [m] + Written([]);
  }

  lemma ClientMoves(cc: C.Config, gap: nat, base: int, s: C.State, sent: seq<Msg>, times: seq<int>, now: int,
                    fired: int, t: C.Moment)
    requires |sent| == |times| && ClientSide(gap, base, s, sent, times, now, fired)
    requires now <= t.at && (s.armed ==> t.at - fired <= gap) && !C.Makes(t)
    ensures var e := C.Step(cc, s, t); var w := Written(e.outs);
            ClientSide(gap, base, e.s, sent + w, times + Repeat(t.at, |w|), t.at, if t.event.Tick? && s.armed then t.at else fired)
  {
    var e := C.Step(cc, s, t);
    var w := Written(e.outs);
    C.StepFrame(cc, s, t);
    if e.s.armed {
      var beats, more := Beats(sent, times), Beats(w, Repeat(t.at, |w|));
      BeatsAppend(sent, times, w, Repeat(t.at, |w|));
      BeatsNow(w, t.at);
      SpacedUntil(gap, base, beats, Last(base, beats), t.at);
      SpacedMore(gap, base, beats, more, t.at);
      if t.event.Tick? {
        FiringWrites(cc, s, t);
        assert Beats(w, Repeat(t.at, 1)) == [t.at] + Beats([], []);
      }
      if more == [] {
        assert beats + more == beats;
      } else {
        assert Last(base, beats + more) == t.at;
      }
    }
  }

  lemma SessionMoves(sc: S.Config, first: int, s: S.State, got: seq<Msg>, times: seq<int>, now: int, t: S.Moment)
    requires S.Linked(s) && SessionSide(first, s, got, times, now) && now <= t.at && !t.event.Read?
    ensures SessionSide(first, S.Step(sc, s, t).s, got, times, t.at)
  {
    S.StepFrame(sc, s, t);
  }

  lemma SessionReads(sc: S.Config, first: int, s: S.State, got: seq<Msg>, times: seq<int>, now: int, t: S.Moment)
    requires S.Linked(s) && SessionSide(first, s, got, times, now) && now <= t.at && t.event.Read? && t.event.chunk != []
    requires forall k :: 0 <= k < |times| ==> times[k] <= now
    ensures SessionSide(first, S.Step(sc, s, t).s, got + Drain(sc.order, s.buffer + t.event.chunk).msgs, times, t.at)
  {
    var msgs := Drain(sc.order, s.buffer + t.event.chunk).msgs;
    S.StepFrame(sc, s, t);
    forall k | |got| <= k < |got + msgs| && (got + msgs)[k].kind == HEARTBEAT
      ensures S.Step(sc, s, t).s.lastBeat == t.at
    {
      assert msgs[k - |got|].kind == HEARTBEAT;
      assert S.Beats(sc, s, t);
    }
  }

  /** A move that does nothing only lets time pass. */
  lemma TimePasses(cc: C.Config, sc: S.Config, gap: nat, base: int, first: int, net: Net, times: seq<int>,
                   now: int, fired: int, t: int)
    requires Watched(cc, sc, gap, base, first, net, times, now, fired) && now <= t
    ensures Watched(cc, sc, gap, base, first, net, Stamp(net, net, times, t), t, fired)
  {
    assert times + Repeat(t, 0) == times;
  }

  lemma ClientStepWatched(cc: C.Config, sc: S.Config, gap: nat, base: int, first: int, net: Net, times: seq<int>,
                          now: int, fired: int,
                          t: C.Moment, down: Stream, pads: seq<Padding>)
    requires Watched(cc, sc, gap, base, first, net, times, now, fired) && AllSendable(net.up.sent)
    requires now <= t.at && (net.client.armed ==> t.at - fired <= gap) && !C.Makes(t)
    requires Inv(cc, sc, ClientStep(cc, net.(down := down), t, pads))
    ensures var after := ClientStep(cc, net.(down := down), t, pads);
            Watched(cc, sc, gap, base, first, after, Stamp(net, after, times, t.at), t.at,
                    if t.event.Tick? && net.client.armed then t.at else fired)
  {
    var w := Written(C.Step(cc, net.client, t).outs);
    var after := ClientStep(cc, net.(down := down), t, pads);
    ClientMoves(cc, gap, base, net.client, net.up.sent, times, now, fired, t);
    assert after.up.sent == net.up.sent + w && after.up.got == net.up.got;
    assert Stamp(net, after, times, t.at) == times + Repeat(t.at, |w|);
    assert |net.up.got| <= |times|;
  }

  lemma UpwardWatched(cc: C.Config, sc: S.Config, gap: nat, base: int, first: int, net: Net, times: seq<int>,
                      now: int, fired: int,
                      k: nat, at: int, pads: seq<Padding>)
    requires cc.order == sc.order && Watched(cc, sc, gap, base, first, net, times, now, fired)
    requires now <= at && 0 < k <= |net.up.channel|
    ensures var after := SessionStep(sc, net.(up := Pull(sc.order, net.up, net.session.buffer, k)),
                                     Timed(at, S.Read(net.up.channel[..k])), pads);
            Watched(cc, sc, gap, base, first, after, Stamp(net, after, times, at), at, fired)
  {
    UpwardKeeps(cc, sc, net, k, at, pads);
    SessionReads(sc, first, net.session, net.up.got, times, now, Timed(at, S.Read(net.up.channel[..k])));
    assert times + Repeat(at, 0) == times;
  }

  lemma SessionStepWatched(cc: C.Config, sc: S.Config, gap: nat, base: int, first: int, net: Net, times: seq<int>,
                           now: int, fired: int,
                           t: S.Moment, pads: seq<Padding>)
    requires cc.order == sc.order && Watched(cc, sc, gap, base, first, net, times, now, fired)
    requires now <= t.at && !t.event.Read?
    ensures var after := SessionStep(sc, net, t, pads);
            Watched(cc, sc, gap, base, first, after, Stamp(net, after, times, t.at), t.at, fired)
  {
    SessionDoesKeeps(cc, sc, net, t, pads);
    SessionMoves(sc, first, net.session, net.up.got, times, now, t);
    assert times + Repeat(t.at, 0) == times;
  }

  lemma NextWatched(cc: C.Config, sc: S.Config, gap: nat, base: int, first: int, net: Net, times: seq<int>,
                    now: int, fired: int, mv: Move)
    requires cc.order == sc.order && Watched(cc, sc, gap, base, first, net, times, now, fired) && AllSendable(net.up.sent)
    requires now <= MoveTime(mv) && (net.client.armed ==> MoveTime(mv) - fired <= gap)
    ensures var after, t := Next(cc, sc, net, mv), MoveTime(mv);
            Watched(cc, sc, gap, base, first, after, Stamp(net, after, times, t), t, if Fires(net, mv) then t else fired)
  {
    match mv
    case ClientDoes(t, pads) =>
      if t.event.Read? || t.event.ConnectCall? || t.event.ConnectDone? {
        TimePasses(cc, sc, gap, base, first, net, times, now, fired, t.at);
      } else {
        ClientDoesKeeps(cc, sc, net, t, pads);
        assert net.(down := net.down) == net;
        ClientStepWatched(cc, sc, gap, base, first, net, times, now, fired, t, net.down, pads);
      }
    case SessionDoes(t, pads) =>
      if t.event.Read? {
        TimePasses(cc, sc, gap, base, first, net, times, now, fired, t.at);
      } else {
        SessionStepWatched(cc, sc, gap, base, first, net, times, now, fired, t, pads);
      }
    case Upward(n, at, pads) =>
      var k := Min(n, |net.up.channel|);
      if k == 0 {
        TimePasses(cc, sc, gap, base, first, net, times, now, fired, at);
      } else {
        UpwardWatched(cc, sc, gap, base, first, net, times, now, fired, k, at, pads);
      }
    case Downward(n, at, pads) =>
      var k := Min(n, |net.down.channel|);
      if k == 0 {
        TimePasses(cc, sc, gap, base, first, net, times, now, fired, at);
      } else {
        DownwardKeeps(cc, sc, net, k, at, pads);
        ClientStepWatched(cc, sc, gap, base, first, net, times, now, fired, Timed(at, C.Read(net.down.channel[..k])),
                          Pull(cc.order, net.down, net.client.buffer, k), pads);
      }
  }

  // ----- The session stays open -----

  /** While the client watches, the session has decoded a HEARTBEAT written at most `gap + delay` ago, or is that young. */
  lemma TimeoutIsFresh(cc: C.Config, sc: S.Config, gap: nat, delay: nat, lead: nat, base: int, first: int,
                       net: Net, times: seq<int>, now: int, fired: int, t: int)
    requires cc.order == sc.order && Watched(cc, sc, gap, base, first, net, times, now, fired) && AllSendable(net.up.sent)
    requires now <= t && net.client.armed && t - fired <= gap && Prompt(cc.order, delay, net.up, times, t)
    requires base <= first + lead
    ensures t - net.session.lastBeat <= gap + delay + lead
  {
    var beats, x := Beats(net.up.sent, times), t - delay - 1;
    if x >= base {
      SpacedUntil(gap, base, beats, Last(base, beats), t);
      var b := SpacedFind(gap, base, beats, t, x);
      if b in beats {
        var k := BeatsOf(net.up.sent, times, b);
        ArrivedIsDecoded(cc.order, net.up, net.session.buffer, k);
        assert net.up.got[k] == net.up.sent[k];
      }
    }
  }

  /** A firing of the session's timer then finds the timeout not expired. */
  lemma FiringIsHarmless(sc: S.Config, s: S.State, t: S.Moment)
    requires S.Linked(s) && !s.closing && t.event.Tick? && s.lastBeat <= t.at && t.at - s.lastBeat < TIMEOUT_TICKS
    ensures !S.Step(sc, s, t).s.closing
  {
    Heartbeat.TimeoutExact(s, t.at);
  }

  lemma {:induction false} WatchedIsKeptAlive(cc: C.Config, sc: S.Config, gap: nat, delay: nat, lead: nat,
                                              base: int, first: int,
                                              net: Net, times: seq<int>, now: int, fired: int, moves: seq<Move>)
    requires cc.order == sc.order && Watched(cc, sc, gap, base, first, net, times, now, fired)
    requires base <= first + lead && gap + delay + lead < TIMEOUT_TICKS
    requires Timely(cc, sc, gap, delay, net, times, now, fired, moves)
    ensures !TimesOut(cc, sc, net, moves)
    decreases |moves|
  {
    if moves != [] {
      var mv, t := moves[0], MoveTime(moves[0]);
      var after := Next(cc, sc, net, mv);
      NextWatched(cc, sc, gap, base, first, net, times, now, fired, mv);
      if mv.SessionDoes? && mv.st.event.Tick? && net.client.armed && !net.session.closing {
        TimeoutIsFresh(cc, sc, gap, delay, lead, base, first, net, times, now, fired, t);
        FiringIsHarmless(sc, net.session, mv.st);
      }
      WatchedIsKeptAlive(cc, sc, gap, delay, lead, base, first, after, Stamp(net, after, times, t), t,
                         if Fires(net, mv) then t else fired, moves[1..]);
    }
  }

  /** A client and a session about to be joined, at `start`; the session is at most `lead` older than the connection. */
  ghost predicate Meet(client: C.State, session: S.State, start: int, lead: nat) {
    && client.buffer == [] && session.buffer == [] && S.Linked(session) && C.Consistent(client)
    && client.lastBeat <= start && session.lastBeat <= start && client.lastBeat <= session.lastBeat + lead
  }

  /**
   The heartbeat protocol does its job: if the client's timer fires at most `gap` apart, bytes
   take at most `delay` to the session, the session was started at most `lead` before the
   client learned of the connection, and the three together stay below the timeout, then no
   firing of the session's timer closes the session while the client watches the connection,
   whatever else either end does.
   */
  lemma HeartbeatsKeepSession(cc: C.Config, sc: S.Config, client: C.State, session: S.State, start: int, moves: seq<Move>,
                              gap: nat, delay: nat, lead: nat)
    requires cc.order == sc.order && Meet(client, session, start, lead) && gap + delay + lead < TIMEOUT_TICKS
    requires Timely(cc, sc, gap, delay, Joined(client, session), [], start, client.lastBeat, moves)
    ensures !TimesOut(cc, sc, Joined(client, session), moves)
  {
    JoinedInv(cc, sc, client, session);
    WatchedIsKeptAlive(cc, sc, gap, delay, lead, client.lastBeat, session.lastBeat, Joined(client, session), [],
                       start, client.lastBeat, moves);
  }

  // ----- The bound is exact -----

  /** The client's timer fires every `gap` ticks before `end`, and at `end` the session's does; nothing ever arrives. */
  function Unheard(gap: nat, fired: int, end: int): seq<Move>
    requires gap > 0
    decreases end - fired
  {
    if fired + gap < end then [ClientDoes(Timed(fired + gap, C.Tick), [])] + Unheard(gap, fired + gap, end)
    else [SessionDoes(Timed(end, S.Tick), [])]
  }

  /** A connection made at `lead` to a session started at 0, with nothing due to arrive before `end`. */
  ghost predicate Deaf(net: Net, times: seq<int>, lead: nat, delay: nat, end: int) {
    && net.client.armed && net.client.connected && !net.client.connecting && net.client.lastBeat == lead
    && net.session == S.Start(S.NEW_SESSION, 0, true)
    && |net.up.pads| == |net.up.sent| == |times| && AllSendable(net.up.sent)
    && forall k :: 0 <= k < |times| ==> times[k] + delay >= end
  }

  lemma DeafTick(cc: C.Config, sc: S.Config, net: Net, times: seq<int>, lead: nat, delay: nat, end: int, t: int)
    requires Deaf(net, times, lead, delay, end) && lead <= t && t - lead < TIMEOUT_TICKS && t + delay >= end
    ensures var after := Next(cc, sc, net, ClientDoes(Timed(t, C.Tick), []));
            Deaf(after, Stamp(net, after, times, t), lead, delay, end)
  {
    var m, tick := Msg(HEARTBEAT, [], 0), Timed(t, C.Tick);
    C.StepFrame(cc, net.client, tick);
    ClientTimer.TickExact(cc, net.client, tick);
    FiringWrites(cc, net.client, tick);
    assert C.Step(cc, net.client, tick).s == net.client;
  }

  lemma {:induction false} NobodyHears(cc: C.Config, sc: S.Config, net: Net, times: seq<int>, gap: nat, delay: nat, lead: nat,
                                       fired: int, end: int)
    requires gap > 0 && Deaf(net, times, lead, delay, end)
    requires lead <= fired <= end && fired + gap + delay >= end && TIMEOUT_TICKS <= end <= lead + TIMEOUT_TICKS
    ensures Timely(cc, sc, gap, delay, net, times, fired, fired, Unheard(gap, fired, end))
    ensures TimesOut(cc, sc, net, Unheard(gap, fired, end))
    decreases end - fired
  {
    var moves := Unheard(gap, fired, end);
    if fired + gap < end {
      var t := fired + gap;
      var after := Next(cc, sc, net, moves[0]);
      DeafTick(cc, sc, net, times, lead, delay, end, t);
      NobodyHears(cc, sc, after, Stamp(net, after, times, t), gap, delay, lead, t, end);
      assert moves[1..] == Unheard(gap, t, end);
    } else {
      DeafClose(cc, sc, net, times, gap, delay, lead, fired, end);
    }
  }

  lemma DeafClose(cc: C.Config, sc: S.Config, net: Net, times: seq<int>, gap: nat, delay: nat, lead: nat, fired: int, end: int)
    requires Deaf(net, times, lead, delay, end) && fired <= end <= fired + gap && TIMEOUT_TICKS <= end
    ensures var moves := [SessionDoes(Timed(end, S.Tick), [])];
            Timely(cc, sc, gap, delay, net, times, fired, fired, moves) && TimesOut(cc, sc, net, moves)
  {
    assert [SessionDoes(Timed(end, S.Tick), [])][1..] == [];
    Heartbeat.TimeoutExact(net.session, end);
  }

  /** From the bound on, a run exists in which the session is closed under a punctual client. */
  lemma BoundIsSharp(cc: C.Config, sc: S.Config, gap: nat, delay: nat, lead: nat)
    requires gap > 0 && gap + delay + lead >= TIMEOUT_TICKS
    ensures var client := C.NEW_CLIENT.(connected := true, armed := true, lastBeat := lead);
            var session := S.Start(S.NEW_SESSION, 0, true);
            var moves := Unheard(gap, lead, if lead < TIMEOUT_TICKS then TIMEOUT_TICKS else lead);
            && Meet(client, session, lead, lead)
            && Timely(cc, sc, gap, delay, Joined(client, session), [], lead, lead, moves)
            && TimesOut(cc, sc, Joined(client, session), moves)
  {
    var client := C.NEW_CLIENT.(connected := true, armed := true, lastBeat := lead);
    var net := Joined(client, S.Start(S.NEW_SESSION, 0, true));
    NobodyHears(cc, sc, net, [], gap, delay, lead, lead, if lead < TIMEOUT_TICKS then TIMEOUT_TICKS else lead);
  }

  /** A timely run of two ends that have met. */
  ghost predicate Punctual(cc: C.Config, sc: S.Config, gap: nat, delay: nat, lead: nat,
                           client: C.State, session: S.State, start: int, moves: seq<Move>) {
    Meet(client, session, start, lead) && Timely(cc, sc, gap, delay, Joined(client, session), [], start, client.lastBeat, moves)
  }

  /**
   Heartbeats keep the session open in every such run if and only if `gap`, `delay` and `lead`
   together are below the timeout.  (With a `gap` of no ticks no time could pass.)
   */
  lemma KeptAliveExact(cc: C.Config, sc: S.Config, gap: nat, delay: nat, lead: nat)
    requires cc.order == sc.order && gap > 0
    ensures gap + delay + lead < TIMEOUT_TICKS <==>
            forall client, session, start, moves :: Punctual(cc, sc, gap, delay, lead, client, session, start, moves) ==>
              !TimesOut(cc, sc, Joined(client, session), moves)
  {
    if gap + delay + lead < TIMEOUT_TICKS {
      forall client, session, start, moves | Punctual(cc, sc, gap, delay, lead, client, session, start, moves)
        ensures !TimesOut(cc, sc, Joined(client, session), moves)
      {
        HeartbeatsKeepSession(cc, sc, client, session, start, moves, gap, delay, lead);
      }
    } else {
      var client := C.NEW_CLIENT.(connected := true, armed := true, lastBeat := lead);
      var moves := Unheard(gap, lead, if lead < TIMEOUT_TICKS then TIMEOUT_TICKS else lead);
      BoundIsSharp(cc, sc, gap, delay, lead);
      assert Punctual(cc, sc, gap, delay, lead, client, S.Start(S.NEW_SESSION, 0, true), lead, moves);
    }
  }
}
