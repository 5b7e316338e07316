/**
 What one connection of the client leaves for the next: its receive buffer is cleared neither
 by a disconnect nor by a new connection (src/client.cpp:69-204, 286-346).
 */
module ClientReconnect {
  import opened Message
  import opened Framing
  import opened Dispatch
  import opened Timing
  import opened ClientSpec

  /** The reads of `us` bring exactly the serialisation of `msgs`. */
  ghost predicate Brings(o: ByteOrder, us: seq<Moment>, pads: seq<Padding>, msgs: seq<Msg>) {
    |pads| == |msgs| && AllSendable(msgs) && Join(Chunks(us)) == Wire(o, pads, msgs)
  }

  /** From an empty buffer a serialised list is decoded as sent, however it is split, and nothing is kept. */
  lemma CleanStart(o: ByteOrder, us: seq<Moment>, pads: seq<Padding>, msgs: seq<Msg>)
    requires Brings(o, us, pads, msgs)
    ensures Feed(o, [], Chunks(us)) == Drained(msgs, [], false)
  {
    ChunkingIndependence(o, [], Chunks(us));
    FeedExtends(o, [], Chunks(us));
    assert [] + Join(Chunks(us)) == Wire(o, pads, msgs);
    DrainWhole(o, pads, msgs);
  }

  /** One read that brings a whole list. */
  ghost function ReadAll(o: ByteOrder, pads: seq<Padding>, msgs: seq<Msg>): seq<Moment>
    requires |pads| == |msgs|
  {
    [Timed(0, Read(Wire(o, pads, msgs)))]
  }

  lemma ReadAllBrings(o: ByteOrder, stale: seq<byte>, pads: seq<Padding>, msgs: seq<Msg>)
    requires |pads| == |msgs| && AllSendable(msgs) && Wire(o, pads, msgs) != []
    ensures Brings(o, ReadAll(o, pads, msgs), pads, msgs)
    ensures Feed(o, stale, Chunks(ReadAll(o, pads, msgs))).msgs == Drain(o, stale + Wire(o, pads, msgs)).msgs
  {
    var w, us := Wire(o, pads, msgs), ReadAll(o, pads, msgs);
    assert us[1..] == [];
    assert Chunks(us) == [w] + Chunks([]);
    FeedOne(o, stale, w);
  }

  lemma FeedOne(o: ByteOrder, b: seq<byte>, w: seq<byte>)
    ensures Join([w]) == w
    ensures Feed(o, b, [w]).msgs == Drain(o, b + w).msgs
  {
    var none: seq<seq<byte>> := [];
    assert [w][1..] == none;
    assert Join([w]) == w + Join(none) == w;
    var d := Drain(o, b + w);
    assert Feed(o, b, [w]).msgs == d.msgs + Feed(o, d.rest, none).msgs == d.msgs;
  }

  /** Behind bytes left over, one packet read in one piece is not decoded as it was sent. */
  lemma LeftoversShow(o: ByteOrder, stale: seq<byte>, pad: Padding)
    requires Idle(o, stale) && stale != []
    ensures var us := ReadAll(o, [pad], [TellTale(stale)]);
            && Brings(o, us, [pad], [TellTale(stale)])
            && Feed(o, stale, Chunks(us)).msgs != [TellTale(stale)]
  {
    var m := TellTale(stale);
    WireFirst(o, [pad], [m], []);
    assert |Wire(o, [pad], [m]) + []| >= HEADER_SIZE;
    ReadAllBrings(o, stale, [pad], [m]);
    StaleBytesShow(o, stale, pad);
  }

  /**
   Whatever a client has been through, what it reads from then on is always decoded as it was
   sent (over new connections, in any pieces, between any other events) exactly when nothing
   was left in its buffer.
   */
  lemma NextConnectionExact(c: Config, s: State, ts: seq<Moment>)
    requires Idle(c.order, s.buffer)
    ensures var stale := Run(c, s, ts).s.buffer;
            stale == [] <==>
              forall us, pads, msgs :: Brings(c.order, us, pads, msgs) ==> Feed(c.order, stale, Chunks(us)).msgs == msgs
  {
    var stale := Run(c, s, ts).s.buffer;
    RunDispatches(c, s, ts);
    FeedIdle(c.order, s.buffer, Chunks(ts));
    if stale == [] {
      forall us, pads, msgs | Brings(c.order, us, pads, msgs)
        ensures Feed(c.order, stale, Chunks(us)).msgs == msgs
      {
        CleanStart(c.order, us, pads, msgs);
      }
    } else {
      LeftoversShow(c.order, stale, Padding(0, 0));
    }
  }

  /** Every packet reaches a handler. */
  ghost predicate Total(r: Routes) {
    forall m :: Route(r, m).Some?
  }

  lemma {:induction false} DeliverAll(r: Routes, msgs: seq<Msg>)
    requires Total(r)
    ensures var d := Deliver(ClientRouter(r), msgs);
            |d| == |msgs| && forall i :: 0 <= i < |d| ==> d[i].1 == msgs[i]
  {
    if msgs != [] {
      DeliverAll(r, msgs[1..]);
      assert Route(r, msgs[0]).Some?;
    }
  }

  lemma DeliverInjective(r: Routes, a: seq<Msg>, b: seq<Msg>)
    requires Total(r) && Deliver(ClientRouter(r), a) == Deliver(ClientRouter(r), b)
    ensures a == b
  {
    DeliverAll(r, a);
    DeliverAll(r, b);
  }

  /**
   The same in terms of what the application sees: on a client that handles every packet, the
   handlers called in the rest of the run are always those of the packets sent exactly when
   nothing was left in the buffer.
   */
  lemma NextCallsExact(c: Config, s: State, ts: seq<Moment>)
    requires Idle(c.order, s.buffer) && Total(c.routes)
    ensures var u := Run(c, s, ts).s;
            u.buffer == [] <==>
              forall us, pads, msgs :: Brings(c.order, us, pads, msgs) ==>
                Calls(Run(c, u, us).outs) == Deliver(ClientRouter(c.routes), msgs)
  {
    var u := Run(c, s, ts).s;
    RunDispatches(c, s, ts);
    FeedIdle(c.order, s.buffer, Chunks(ts));
    if u.buffer == [] {
      forall us, pads, msgs | Brings(c.order, us, pads, msgs)
        ensures Calls(Run(c, u, us).outs) == Deliver(ClientRouter(c.routes), msgs)
      {
        CleanStart(c.order, us, pads, msgs);
        RunDispatches(c, u, us);
      }
    } else {
      var pads, msgs := [Padding(0, 0)], [TellTale(u.buffer)];
      var us := ReadAll(c.order, pads, msgs);
      LeftoversShow(c.order, u.buffer, Padding(0, 0));
      RunDispatches(c, u, us);
      if Calls(Run(c, u, us).outs) == Deliver(ClientRouter(c.routes), msgs) {
        DeliverInjective(c.routes, Feed(c.order, u.buffer, Chunks(us)).msgs, msgs);
        assert false;
      }
      assert Brings(c.order, us, pads, msgs);
    }
  }

  /** A client that reads the first byte of a frame, loses its connection and makes another. */
  function CutConnection(): seq<Moment> {
    [Timed(0, ConnectCall(false, true, true)), Timed(1, ConnectDone(true, true)), Timed(2, Read([PROTOCOL_VERSION])),
     Timed(3, ReadFailed), Timed(4, CloseDone), Timed(5, ConnectCall(false, true, true)), Timed(6, ConnectDone(true, true))]
  }

  /** That byte is still there on the new connection, so the first packet on it is not decoded as it was sent. */
  lemma CutConnectionLeaves(c: Config, pad: Padding)
    ensures var u := Run(c, NEW_CLIENT, CutConnection()).s;
            && u.connected && u.buffer == [PROTOCOL_VERSION]
            && var us := ReadAll(c.order, [pad], [TellTale(u.buffer)]);
               Brings(c.order, us, [pad], [TellTale(u.buffer)]) && Feed(c.order, u.buffer, Chunks(us)).msgs != [TellTale(u.buffer)]
  {
    var b: seq<byte> := [PROTOCOL_VERSION];
    var m0, m1, m2, m3, m4, m5, m6 := Timed(0, ConnectCall(false, true, true)), Timed(1, ConnectDone(true, true)), Timed(2, Read(b)),
      Timed(3, ReadFailed), Timed(4, CloseDone), Timed(5, ConnectCall(false, true, true)), Timed(6, ConnectDone(true, true));
    var s3 := FirstHalf(c, b);
    SecondHalf(c, s3, m3, m4, m5, m6);
    RunAppend(c, NEW_CLIENT, [m0, m1, m2], [m3, m4, m5, m6]);
    assert CutConnection() == [m0, m1, m2] + [m3, m4, m5, m6];
    LeftoversShow(c.order, b, pad);
  }

  lemma FirstHalf(c: Config, b: seq<byte>) returns (s: State)
    requires b == [PROTOCOL_VERSION]
    ensures s == Run(c, NEW_CLIENT, [Timed(0, ConnectCall(false, true, true)), Timed(1, ConnectDone(true, true)), Timed(2, Read(b))]).s
    ensures s == NEW_CLIENT.(buffer := b, connected := true, armed := true, lastBeat := 1)
  {
    var m0, m1, m2 := Timed(0, ConnectCall(false, true, true)), Timed(1, ConnectDone(true, true)), Timed(2, Read(b));
    var s1 := NEW_CLIENT.(connecting := true);
    var s2 := NEW_CLIENT.(connected := true, armed := true, lastBeat := 1);
    s := s2.(buffer := b);
    assert Step(c, NEW_CLIENT, m0).s == s1 && Step(c, s1, m1).s == s2;
    assert [] + b == b && Drain(c.order, b) == Drained([], b, false);
    assert Step(c, s2, m2).s == s;
    assert [m0, m1, m2][1..] == [m1, m2] && [m1, m2][1..] == [m2] && [m2][1..] == [];
    assert Run(c, s, []).s == s && Run(c, s2, [m2]).s == s && Run(c, s1, [m1, m2]).s == s;
  }

  lemma SecondHalf(c: Config, s: State, m3: Moment, m4: Moment, m5: Moment, m6: Moment)
    requires s.connected && m3.event == ReadFailed && m4.event == CloseDone
    requires m5.event == ConnectCall(false, true, true) && m6.event == ConnectDone(true, true)
    ensures var u := Run(c, s, [m3, m4, m5, m6]).s; u.connected && u.buffer == s.buffer
  {
    var s3 := Step(c, s, m3).s;
    var s4 := Step(c, s3, m4).s;
    var s5 := Step(c, s4, m5).s;
    var s6 := Step(c, s5, m6).s;
    assert [m3, m4, m5, m6][1..] == [m4, m5, m6] && [m4, m5, m6][1..] == [m5, m6] && [m5, m6][1..] == [m6] && [m6][1..] == [];
    assert Run(c, s6, []).s == s6 && Run(c, s5, [m6]).s == s6 && Run(c, s4, [m5, m6]).s == s6 && Run(c, s3, [m4, m5, m6]).s == s6;
  }

  lemma RunUnfold(c: Config, s: State, t: Moment, ts: seq<Moment>)
    ensures Run(c, s, [t] + ts).s == Run(c, Step(c, s, t).s, ts).s
  {
    assert ([t] + ts)[1..] == ts;
  }

  lemma {:induction false} RunAppend(c: Config, s: State, a: seq<Moment>, b: seq<Moment>)
    ensures Run(c, s, a + b).s == Run(c, Run(c, s, a).s, b).s
    decreases |a|
  {
    if a == [] {
      assert a + b == b;
    } else {
      var t, more := a[0], a[1..];
      assert a == [t] + more && a + b == [t] + (more + b);
      RunUnfold(c, s, t, more);
      RunUnfold(c, s, t, more + b);
      RunAppend(c, Step(c, s, t).s, more, b);
    }
  }
}
