/**
 A client and a session of the server joined by two byte channels.  Each end runs its own
 state machine; what it writes is serialised onto one channel, and the other end receives it
 in pieces of any size, at any time (src/client.cpp:128-151, 206-239, 286-346;
 src/session.cpp:118-142, 157-199, 231-273).
 */
module Channel {
  import opened Message
  import opened Framing
  import opened Dispatch
  import opened Timing
  import C = ClientSpec
  import S = SessionSpec
  import ServerSpec

  // ----- One direction -----

  /** What was sent with the padding of each frame, the bytes in flight, and what the other end has decoded. */
  datatype Stream = Stream(sent: seq<Msg>, pads: seq<Padding>, channel: seq<byte>, got: seq<Msg>)

  const NEW_STREAM := Stream([], [], [], [])

  ghost function Push(o: ByteOrder, st: Stream, msgs: seq<Msg>, pads: seq<Padding>): Stream
    requires |pads| == |msgs|
  {
    Stream(st.sent + msgs, st.pads + pads, st.channel + Wire(o, pads, msgs), st.got)
  }

  function Pull(o: ByteOrder, st: Stream, buffer: seq<byte>, k: nat): Stream
    requires k <= |st.channel|
  {
    st.(channel := st.channel[k..], got := st.got + Drain(o, buffer + st.channel[..k]).msgs)
  }

  /** The packets decoded are the first of those sent; the buffer and the channel hold exactly the rest. */
  ghost predicate Aligned(o: ByteOrder, st: Stream, buffer: seq<byte>)
    requires |st.pads| == |st.sent|
  {
    var k := |st.got|;
    && Idle(o, buffer)
    && k <= |st.sent| && st.got == st.sent[..k]
    && buffer + st.channel == Wire(o, st.pads[k..], st.sent[k..])
  }

  /** As long as every body sent fits the length field, the stream is aligned. */
  ghost predicate Good(o: ByteOrder, st: Stream, buffer: seq<byte>) {
    |st.pads| == |st.sent| && (AllSendable(st.sent) ==> Aligned(o, st, buffer))
  }

  lemma PushKeeps(o: ByteOrder, st: Stream, buffer: seq<byte>, msgs: seq<Msg>, pads: seq<Padding>)
    requires Good(o, st, buffer) && |pads| == |msgs|
    ensures Good(o, Push(o, st, msgs, pads), buffer)
  {
    var n, k := Push(o, st, msgs, pads), |st.got|;
    if AllSendable(n.sent) {
      forall i | 0 <= i < |st.sent|
        ensures Sendable(st.sent[i])
      {
        assert n.sent[i] == st.sent[i];
      }
      assert n.sent[..k] == st.sent[..k];
      assert n.sent[k..] == st.sent[k..] + msgs && n.pads[k..] == st.pads[k..] + pads;
      WireAppend(o, st.pads[k..], st.sent[k..], pads, msgs);
      Assoc(buffer, st.channel, Wire(o, pads, msgs));
    }
  }

  lemma SliceAgain<T>(s: seq<T>, d: nat, j: nat)
    requires d + j <= |s|
    ensures s[..d] + s[d..][..j] == s[..d + j] && s[d..][j..] == s[d + j..]
  {
  }

  lemma StillAligned(o: ByteOrder, st: Stream, got: seq<Msg>, rest: seq<byte>, more: seq<byte>, n: nat)
    requires |st.pads| == |st.sent| && n <= |st.sent| && got == st.sent[..n]
    requires Idle(o, rest) && rest + more == Wire(o, st.pads[n..], st.sent[n..])
    ensures Aligned(o, st.(channel := more, got := got), rest)
  {
  }

  /** What a pass over the buffer and the bytes that arrived decodes is the next packets sent. */
  lemma PullKeeps(o: ByteOrder, st: Stream, buffer: seq<byte>, k: nat)
    requires Good(o, st, buffer) && k <= |st.channel|
    ensures Good(o, Pull(o, st, buffer, k), Drain(o, buffer + st.channel[..k]).rest)
  {
    if AllSendable(st.sent) {
      var chunk, more := st.channel[..k], st.channel[k..];
      var d, b := |st.got|, buffer + chunk;
      assert st.channel == chunk + more;
      Assoc(buffer, chunk, more);
      var j := DrainPrefix(o, st.pads[d..], st.sent[d..], b, more);
      var r := Drain(o, b);
      assert r.msgs == st.sent[d..][..j] && r.rest + more == Wire(o, st.pads[d..][j..], st.sent[d..][j..]);
      SliceAgain(st.sent, d, j);
      SliceAgain(st.pads, d, j);
      StillAligned(o, st, st.got + r.msgs, r.rest, more, d + j);
    }
  }

  // ----- Both ends -----

  /** Padding for `n` frames: whatever is given, and zeros if that is not enough. */
  function Fit(pads: seq<Padding>, n: nat): (r: seq<Padding>)
    ensures |r| == n
  {
    seq(n, i requires 0 <= i < n => if i < |pads| then pads[i] else Padding(0, 0))
  }

  datatype Net = Net(
    client: C.State, session: S.State, up: Stream, down: Stream, clientOuts: seq<Out>, sessionOuts: seq<Out>)

  /**
   One end does something of its own (a call, a timer, an error, a close), or up to `n` bytes
   reach the session (`Upward`) or the client (`Downward`).
   */
  datatype Move =
    | ClientDoes(ct: C.Moment, pads: seq<Padding>) | SessionDoes(st: S.Moment, pads: seq<Padding>)
    | Upward(n: nat, at: int, pads: seq<Padding>) | Downward(n: nat, at: int, pads: seq<Padding>)

  function Min(a: nat, b: nat): nat {
    if a < b then a else b
  }

  /** The client takes a step; what it writes goes onto the channel upward. */
  ghost function ClientStep(cc: C.Config, net: Net, t: C.Moment, pads: seq<Padding>): Net {
    var e := C.Step(cc, net.client, t);
    var msgs := Written(e.outs);
    net.(client := e.s, clientOuts := net.clientOuts + e.outs, up := Push(cc.order, net.up, msgs, Fit(pads, |msgs|)))
  }

  ghost function SessionStep(sc: S.Config, net: Net, t: S.Moment, pads: seq<Padding>): Net {
    var e := S.Step(sc, net.session, t);
    var msgs := Written(e.outs);
    net.(session := e.s, sessionOuts := net.sessionOuts + e.outs, down := Push(sc.order, net.down, msgs, Fit(pads, |msgs|)))
  }

  /** One connection: the client makes no new one, and bytes come from the channels only. */
  ghost function Next(cc: C.Config, sc: S.Config, net: Net, mv: Move): Net {
    match mv
    case ClientDoes(t, pads) =>
      if t.event.Read? || t.event.ConnectCall? || t.event.ConnectDone? then net else ClientStep(cc, net, t, pads)
    case SessionDoes(t, pads) =>
      if t.event.Read? then net else SessionStep(sc, net, t, pads)
    case Upward(n, at, pads) =>
      var k := Min(n, |net.up.channel|);
      if k == 0 then net
      else SessionStep(sc, net.(up := Pull(sc.order, net.up, net.session.buffer, k)), Timed(at, S.Read(net.up.channel[..k])), pads)
    case Downward(n, at, pads) =>
      var k := Min(n, |net.down.channel|);
      if k == 0 then net
      else ClientStep(cc, net.(down := Pull(cc.order, net.down, net.client.buffer, k)), Timed(at, C.Read(net.down.channel[..k])), pads)
  }

  ghost function RunNet(cc: C.Config, sc: S.Config, net: Net, moves: seq<Move>): Net
    decreases |moves|
  {
    if moves == [] then net else RunNet(cc, sc, Next(cc, sc, net, moves[0]), moves[1..])
  }

  /** A fresh connection between a client and a session, both with empty buffers. */
  function Joined(client: C.State, session: S.State): Net {
    Net(client, session, NEW_STREAM, NEW_STREAM, [], [])
  }

  /** Each end's history matches its streams: it sent what it wrote and called the handlers of what it got. */
  ghost predicate ClientInv(cc: C.Config, net: Net) {
    && net.up.sent == Written(net.clientOuts)
    && Calls(net.clientOuts) == Deliver(ClientRouter(cc.routes), net.down.got)
    && Good(cc.order, net.down, net.client.buffer)
  }

  ghost predicate SessionInv(sc: S.Config, net: Net) {
    && S.Linked(net.session)
    && net.down.sent == Written(net.sessionOuts)
    && Calls(net.sessionOuts) == Deliver(SessionRouter(sc.routes), net.up.got)
    && Good(sc.order, net.up, net.session.buffer)
  }

  ghost predicate Inv(cc: C.Config, sc: S.Config, net: Net) {
    ClientInv(cc, net) && SessionInv(sc, net)
  }

  /** A step of the client that brings packets `msgs` in from below keeps everything. */
  lemma ClientStepKeeps(cc: C.Config, sc: S.Config, net: Net, t: C.Moment, pads: seq<Padding>, down: Stream,
                        msgs: seq<Msg>)
    requires cc.order == sc.order && Inv(cc, sc, net)
    requires down.sent == net.down.sent && down.got == net.down.got + msgs
    requires Calls(C.Step(cc, net.client, t).outs) == Deliver(ClientRouter(cc.routes), msgs)
    requires Good(cc.order, down, C.Step(cc, net.client, t).s.buffer)
    ensures Inv(cc, sc, ClientStep(cc, net.(down := down), t, pads))
  {
    var e := C.Step(cc, net.client, t);
    var w := Written(e.outs);
    WrittenAppend(net.clientOuts, e.outs);
    CallsAppend(net.clientOuts, e.outs);
    DeliverAppend(ClientRouter(cc.routes), net.down.got, msgs);
    PushKeeps(cc.order, net.up, net.session.buffer, w, Fit(pads, |w|));
  }

  lemma SessionStepKeeps(cc: C.Config, sc: S.Config, net: Net, t: S.Moment, pads: seq<Padding>, up: Stream,
                         msgs: seq<Msg>)
    requires cc.order == sc.order && Inv(cc, sc, net)
    requires up.sent == net.up.sent && up.got == net.up.got + msgs
    requires Calls(S.Step(sc, net.session, t).outs) == Deliver(SessionRouter(sc.routes), msgs)
    requires Good(sc.order, up, S.Step(sc, net.session, t).s.buffer)
    ensures Inv(cc, sc, SessionStep(sc, net.(up := up), t, pads))
  {
    var e := S.Step(sc, net.session, t);
    var w := Written(e.outs);
    assert S.Linked(e.s) by { S.StepSane(sc, net.session, t); }
    WrittenAppend(net.sessionOuts, e.outs);
    CallsAppend(net.sessionOuts, e.outs);
    DeliverAppend(SessionRouter(sc.routes), net.up.got, msgs);
    PushKeeps(sc.order, net.down, net.client.buffer, w, Fit(pads, |w|));
  }

  lemma ClientDoesKeeps(cc: C.Config, sc: S.Config, net: Net, t: C.Moment, pads: seq<Padding>)
    requires cc.order == sc.order && Inv(cc, sc, net) && !t.event.Read?
    ensures Inv(cc, sc, ClientStep(cc, net, t, pads))
  {
    C.StepDispatches(cc, net.client, t);
    assert net.down.got == net.down.got + [];
    ClientStepKeeps(cc, sc, net, t, pads, net.down, []);
    assert net.(down := net.down) == net;
  }

  lemma SessionDoesKeeps(cc: C.Config, sc: S.Config, net: Net, t: S.Moment, pads: seq<Padding>)
    requires cc.order == sc.order && Inv(cc, sc, net) && !t.event.Read?
    ensures Inv(cc, sc, SessionStep(sc, net, t, pads))
  {
    S.StepDispatches(sc, net.session, t);
    assert net.up.got == net.up.got + [];
    SessionStepKeeps(cc, sc, net, t, pads, net.up, []);
    assert net.(up := net.up) == net;
  }

  lemma UpwardKeeps(cc: C.Config, sc: S.Config, net: Net, k: nat, at: int, pads: seq<Padding>)
    requires cc.order == sc.order && Inv(cc, sc, net) && 0 < k <= |net.up.channel|
    ensures Inv(cc, sc, SessionStep(sc, net.(up := Pull(sc.order, net.up, net.session.buffer, k)),
                                    Timed(at, S.Read(net.up.channel[..k])), pads))
  {
    var t := Timed(at, S.Read(net.up.channel[..k]));
    S.StepDispatches(sc, net.session, t);
    PullKeeps(sc.order, net.up, net.session.buffer, k);
    SessionStepKeeps(cc, sc, net, t, pads, Pull(sc.order, net.up, net.session.buffer, k),
                     Drain(sc.order, net.session.buffer + net.up.channel[..k]).msgs);
  }

  lemma DownwardKeeps(cc: C.Config, sc: S.Config, net: Net, k: nat, at: int, pads: seq<Padding>)
    requires cc.order == sc.order && Inv(cc, sc, net) && 0 < k <= |net.down.channel|
    ensures Inv(cc, sc, ClientStep(cc, net.(down := Pull(cc.order, net.down, net.client.buffer, k)),
                                   Timed(at, C.Read(net.down.channel[..k])), pads))
  {
    var t := Timed(at, C.Read(net.down.channel[..k]));
    C.StepDispatches(cc, net.client, t);
    PullKeeps(cc.order, net.down, net.client.buffer, k);
    ClientStepKeeps(cc, sc, net, t, pads, Pull(cc.order, net.down, net.client.buffer, k),
                    Drain(cc.order, net.client.buffer + net.down.channel[..k]).msgs);
  }

  lemma NextKeeps(cc: C.Config, sc: S.Config, net: Net, mv: Move)
    requires cc.order == sc.order && Inv(cc, sc, net)
    ensures Inv(cc, sc, Next(cc, sc, net, mv))
  {
    match mv
    case ClientDoes(t, pads) => if !t.event.Read? { ClientDoesKeeps(cc, sc, net, t, pads); }
    case SessionDoes(t, pads) => if !t.event.Read? { SessionDoesKeeps(cc, sc, net, t, pads); }
    case Upward(n, at, pads) =>
      var k := Min(n, |net.up.channel|);
      if k > 0 { UpwardKeeps(cc, sc, net, k, at, pads); }
    case Downward(n, at, pads) =>
      var k := Min(n, |net.down.channel|);
      if k > 0 { DownwardKeeps(cc, sc, net, k, at, pads); }
  }

  lemma {:induction false} AlwaysInv(cc: C.Config, sc: S.Config, net: Net, moves: seq<Move>)
    requires cc.order == sc.order && Inv(cc, sc, net)
    ensures Inv(cc, sc, RunNet(cc, sc, net, moves))
    decreases |moves|
  {
    if moves != [] {
      NextKeeps(cc, sc, net, moves[0]);
      AlwaysInv(cc, sc, Next(cc, sc, net, moves[0]), moves[1..]);
    }
  }

  lemma JoinedInv(cc: C.Config, sc: S.Config, client: C.State, session: S.State)
    requires client.buffer == [] && session.buffer == [] && S.Linked(session)
    ensures Inv(cc, sc, Joined(client, session))
  {
  }

  // ----- What holds in every reachable state -----

  /** The bytes sent are the bytes of what was decoded, then the receiver's buffer, then the channel. */
  ghost predicate Conserved(o: ByteOrder, st: Stream, buffer: seq<byte>)
    requires |st.pads| == |st.sent|
  {
    var k := |st.got|;
    && k <= |st.sent| && st.got == st.sent[..k]
    && Wire(o, st.pads, st.sent) == Wire(o, st.pads[..k], st.got) + buffer + st.channel
    && (st.channel == [] ==> st.got == st.sent && buffer == [])
  }

  lemma AlignedConserves(o: ByteOrder, st: Stream, buffer: seq<byte>)
    requires |st.pads| == |st.sent| && AllSendable(st.sent) && Aligned(o, st, buffer)
    ensures Conserved(o, st, buffer)
  {
    var k := |st.got|;
    assert st.sent == st.sent[..k] + st.sent[k..] && st.pads == st.pads[..k] + st.pads[k..];
    WireAppend(o, st.pads[..k], st.sent[..k], st.pads[k..], st.sent[k..]);
    Assoc(Wire(o, st.pads[..k], st.got), buffer, st.channel);
    if st.channel == [] {
      assert buffer + st.channel == buffer;
      DrainWhole(o, st.pads[k..], st.sent[k..]);
      assert st.sent[k..] == [];
    }
  }

  /**
   Conservation and delivery, in every reachable state and in both directions: the bytes sent
   are the bytes of the packets decoded, then the receiver's buffer, then the channel; so
   what is decoded is a prefix of what was sent; and once a channel is empty, everything sent
   through it has been decoded and the receiver's buffer is empty.
   */
  lemma StreamsAreConserved(cc: C.Config, sc: S.Config, client: C.State, session: S.State, moves: seq<Move>)
    requires cc.order == sc.order && client.buffer == [] && session.buffer == [] && S.Linked(session)
    ensures var net := RunNet(cc, sc, Joined(client, session), moves);
            && |net.up.pads| == |net.up.sent| && |net.down.pads| == |net.down.sent|
            && (AllSendable(net.up.sent) ==> Conserved(cc.order, net.up, net.session.buffer))
            && (AllSendable(net.down.sent) ==> Conserved(cc.order, net.down, net.client.buffer))
  {
    JoinedInv(cc, sc, client, session);
    AlwaysInv(cc, sc, Joined(client, session), moves);
    var net := RunNet(cc, sc, Joined(client, session), moves);
    if AllSendable(net.up.sent) {
      AlignedConserves(cc.order, net.up, net.session.buffer);
    }
    if AllSendable(net.down.sent) {
      AlignedConserves(cc.order, net.down, net.client.buffer);
    }
  }

  /**
   End to end: at each end the handlers called are those asked for by the first packets the
   other end wrote (heartbeats and handlers' replies included), in order and once each,
   however reads, timers, errors and closes at both ends interleave.
   */
  lemma HandlersFollowPeer(cc: C.Config, sc: S.Config, client: C.State, session: S.State, moves: seq<Move>)
    requires cc.order == sc.order && client.buffer == [] && session.buffer == [] && S.Linked(session)
    ensures var net := RunNet(cc, sc, Joined(client, session), moves);
            var sentUp, sentDown := Written(net.clientOuts), Written(net.sessionOuts);
            var i, j := |net.up.got|, |net.down.got|;
            && (AllSendable(sentUp) ==>
                  i <= |sentUp| && Calls(net.sessionOuts) == Deliver(SessionRouter(sc.routes), sentUp[..i]))
            && (AllSendable(sentDown) ==>
                  j <= |sentDown| && Calls(net.clientOuts) == Deliver(ClientRouter(cc.routes), sentDown[..j]))
  {
    JoinedInv(cc, sc, client, session);
    AlwaysInv(cc, sc, Joined(client, session), moves);
  }

  /**
   From the client's `uv_write` to the server's callbacks: on a session set up by the server,
   the server callbacks that have run are exactly one for each wanted packet among the first
   ones the client wrote, in order, each the right one; and when the channel is empty, for
   each wanted packet the client wrote.
   */
  lemma ServerFollowsClient(cc: C.Config, sc: S.Config, client: C.State, session: S.State, moves: seq<Move>,
                            h: ServerSpec.ServerHandlers, interceptors: map<byte, Interceptor>)
    requires cc.order == sc.order && client.buffer == [] && session.buffer == [] && S.Linked(session)
    requires sc.routes == ServerSpec.InstalledRoutes(interceptors)
    ensures var net := RunNet(cc, sc, Joined(client, session), moves);
            var sent, i := Written(net.clientOuts), |net.up.got|;
            AllSendable(sent) ==>
              && i <= |sent|
              && ServerSpec.CallsAre(h, ServerSpec.ServerCalls(h, Calls(net.sessionOuts)), ServerSpec.Select(h, interceptors, sent[..i]))
              && (net.up.channel == [] ==> sent[..i] == sent)
  {
    HandlersFollowPeer(cc, sc, client, session, moves);
    StreamsAreConserved(cc, sc, client, session, moves);
    JoinedInv(cc, sc, client, session);
    AlwaysInv(cc, sc, Joined(client, session), moves);
    var net := RunNet(cc, sc, Joined(client, session), moves);
    var sent, i := Written(net.clientOuts), |net.up.got|;
    if AllSendable(sent) {
      ServerSpec.TwoLevelRouting(h, interceptors, sent[..i]);
    }
  }
}
