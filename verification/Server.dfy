/** The server object (src/server.cpp), proved against ServerSpec. */
module Servers {
  import opened Message
  import opened Dispatch
  import opened Sessions
  import Spec = ServerSpec
  import SessionSpec

  /** The registry by addresses, as in ServerSpec. */
  function Addresses(ss: seq<Session>): (r: seq<nat>)
    ensures |r| == |ss|
  {
    if ss == [] then [] else [ss[0].address] + Addresses(ss[1..])
  }

  ghost predicate DistinctAddresses(ss: seq<Session>) {
    forall i, j :: 0 <= i < j < |ss| ==> ss[i].address != ss[j].address
  }

  class Server {
    const loop: Loop
    const order: ByteOrder
    const behave: Behaviour

    var sessions: seq<Session>
    var packetHandlers: map<byte, nat>
    var defaultHandler: Option<nat>
    var connectHandlerSet: bool
    var closeHandlerSet: bool

    /** The calls of the application's packet handlers, each with its session, in order. */
    var served: seq<(nat, (nat, Msg))>

    /** Every session ever accepted (the callbacks it holds keep it alive), and the state each is in. */
    ghost var all: seq<Session>
    ghost var states: map<nat, SessionSpec.State>

    ghost function State(): Spec.State
      reads this
    {
      Spec.State(Addresses(sessions), states)
    }

    function Config(): Spec.Config
      reads this
    {
      Spec.Config(order, map[], behave, connectHandlerSet, closeHandlerSet)
    }

    function Handlers(): Spec.ServerHandlers
      reads this
    {
      Spec.ServerHandlers(packetHandlers, defaultHandler)
    }

    /** Sessions are distinct objects at distinct addresses, share the server's loop and hold its callbacks. */
    ghost predicate Valid()
      reads this, all
    {
      && DistinctAddresses(all) && DistinctAddresses(sessions)
      && (forall s :: s in sessions ==> s in all)
      && (forall a :: a in states ==> a in Addresses(all))
      && forall s :: s in all ==> Holds(s)
    }

    /** One session: it shares the loop, has the server's callbacks, and is in the state recorded for it. */
    ghost predicate Holds(s: Session)
      reads this, s
    {
      && s.loop == loop && s.Valid()
      && s.Config() == Spec.SessionConfig(Config())
      && s.address in states && states[s.address] == s.State()
    }

    constructor (loop: Loop, order: ByteOrder, behave: Behaviour)
      ensures this.loop == loop
      ensures Valid() && State() == Spec.NEW_SERVER && sessions == [] && all == []
      ensures Config() == Spec.Config(order, map[], behave, false, false)
      ensures Handlers() == Spec.ServerHandlers(map[], None) && served == []
    {
      this.loop, this.order, this.behave := loop, order, behave;
      sessions, packetHandlers, defaultHandler := [], map[], None;
      connectHandlerSet, closeHandlerSet := false, false;
      served, all, states := [], [], map[];
    }

    method SetConnectHandler()
      modifies this`connectHandlerSet
      ensures connectHandlerSet
    {
      connectHandlerSet := true;
    }

    method SetCloseHandler()
      modifies this`closeHandlerSet
      ensures closeHandlerSet
    {
      closeHandlerSet := true;
    }

    method SetPacketHandler(kind: byte, handler: nat)
      modifies this`packetHandlers
      ensures packetHandlers == old(packetHandlers)[kind := handler]
    {
      packetHandlers := packetHandlers[kind := handler];
    }

    method SetDefaultPacketHandler(handler: nat)
      modifies this`defaultHandler
      ensures defaultHandler == Some(handler)
    {
      defaultHandler := Some(handler);
    }

    /** The forwarding callback installed on every session: the server's own look-up. */
    method OnPacket(address: nat, m: Msg)
      modifies this`served
      ensures served == old(served) + Spec.ServedOne(Handlers(), (address, Call(Spec.FORWARD, m)))
      ensures m.kind in packetHandlers ==> served == old(served) + [(address, (packetHandlers[m.kind], m))]
      ensures m.kind !in packetHandlers && defaultHandler.Some? ==> served == old(served) + [(address, (defaultHandler.value, m))]
      ensures m.kind !in packetHandlers && defaultHandler.None? ==> served == old(served)
    {
      if m.kind in packetHandlers {
        served := served + [(address, (packetHandlers[m.kind], m))];
      } else if defaultHandler.Some? {
        served := served + [(address, (defaultHandler.value, m))];
      }
    }

    /** Runs the forwarding callback for each call of it logged since `from`. */
    method Forward(from: nat)
      requires from <= |loop.log|
      modifies this`served
      ensures served == old(served) + Spec.Served(Handlers(), loop.log[from..])
    {
      ghost var whole := served + Spec.Served(Handlers(), loop.log[from..]);
      assert served == served + [];
      for i := from to |loop.log|
        invariant whole == served + Spec.Served(Handlers(), loop.log[i..])
      {
        var entry := loop.log[i];
        assert loop.log[i..][0] == entry && loop.log[i..][1..] == loop.log[i + 1..];
        Assoc(served, Spec.ServedOne(Handlers(), entry), Spec.Served(Handlers(), loop.log[i + 1..]));
        if entry.1.Call? && entry.1.handler == Spec.FORWARD {
          OnPacket(entry.0, entry.1.m);
        }
      }
      assert loop.log[|loop.log|..] == [];
    }

    /**
     A new connection.  The session is registered, its callbacks are installed, it is started
     and the connect handler is called with it; a failed accept changes nothing.
     */
    method OnConnection(accepted: bool, address: nat, readOk: bool, now: int) returns (session: Session?)
      requires Valid() && (accepted ==> address !in states)
      modifies this`sessions, this`all, this`states, loop
      ensures Valid()
      ensures var e := Spec.Step(Config(), old(State()), if accepted then Spec.Accept(address, now, readOk) else Spec.AcceptFailed);
              State() == e.s && loop.log == old(loop.log) + e.outs
      ensures all == if session == null then old(all) else old(all) + [session]
      ensures accepted <==> session != null
      ensures accepted ==> fresh(session) && session.address == address && sessions == old(sessions) + [session]
    {
      if !accepted {
        return null;
      }
      var s := new Session(loop, address, order, behave);
      SetUp(s, readOk, now);
      Register(s);
      loop.Emit(address, Connected(connectHandlerSet));
      session := s;
    }

    /** Puts a session at the back of the registry. */
    method Register(s: Session)
      requires Valid() && s.address !in states
      requires s.loop == loop && s.Valid() && s.Config() == Spec.SessionConfig(Config())
      modifies this`sessions, this`all, this`states
      ensures Valid()
      ensures sessions == old(sessions) + [s] && all == old(all) + [s]
      ensures State() == Spec.State(old(Addresses(sessions)) + [s.address], old(states)[s.address := s.State()])
    {
      assert forall t :: t in all ==> Holds(t);
      AddSession(sessions, s);
      AddSession(all, s);
      sessions := sessions + [s];
      all, states := all + [s], states[s.address := s.State()];
      assert forall t :: t in old(all) ==> Holds(t);
      assert Holds(s);
    }

    /** Installs the callbacks and starts the session. */
    static method SetUp(s: Session, readOk: bool, now: int)
      requires s.Valid() && s.packetHandlers == map[]
      modifies s`packetHandlers, s`defaultHandler, s`closeHandlerSet, s`reading, s`lastHeartbeatTime, s`timerArmed
      ensures s.Valid() && s.State() == SessionSpec.Start(old(s.State()), now, readOk)
      ensures s.Config() == SessionSpec.Config(s.order, Spec.InstalledRoutes(s.interceptors), s.behave, true)
    {
      Install(s);
      s.Start(readOk, now);
    }

    /** The callbacks every new session gets. */
    static method Install(s: Session)
      modifies s`packetHandlers, s`defaultHandler, s`closeHandlerSet
      ensures s.packetHandlers == old(s.packetHandlers)[HEARTBEAT := Spec.IGNORE]
      ensures s.defaultHandler == Some(Spec.FORWARD) && s.closeHandlerSet
    {
      s.SetPacketHandler(HEARTBEAT, Spec.IGNORE);
      s.SetDefaultPacketHandler(Spec.FORWARD);
      s.SetCloseHandler();
    }

    /** The callback a session runs when its socket is closed: forget the session, then tell the application. */
    method OnSessionClosed(session: Session)
      requires Valid() && session in all
      modifies this`sessions, loop
      ensures Valid()
      ensures State() == old(State()).(sessions := Spec.Without(old(Addresses(sessions)), session.address))
      ensures loop.log == old(loop.log) + [(session.address, Forgotten(closeHandlerSet))]
    {
      var kept := Erase(sessions, session);
      DistinctMeansSame(all, session);
      OthersAddresses(sessions, session);
      OthersDistinct(sessions, session);
      OthersAmong(sessions, session);
      sessions := kept;
      loop.Emit(session.address, Forgotten(closeHandlerSet));
    }

    /** Valid but for the state recorded for one session. */
    ghost predicate ValidBut(session: Session)
      reads this, all
    {
      && DistinctAddresses(all) && DistinctAddresses(sessions)
      && (forall s :: s in sessions ==> s in all)
      && (forall a :: a in states ==> a in Addresses(all))
      && (forall s :: s in all && s != session ==> Holds(s))
      && session in all && session.loop == loop && session.Valid()
      && session.Config() == Spec.SessionConfig(Config()) && session.address in states
    }

    /** Records the state a session is in now. */
    ghost method Record(session: Session)
      requires ValidBut(session)
      modifies this`states
      ensures Valid() && states == old(states)[session.address := session.State()]
    {
      DistinctMeansSame(all, session);
      states := states[session.address := session.State()];
      assert forall s :: s in all && s != session ==> Holds(s);
      assert Holds(session);
    }

    /** The session's part in its close callback. */
    method ReportClose(session: Session)
      requires Valid() && session in all && session.owedCloses > 0
      modifies this`states, session`owedCloses, loop
      ensures Valid()
      ensures states == old(states)[session.address := SessionSpec.OnClose(Spec.SessionConfig(Config()), old(states)[session.address]).s]
      ensures loop.log == old(loop.log) + Tag(session.address, [Closed(true)])
    {
      assert Holds(session);
      session.OnClose();
      Record(session);
    }

    /** The close callback of a session that is owed one: the session reports it, and the server forgets the session. */
    method CloseCallback(session: Session)
      requires Valid() && session in all && session.owedCloses > 0
      modifies this`sessions, this`states, session`owedCloses, loop
      ensures Valid()
      ensures states == old(states)[session.address := SessionSpec.OnClose(Spec.SessionConfig(Config()), old(states)[session.address]).s]
      ensures Addresses(sessions) == Spec.Without(old(Addresses(sessions)), session.address)
      ensures loop.log == old(loop.log) + Tag(session.address, [Closed(true)]) + [(session.address, Forgotten(closeHandlerSet))]
    {
      ReportClose(session);
      OnSessionClosed(session);
    }

    /** Anything else that happens to a session, registered or not. */
    method OtherCallback(session: Session, t: SessionSpec.Moment)
      requires Valid() && session in all && !(t.event.CloseDone? && session.owedCloses > 0)
      modifies this`states, loop,
               session`isClosing, session`socketClosing, session`owedCloses, session`lastHeartbeatTime,
               session`readBuffer, session`timerArmed, session`reading
      ensures Valid()
      ensures var e := Spec.Step(Config(), old(State()), Spec.On(session.address, t));
              State() == e.s && loop.log == old(loop.log) + e.outs
    {
      assert Holds(session);
      SessionSpec.StepOuts(session.Config(), session.State(), t);
      session.Callback(t);
      Record(session);
    }

    method SessionEvent(session: Session, t: SessionSpec.Moment)
      requires Valid() && session in all
      modifies this`sessions, this`states, loop,
               session`isClosing, session`socketClosing, session`owedCloses, session`lastHeartbeatTime,
               session`readBuffer, session`timerArmed, session`reading
      ensures Valid()
      ensures var e := Spec.Step(Config(), old(State()), Spec.On(session.address, t));
              State() == e.s && loop.log == old(loop.log) + e.outs
    {
      if t.event.CloseDone? && session.owedCloses > 0 {
        assert Holds(session);
        Spec.OnClosing(Config(), State(), session.address, t);
        Assoc(loop.log, Tag(session.address, [Closed(true)]), [(session.address, Forgotten(closeHandlerSet))]);
        CloseCallback(session);
      } else {
        OtherCallback(session, t);
      }
    }

    /** Anything that happens to a session; its close makes the server forget it, and its packets reach the server's handlers. */
    method SessionCallback(session: Session, t: SessionSpec.Moment)
      requires Valid() && session in all
      modifies this`sessions, this`states, this`served, loop,
               session`isClosing, session`socketClosing, session`owedCloses, session`lastHeartbeatTime,
               session`readBuffer, session`timerArmed, session`reading
      ensures Valid()
      ensures var e := Spec.Step(Config(), old(State()), Spec.On(session.address, t));
              && State() == e.s && loop.log == old(loop.log) + e.outs
              && served == old(served) + Spec.Served(Handlers(), e.outs)
    {
      var from := |loop.log|;
      SessionEvent(session, t);
      assert loop.log[from..] == Spec.Step(Config(), old(State()), Spec.On(session.address, t)).outs;
      Forward(from);
    }

    method SendOn(s: Session, packet: Packet)
      requires Valid() && s in sessions
      modifies loop
      ensures Valid() && loop.log == old(loop.log) + OneWrite(states, s.address, packet.Value())
    {
      assert Holds(s);
      var pad: Padding := *;
      var _ := s.Send(packet, pad);
    }

    /** Sends a packet on every registered session, in registry order. */
    method Broadcast(packet: Packet)
      requires Valid()
      modifies loop
      ensures Valid() && loop.log == old(loop.log) + Spec.BroadcastOuts(states, Addresses(sessions), packet.Value())
    {
      ghost var m := packet.Value();
      ghost var whole := loop.log + Spec.BroadcastOuts(states, Addresses(sessions), m);
      for i := 0 to |sessions|
        invariant Valid() && packet.Value() == m
        invariant loop.log + Spec.BroadcastOuts(states, Addresses(sessions[i..]), m) == whole
      {
        var s := sessions[i];
        assert s in sessions;
        assert sessions[i..][1..] == sessions[i + 1..];
        BroadcastFirst(states, sessions[i..], m);
        Assoc(loop.log, OneWrite(states, s.address, m), Spec.BroadcastOuts(states, Addresses(sessions[i + 1..]), m));
        SendOn(s, packet);
      }
      assert sessions[|sessions|..] == [];
    }

    /** Finds the first registered session with an id, or the end of the registry. */
    method FindSession(id: string) returns (i: nat)
      ensures FirstWithId(sessions, id, i)
    {
      i := 0;
      while i < |sessions| && sessions[i].Id() != id
        invariant i <= |sessions| && forall j :: 0 <= j < i ==> sessions[j].Id() != id
      {
        i := i + 1;
      }
    }

    /** Sends a packet on the first registered session with the given id, if there is one. */
    method SendTo(id: string, packet: Packet)
      requires Valid()
      modifies loop
      ensures Valid() && loop.log == old(loop.log) + Spec.SendToOuts(states, Addresses(sessions), id, packet.Value())
    {
      var i := FindSession(id);
      assert forall s :: s in sessions ==> Holds(s);
      SendToFound(states, sessions, id, packet.Value(), i);
      if i < |sessions| {
        SendOn(sessions[i], packet);
      }
    }

    method BroadcastMsg(m: Msg)
      requires Valid()
      modifies loop
      ensures Valid() && loop.log == old(loop.log) + Spec.BroadcastOuts(states, Addresses(sessions), m)
    {
      var packet := new Packet.Of(m);
      Broadcast(packet);
    }

    method SendMsgTo(id: string, m: Msg)
      requires Valid()
      modifies loop
      ensures Valid() && loop.log == old(loop.log) + Spec.SendToOuts(states, Addresses(sessions), id, m)
    {
      var packet := new Packet.Of(m);
      SendTo(id, packet);
    }

    /**
     Whatever happens next is one step of the server's run.  libuv passes the session its
     callbacks belong to, and a new session's address is not that of another one.
     */
    method Callback(ev: Spec.Event, session: Session?)
      requires Valid()
      requires ev.Accept? ==> ev.address !in states
      requires ev.On? ==> session != null && session in all && session.address == ev.address
      modifies this`sessions, this`all, this`states, this`served, loop, all
      ensures Valid() && Config() == old(Config())
      ensures var e := Spec.Step(Config(), old(State()), ev);
              && State() == e.s && loop.log == old(loop.log) + e.outs
              && served == old(served) + Spec.Served(Handlers(), e.outs)
    {
      Spec.OnlySessionsServe(Config(), Handlers(), State(), ev);
      assert served == served + [];
      match ev {
        case Accept(address, at, readOk) => var _ := OnConnection(true, address, readOk, at);
        case AcceptFailed => var _ := OnConnection(false, 0, false, 0);
        case On(address, t) => SessionCallback(session, t);
        case Broadcast(m, _) => BroadcastMsg(m);
        case SendTo(id, m, _) => SendMsgTo(id, m);
      }
    }
  }

  /** A session at a new address can be added. */
  lemma AddSession(ss: seq<Session>, s: Session)
    requires DistinctAddresses(ss) && forall t :: t in ss ==> t.address != s.address
    ensures DistinctAddresses(ss + [s])
    ensures Addresses(ss + [s]) == Addresses(ss) + [s.address]
    ensures forall t :: t in ss + [s] <==> t in ss || t == s
  {
    AddressesAppend(ss, s);
  }

  lemma DistinctMeansSame(ss: seq<Session>, session: Session)
    requires DistinctAddresses(ss) && session in ss
    ensures forall s :: s in ss && s.address == session.address ==> s == session
  {
    var i :| 0 <= i < |ss| && ss[i] == session;
    forall s | s in ss && s.address == session.address
      ensures s == session
    {
      var j :| 0 <= j < |ss| && ss[j] == s;
      assert !(i < j) && !(j < i);
    }
  }

  lemma {:induction false} AddressesAppend(ss: seq<Session>, s: Session)
    ensures Addresses(ss + [s]) == Addresses(ss) + [s.address]
  {
    if ss == [] {
      assert ss + [s] == [s];
      assert [s][1..] == [];
    } else {
      AddressesAppend(ss[1..], s);
      assert (ss + [s])[1..] == ss[1..] + [s];
    }
  }

  /** What erasing one session leaves. */
  function Others(ss: seq<Session>, session: Session): seq<Session> {
    if ss == [] then []
    else (if ss[0] == session then [] else [ss[0]]) + Others(ss[1..], session)
  }

  /** The erase-remove loop: keeps every element but one object, in order. */
  method Erase(ss: seq<Session>, session: Session) returns (kept: seq<Session>)
    ensures kept == Others(ss, session)
  {
    kept := [];
    for i := 0 to |ss|
      invariant Others(ss, session) == kept + Others(ss[i..], session)
    {
      assert ss[i..][1..] == ss[i + 1..];
      OthersFirst(kept, ss[i..], session);
      if ss[i] != session {
        kept := kept + [ss[i]];
      }
    }
    assert ss[|ss|..] == [];
  }

  lemma OthersFirst(kept: seq<Session>, ss: seq<Session>, session: Session)
    requires ss != []
    ensures kept + Others(ss, session) == (if ss[0] == session then kept else kept + [ss[0]]) + Others(ss[1..], session)
  {
    var rest := Others(ss[1..], session);
    if ss[0] == session {
      assert Others(ss, session) == rest;
    } else {
      assert Others(ss, session) == [ss[0]] + rest;
      assert kept + ([ss[0]] + rest) == kept + [ss[0]] + rest;
    }
  }

  lemma {:induction false} OthersAddresses(ss: seq<Session>, session: Session)
    requires forall s :: s in ss && s.address == session.address ==> s == session
    ensures Addresses(Others(ss, session)) == Spec.Without(Addresses(ss), session.address)
  {
    if ss != [] {
      var rest := Others(ss[1..], session);
      OthersAddresses(ss[1..], session);
      assert Addresses(ss)[0] == ss[0].address && Addresses(ss)[1..] == Addresses(ss[1..]);
      assert ss[0] in ss;
      var without := Spec.Without(Addresses(ss[1..]), session.address);
      if ss[0] == session {
        assert Others(ss, session) == rest;
        assert [] + without == without;
      } else {
        assert Others(ss, session) == [ss[0]] + rest;
        assert ([ss[0]] + rest)[1..] == rest;
        assert Addresses([ss[0]] + rest) == [ss[0].address] + Addresses(rest);
      }
    }
  }

  lemma {:induction false} OthersAmong(ss: seq<Session>, session: Session)
    ensures forall i :: 0 <= i < |Others(ss, session)| ==> Others(ss, session)[i] in ss
  {
    if ss != [] {
      var rest := Others(ss[1..], session);
      OthersAmong(ss[1..], session);
      var r := Others(ss, session);
      forall i | 0 <= i < |r|
        ensures r[i] in ss
      {
        if ss[0] == session {
          assert r[i] == rest[i] && rest[i] in ss[1..];
        } else if i > 0 {
          assert r[i] == rest[i - 1] && rest[i - 1] in ss[1..];
        }
      }
    }
  }

  lemma {:induction false} OthersDistinct(ss: seq<Session>, session: Session)
    requires DistinctAddresses(ss)
    ensures DistinctAddresses(Others(ss, session))
  {
    if ss != [] {
      var rest := Others(ss[1..], session);
      OthersDistinct(ss[1..], session);
      OthersAmong(ss[1..], session);
      if ss[0] == session {
        assert Others(ss, session) == rest;
      } else {
        assert Others(ss, session) == [ss[0]] + rest;
        forall i | 0 <= i < |rest|
          ensures rest[i].address != ss[0].address
        {
          assert rest[i] in ss[1..];
          var j :| 0 <= j < |ss| - 1 && ss[1..][j] == rest[i];
          assert ss[j + 1] == rest[i];
        }
      }
    }
  }

  /** The write of one session in a broadcast, or none if it is closing. */
  function OneWrite(states: map<nat, SessionSpec.State>, a: nat, m: Msg): seq<(nat, Out)>
    requires a in states
    ensures OneWrite(states, a, m) == Tag(a, SessionSpec.Send(states[a], m).outs)
  {
    assert Tag(a, [Write(m)]) == [(a, Write(m))] && Tag(a, []) == [];
    if Spec.Open(states, a) then [(a, Write(m))] else []
  }

  /** The first session with an id is at `i`, or there is none and `i` is the end. */
  predicate FirstWithId(ss: seq<Session>, id: string, i: nat) {
    && i <= |ss| && (forall j :: 0 <= j < i ==> ss[j].Id() != id)
    && (i < |ss| ==> ss[i].Id() == id)
  }

  /** A targeted send writes there and nowhere else. */
  lemma {:induction false} SendToFound(states: map<nat, SessionSpec.State>, ss: seq<Session>, id: string, m: Msg, i: nat)
    requires FirstWithId(ss, id, i) && forall s :: s in ss ==> s.address in states
    ensures Spec.SendToOuts(states, Addresses(ss), id, m) == if i < |ss| then OneWrite(states, ss[i].address, m) else []
  {
    if ss != [] {
      assert ss[0] in ss && Addresses(ss)[1..] == Addresses(ss[1..]);
      if i > 0 {
        SendToFound(states, ss[1..], id, m, i - 1);
      }
    }
  }

  lemma BroadcastFirst(states: map<nat, SessionSpec.State>, ss: seq<Session>, m: Msg)
    requires ss != [] && ss[0].address in states
    ensures Spec.BroadcastOuts(states, Addresses(ss), m) ==
              OneWrite(states, ss[0].address, m) + Spec.BroadcastOuts(states, Addresses(ss[1..]), m)
  {
    assert Addresses(ss)[1..] == Addresses(ss[1..]);
  }
}
