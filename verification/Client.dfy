/** The client object (src/client.cpp), proved against ClientSpec. */
module Clients {
  import opened Message
  import opened Framing
  import opened Dispatch
  import opened Timing
  import opened Sessions
  import Spec = ClientSpec

  class Client {
    const loop: Loop
    const address: nat
    const order: ByteOrder
    const behave: Behaviour

    var packetHandlers: map<byte, nat>
    var defaultHandler: Option<nat>
    var interceptors: map<byte, Interceptor>
    var connectHandlerSet: bool
    var disconnectHandlerSet: bool

    var buffer: seq<byte>
    var isConnected: bool
    var isConnecting: bool
    var lastHeartbeatTime: int

    // What libuv and the thread library know.
    var socketClosing: bool
    var timerArmed: bool
    var loopRunning: bool

    function State(): Spec.State
      reads this
    {
      Spec.State(buffer, isConnected, isConnecting, timerArmed, lastHeartbeatTime, socketClosing, loopRunning)
    }

    function Config(): Spec.Config
      reads this
    {
      Spec.Config(order, Routes(packetHandlers, defaultHandler, interceptors), behave, connectHandlerSet, disconnectHandlerSet)
    }

    constructor (loop: Loop, address: nat, order: ByteOrder, behave: Behaviour)
      ensures this.loop == loop && this.address == address && this.order == order && this.behave == behave
      ensures State() == Spec.NEW_CLIENT
      ensures !isConnected && !isConnecting && !timerArmed && !socketClosing && !loopRunning && buffer == []
      ensures Config() == Spec.Config(order, Routes(map[], None, map[]), behave, false, false)
    {
      this.loop, this.address, this.order, this.behave := loop, address, order, behave;
      packetHandlers, defaultHandler, interceptors := map[], None, map[];
      connectHandlerSet, disconnectHandlerSet := false, false;
      buffer, isConnected, isConnecting, lastHeartbeatTime := [], false, false, 0;
      socketClosing, timerArmed, loopRunning := false, false, false;
    }

    method InitSocket(active: bool, initOk: bool) returns (ok: bool)
      modifies this`socketClosing, loop
      ensures var (t, outs, ready) := Spec.InitSocket(old(State()), active, initOk);
              State() == t && loop.log == old(loop.log) + Tag(address, outs) && ok == ready
    {
      if active {
        if !socketClosing {
          socketClosing := true;
          loop.Emit(address, UvCloseQuietly);
        }
        return false;
      }
      if !initOk {
        return false;
      }
      socketClosing := false;
      return true;
    }

    method Connect(active: bool, initOk: bool, connectOk: bool) returns (ok: bool)
      modifies this`socketClosing, this`isConnecting, loop
      ensures var e := Spec.Connect(old(State()), active, initOk, connectOk);
              State() == e.s && loop.log == old(loop.log) + Tag(address, e.outs)
      ensures ok <==> !old(isConnected) && !old(isConnecting) && !active && initOk && connectOk
    {
      if isConnected || isConnecting {
        return false;
      }
      var ready := InitSocket(active, initOk);
      if !ready {
        return false;
      }
      if !connectOk {
        isConnecting := false;
        return false;
      }
      isConnecting := true;
      return true;
    }

    method Disconnect()
      modifies this`isConnected, this`isConnecting, this`timerArmed, this`socketClosing, loop
      ensures var e := Spec.Disconnect(old(State()));
              State() == e.s && loop.log == old(loop.log) + Tag(address, e.outs)
    {
      if !isConnected && !isConnecting {
        return;
      }
      if !socketClosing {
        socketClosing := true;
        loop.Emit(address, UvClose);
      }
      isConnected := false;
      isConnecting := false;
      timerArmed := false;
    }

    method Send(packet: Packet, pad: Padding) returns (bytes: seq<byte>)
      modifies loop
      ensures loop.log == old(loop.log) + Tag(address, Spec.Send(State(), packet.Value()).outs)
      ensures bytes == if isConnected then Encode(order, pad, packet.Value()) else []
    {
      if !isConnected {
        return [];
      }
      bytes := packet.Serialize(order, pad);
      loop.Emit(address, Write(packet.Value()));
    }

    method SendMsg(m: Msg)
      modifies loop
      ensures loop.log == old(loop.log) + Tag(address, Spec.Send(State(), m).outs)
    {
      var packet := new Packet.Of(m);
      var pad: Padding := *;
      var _ := Send(packet, pad);
    }

    /** Sends an application value through the interceptor of its type; without one, nothing happens. */
    method SendData(kind: byte, value: nat)
      modifies loop
      ensures var m := DataPacket(Config().routes, kind, value);
              loop.log == old(loop.log) + Tag(address, if m.None? then [] else Spec.Send(State(), m.value).outs)
    {
      if kind in interceptors {
        SendMsg(Msg(kind, interceptors[kind].encode(value), 0));
      }
    }

    method OnConnect(now: int, success: bool, readOk: bool)
      modifies this`isConnected, this`isConnecting, this`timerArmed, this`socketClosing, this`lastHeartbeatTime, loop
      ensures var e := Spec.OnConnect(Config(), old(State()), now, success, readOk);
              State() == e.s && loop.log == old(loop.log) + Tag(address, e.outs)
    {
      if !success {
        isConnecting := false;
        return;
      }
      if !readOk {
        isConnecting := false;
        Disconnect();
        return;
      }
      isConnected := true;
      isConnecting := false;
      lastHeartbeatTime := now;
      timerArmed := true;
      loop.Emit(address, Connected(connectHandlerSet));
    }

    method OnClose()
      modifies this`isConnected, this`isConnecting, this`timerArmed, loop
      ensures var e := Spec.OnClose(Config(), old(State()));
              State() == e.s && loop.log == old(loop.log) + Tag(address, e.outs)
    {
      isConnected := false;
      isConnecting := false;
      timerArmed := false;
      loop.Emit(address, Closed(disconnectHandlerSet));
    }

    method OnHeartbeatTimer(now: int)
      modifies this`isConnected, this`isConnecting, this`timerArmed, this`socketClosing, loop
      ensures var e := Spec.OnTimer(old(State()), now);
              State() == e.s && loop.log == old(loop.log) + Tag(address, e.outs)
    {
      if ElapsedMs(lastHeartbeatTime, now) > HEARTBEAT_TIMEOUT_MS {
        Disconnect();
        return;
      }
      SendMsg(Msg(HEARTBEAT, [], 0));
    }

    /** What a packet handler does to the client while it runs. */
    method React(acts: seq<Action>)
      modifies this`isConnected, this`isConnecting, this`timerArmed, this`socketClosing, loop
      ensures var e := Spec.React(old(State()), acts);
              State() == e.s && loop.log == old(loop.log) + Tag(address, e.outs)
      decreases |acts|
    {
      if acts != [] {
        ghost var e := Spec.Act(State(), acts[0]);
        LogAppend(loop.log, address, e.outs, Spec.React(e.s, acts[1..]).outs);
        match acts[0] {
          case Reply(m) =>
            SendMsg(m);
          case HangUp => Disconnect();
        }
        React(acts[1..]);
      }
    }

    method CallHandler(handler: nat, m: Msg)
      modifies this`isConnected, this`isConnecting, this`timerArmed, this`socketClosing, loop
      ensures var e := Spec.React(old(State()), behave(handler, m));
              State() == e.s && loop.log == old(loop.log) + Tag(address, [Call(handler, m)] + e.outs)
    {
      LogAppend(loop.log, address, [Call(handler, m)], Spec.React(State(), behave(handler, m)).outs);
      loop.Emit(address, Call(handler, m));
      React(behave(handler, m));
    }

    /** The part of the receive loop between decoding a packet and erasing its frame. */
    method HandlePacket(packet: Packet)
      modifies this`isConnected, this`isConnecting, this`timerArmed, this`socketClosing, loop
      ensures var e := Spec.Handle(Config(), old(State()), old(packet.Value()));
              State() == e.s && loop.log == old(loop.log) + Tag(address, e.outs)
    {
      var m := packet.Value();
      if m.kind in interceptors {
        var data := interceptors[m.kind].decode(m.data);
        if data.Some? {
          if m.kind in packetHandlers {
            CallHandler(packetHandlers[m.kind], m);
          } else if defaultHandler.Some? {
            CallHandler(defaultHandler.value, m);
          }
        }
      } else {
        if m.kind in packetHandlers {
          CallHandler(packetHandlers[m.kind], m);
        } else if defaultHandler.Some? {
          CallHandler(defaultHandler.value, m);
        }
      }
    }

    /** One round of the loop on a complete frame: parse it, handle it, erase it, or clear everything. */
    method TakeFront(messageSize: nat) returns (ok: bool)
      requires !Idle(order, buffer) && messageSize == FrameSize(order, buffer)
      modifies this`isConnected, this`isConnecting, this`timerArmed, this`socketClosing, this`buffer, loop
      ensures ok <==> old(buffer)[0] == PROTOCOL_VERSION
      ensures var e := if ok then Spec.Consume(Config(), old(State())) else Spec.Effect(old(State()).(buffer := []), []);
              State() == e.s && loop.log == old(loop.log) + Tag(address, e.outs)
    {
      var packet;
      packet, ok := ParseFront(order, buffer);
      if !ok {
        buffer := [];
        return;
      }
      HandlePacket(packet);
      buffer := buffer[messageSize..];
    }

    /** The client's receive loop: the size is taken once, before the packet is handled. */
    method ProcessBuffer()
      modifies this`isConnected, this`isConnecting, this`timerArmed, this`socketClosing, this`buffer, loop
      ensures var e := Spec.Process(Config(), old(State()));
              State() == e.s && loop.log == old(loop.log) + Tag(address, e.outs)
    {
      ghost var c, cur, outs, log := Config(), State(), [], loop.log;
      ghost var whole := Spec.Process(c, cur);
      while |buffer| >= HEADER_SIZE
        invariant State() == cur && Config() == c
        invariant Spec.Pending(c, whole, cur, outs)
        invariant loop.log == log + Tag(address, outs)
        decreases |buffer|
      {
        Spec.PendingDone(c, whole, cur, outs);
        var messageSize := HEADER_SIZE + LengthField(order, buffer);
        if |buffer| < messageSize {
          return;
        }
        var ok := TakeFront(messageSize);
        if !ok {
          return;
        }
        ghost var e := Spec.Consume(c, cur);
        Spec.PendingStep(c, whole, cur, outs);
        LogAppend(log, address, outs, e.outs);
        cur, outs := e.s, outs + e.outs;
      }
      Spec.PendingDone(c, whole, cur, outs);
    }

    method AppendToBuffer(data: seq<byte>)
      modifies this`isConnected, this`isConnecting, this`timerArmed, this`socketClosing, this`buffer, loop
      ensures var e := Spec.Append(Config(), old(State()), data);
              State() == e.s && loop.log == old(loop.log) + Tag(address, e.outs)
    {
      buffer := buffer + data;
      ProcessBuffer();
    }

    method StartLoop() returns (ok: bool)
      modifies this`loopRunning
      ensures loopRunning && ok == !old(loopRunning)
    {
      ok := !loopRunning;
      loopRunning := true;
    }

    method StopLoop()
      modifies this`loopRunning, this`timerArmed
      ensures State() == Spec.Step(Config(), old(State()), Timed(0, Spec.StopLoop)).s
    {
      if !loopRunning {
        return;
      }
      loopRunning := false;
      timerArmed := false;
    }

    /** `on_read`: bytes, nothing, or an error. */
    method OnRead(chunk: Option<seq<byte>>)
      modifies this`isConnected, this`isConnecting, this`timerArmed, this`socketClosing, this`buffer, loop
      ensures var e := Spec.Step(Config(), old(State()), Timed(0, if chunk.Some? then Spec.Read(chunk.value) else Spec.ReadFailed));
              State() == e.s && loop.log == old(loop.log) + Tag(address, e.outs)
    {
      if chunk.None? {
        Disconnect();
      } else if |chunk.value| > 0 {
        AppendToBuffer(chunk.value);
      }
    }

    /** A callback libuv makes: a read, a write, a connection, a close or the timer. */
    method LibuvCallback(t: Spec.Moment)
      requires Spec.FromLibuv(t.event)
      modifies this`isConnected, this`isConnecting, this`timerArmed, this`socketClosing, this`lastHeartbeatTime, this`buffer, loop
      ensures var e := Spec.Step(Config(), old(State()), t);
              State() == e.s && loop.log == old(loop.log) + Tag(address, e.outs)
    {
      match t.event {
        case Read(chunk) => OnRead(Some(chunk));
        case ReadFailed => OnRead(None);
        case WriteDone(ok) =>
          if !ok {
            Disconnect();
          }
        case CloseDone => OnClose();
        case Tick =>
          if timerArmed {
            OnHeartbeatTimer(t.at);
          }
        case ConnectDone(success, readOk) => OnConnect(t.at, success, readOk);
      }
    }

    /** A call the application makes. */
    method PublicCall(t: Spec.Moment)
      requires !Spec.FromLibuv(t.event)
      modifies this`isConnected, this`isConnecting, this`timerArmed, this`socketClosing, this`loopRunning, loop
      ensures var e := Spec.Step(Config(), old(State()), t);
              State() == e.s && loop.log == old(loop.log) + Tag(address, e.outs)
    {
      match t.event {
        case SendCall(m) => SendMsg(m);
        case ConnectCall(active, initOk, connectOk) => var _ := Connect(active, initOk, connectOk);
        case DisconnectCall => Disconnect();
        case StartLoop => var _ := StartLoop();
        case StopLoop => StopLoop();
      }
    }

    /** Whatever happens next is one step of the client's run. */
    method Callback(t: Spec.Moment)
      modifies this, loop
      ensures Config() == old(Config())
      ensures var e := Spec.Step(Config(), old(State()), t);
              State() == e.s && loop.log == old(loop.log) + Tag(address, e.outs)
    {
      if Spec.FromLibuv(t.event) {
        LibuvCallback(t);
      } else {
        PublicCall(t);
      }
    }
  }
}
