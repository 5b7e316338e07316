/** The session object (src/session.cpp, include/libuv_net/session.hpp), proved against SessionSpec. */
module Sessions {
  import opened Message
  import opened Framing
  import opened Dispatch
  import opened SessionIds
  import opened Timing
  import Spec = SessionSpec

  /** Builds the packet of the complete frame at the front; inside the loops only a bad version can fail. */
  method ParseFront(order: ByteOrder, buffer: seq<byte>) returns (packet: Packet, ok: bool)
    requires !Idle(order, buffer)
    ensures fresh(packet)
    ensures ok <==> buffer[0] == PROTOCOL_VERSION
    ensures packet.Value() == if ok then Decode(order, buffer) else DEFAULT_MSG
  {
    packet := new Packet();
    var frame := buffer[..HEADER_SIZE + LengthField(order, buffer)];
    assert LengthField(order, frame) == LengthField(order, buffer);
    ok := packet.Deserialize(order, frame);
  }

  class Session {
    const loop: Loop
    const address: nat
    const order: ByteOrder
    const behave: Behaviour

    var packetHandlers: map<byte, nat>
    var defaultHandler: Option<nat>
    var interceptors: map<byte, Interceptor>
    var closeHandlerSet: bool

    var readBuffer: seq<byte>
    var isClosing: bool
    var lastHeartbeatTime: int

    // What libuv knows about the handles.
    var socketClosing: bool
    var owedCloses: nat
    var timerArmed: bool
    var reading: bool

    function State(): Spec.State
      reads this
    {
      Spec.State(readBuffer, isClosing, socketClosing, owedCloses, lastHeartbeatTime, timerArmed, reading)
    }

    function Config(): Spec.Config
      reads this
    {
      Spec.Config(order, Routes(packetHandlers, defaultHandler, interceptors), behave, closeHandlerSet)
    }

    function Id(): string {
      SessionId(address)
    }

    ghost predicate Valid()
      reads this
    {
      Spec.Linked(State())
    }

    constructor (loop: Loop, address: nat, order: ByteOrder, behave: Behaviour)
      ensures this.loop == loop && this.address == address && this.order == order && this.behave == behave
      ensures State() == Spec.NEW_SESSION && Valid()
      ensures !isClosing && !socketClosing && owedCloses == 0 && !timerArmed && !reading && readBuffer == []
      ensures Config() == Spec.Config(order, Routes(map[], None, map[]), behave, false)
    {
      this.loop, this.address, this.order, this.behave := loop, address, order, behave;
      packetHandlers, defaultHandler, interceptors, closeHandlerSet := map[], None, map[], false;
      readBuffer, isClosing, lastHeartbeatTime := [], false, 0;
      socketClosing, owedCloses, timerArmed, reading := false, 0, false, false;
    }

    method SetPacketHandler(kind: byte, handler: nat)
      modifies this`packetHandlers
      ensures packetHandlers == old(packetHandlers)[kind := handler]
    {
      packetHandlers := packetHandlers[kind := handler];
    }

    method SetDefaultPacketHandler(handler: nat)
      modifies this`defaultHandler
      ensures defaultHandler == Some(handler)
    {
      defaultHandler := Some(handler);
    }

    method AddInterceptor(kind: byte, interceptor: Interceptor)
      modifies this`interceptors
      ensures interceptors == old(interceptors)[kind := interceptor]
    {
      interceptors := interceptors[kind := interceptor];
    }

    method SetCloseHandler()
      modifies this`closeHandlerSet
      ensures closeHandlerSet
    {
      closeHandlerSet := true;
    }

    method Close()
      modifies this`isClosing, this`socketClosing, this`owedCloses, loop
      ensures var e := Spec.Close(old(State()));
              State() == e.s && loop.log == old(loop.log) + Tag(address, e.outs)
    {
      if !isClosing && !socketClosing {
        isClosing := true;
        socketClosing, owedCloses := true, owedCloses + 1;
        loop.Emit(address, UvClose);
      }
    }

    /** Serialises the packet and hands the bytes to `uv_write`, unless the session is closing. */
    method Send(packet: Packet, pad: Padding) returns (bytes: seq<byte>)
      modifies loop
      ensures loop.log == old(loop.log) + Tag(address, Spec.Send(State(), packet.Value()).outs)
      ensures bytes == if isClosing then [] else Encode(order, pad, packet.Value())
    {
      if isClosing {
        return [];
      }
      bytes := packet.Serialize(order, pad);
      loop.Emit(address, Write(packet.Value()));
    }

    /** Builds a packet and sends it. */
    method SendMsg(m: Msg)
      modifies loop
      ensures loop.log == old(loop.log) + Tag(address, Spec.Send(State(), m).outs)
    {
      var packet := new Packet.Of(m);
      var pad: Padding := *;
      var _ := Send(packet, pad);
    }

    /** Sends an application value through the interceptor of its type; without one, nothing happens. */
    method SendData(kind: byte, value: nat)
      modifies loop
      ensures var m := DataPacket(Config().routes, kind, value);
              loop.log == old(loop.log) + Tag(address, if m.None? then [] else Spec.Send(State(), m.value).outs)
    {
      if kind in interceptors {
        SendMsg(Msg(kind, interceptors[kind].encode(value), 0));
      }
    }

    /** What a packet handler does to the session while it runs. */
    method React(acts: seq<Action>)
      requires Valid()
      modifies this`isClosing, this`socketClosing, this`owedCloses, loop
      ensures var e := Spec.React(old(State()), acts);
              State() == e.s && loop.log == old(loop.log) + Tag(address, e.outs)
      decreases |acts|
    {
      if acts != [] {
        ghost var e := Spec.Act(State(), acts[0]);
        LogAppend(loop.log, address, e.outs, Spec.React(e.s, acts[1..]).outs);
        match acts[0] {
          case Reply(m) =>
            SendMsg(m);
          case HangUp => Close();
        }
        React(acts[1..]);
      }
    }

    method CallHandler(handler: nat, m: Msg)
      requires Valid()
      modifies this`isClosing, this`socketClosing, this`owedCloses, loop
      ensures var e := Spec.React(old(State()), behave(handler, m));
              State() == e.s && loop.log == old(loop.log) + Tag(address, [Call(handler, m)] + e.outs)
    {
      LogAppend(loop.log, address, [Call(handler, m)], Spec.React(State(), behave(handler, m)).outs);
      loop.Emit(address, Call(handler, m));
      React(behave(handler, m));
    }

    method HandlePacket(packet: Packet, now: int)
      requires Valid()
      modifies this`isClosing, this`socketClosing, this`owedCloses, this`lastHeartbeatTime, loop
      ensures var e := Spec.Handle(Config(), old(State()), now, old(packet.Value()));
              State() == e.s && loop.log == old(loop.log) + Tag(address, e.outs)
    {
      var m := packet.Value();
      if m.kind == HEARTBEAT {
        lastHeartbeatTime := now;
        return;
      }
      if m.kind in interceptors {
        var data := interceptors[m.kind].decode(m.data);
        if data.Some? {
          if m.kind in packetHandlers {
            CallHandler(packetHandlers[m.kind], m);
          } else if defaultHandler.Some? {
            CallHandler(defaultHandler.value, m);
          }
        }
        return;
      }
      if m.kind in packetHandlers {
        CallHandler(packetHandlers[m.kind], m);
      } else if defaultHandler.Some? {
        CallHandler(defaultHandler.value, m);
      }
    }

    /** One round of the loop on a complete frame: parse it, handle it, erase it by its length read again, or clear everything. */
    method TakeFront(now: int) returns (ok: bool)
      requires Valid() && !Idle(order, readBuffer)
      modifies this`isClosing, this`socketClosing, this`owedCloses, this`lastHeartbeatTime, this`readBuffer, loop
      ensures ok <==> old(readBuffer)[0] == PROTOCOL_VERSION
      ensures var e := if ok then Spec.Consume(Config(), old(State()), now) else Spec.Effect(old(State()).(buffer := []), []);
              State() == e.s && loop.log == old(loop.log) + Tag(address, e.outs)
    {
      var packet;
      packet, ok := ParseFront(order, readBuffer);
      if !ok {
        readBuffer := [];
        return;
      }
      HandlePacket(packet, now);
      readBuffer := readBuffer[HEADER_SIZE + LengthField(order, readBuffer)..];
    }

    /** The receive loop: erases each complete frame in place, and everything on a bad version. */
    method ProcessBuffer(now: int)
      requires Valid()
      modifies this`isClosing, this`socketClosing, this`owedCloses, this`lastHeartbeatTime, this`readBuffer, loop
      ensures Valid()
      ensures var e := Spec.Process(Config(), old(State()), now);
              State() == e.s && loop.log == old(loop.log) + Tag(address, e.outs)
    {
      ghost var c, cur, outs, log := Config(), State(), [], loop.log;
      ghost var whole := Spec.Process(c, cur, now);
      while |readBuffer| > 0
        invariant State() == cur && Spec.Linked(cur) && Config() == c
        invariant Spec.Pending(c, whole, cur, outs, now)
        invariant loop.log == log + Tag(address, outs)
        decreases |readBuffer|
      {
        Spec.PendingDone(c, whole, cur, outs, now);
        if |readBuffer| < HEADER_SIZE {
          return;
        }
        if |readBuffer| < HEADER_SIZE + LengthField(order, readBuffer) {
          return;
        }
        var ok := TakeFront(now);
        if !ok {
          return;
        }
        ghost var e := Spec.Consume(c, cur, now);
        Spec.PendingStep(c, whole, cur, outs, now);
        LogAppend(log, address, outs, e.outs);
        cur, outs := e.s, outs + e.outs;
      }
      Spec.PendingDone(c, whole, cur, outs, now);
    }

    method AppendToBuffer(data: seq<byte>, now: int)
      requires Valid()
      modifies this`isClosing, this`socketClosing, this`owedCloses, this`lastHeartbeatTime, this`readBuffer, loop
      ensures Valid()
      ensures var e := Spec.Append(Config(), old(State()), now, data);
              State() == e.s && loop.log == old(loop.log) + Tag(address, e.outs)
    {
      readBuffer := readBuffer + data;
      ProcessBuffer(now);
    }

    method StartRead(readOk: bool) returns (ok: bool)
      modifies this`reading
      ensures ok == (!isClosing && readOk)
      ensures reading == (old(reading) || ok)
    {
      if isClosing {
        return false;
      }
      reading := reading || readOk;
      ok := readOk;
    }

    /** Starting arms the timer even when reading could not start. */
    method Start(readOk: bool, now: int)
      modifies this`reading, this`lastHeartbeatTime, this`timerArmed
      ensures State() == Spec.Start(old(State()), now, readOk)
    {
      var _ := StartRead(readOk);
      lastHeartbeatTime := now;
      timerArmed := true;
    }

    method Stop()
      modifies this`reading, this`timerArmed
      ensures State() == Spec.Step(Config(), old(State()), Timed(0, Spec.StopCall)).s
    {
      reading := false;
      timerArmed := false;
    }

    method OnHeartbeatTimer(now: int)
      modifies this`isClosing, this`socketClosing, this`owedCloses, loop
      ensures var e := Spec.OnTimer(old(State()), now);
              State() == e.s && loop.log == old(loop.log) + Tag(address, e.outs)
    {
      if ElapsedMs(lastHeartbeatTime, now) > HEARTBEAT_TIMEOUT_MS {
        Close();
        return;
      }
      SendMsg(Msg(HEARTBEAT, [], 0));
    }

    method OnClose()
      modifies this`owedCloses, loop
      requires owedCloses > 0
      ensures var e := Spec.OnClose(Config(), old(State()));
              State() == e.s && loop.log == old(loop.log) + Tag(address, e.outs)
    {
      owedCloses := owedCloses - 1;
      loop.Emit(address, Closed(closeHandlerSet));
    }

    /** `on_read`: bytes, nothing, or an error. */
    method OnRead(chunk: Option<seq<byte>>, now: int)
      requires Valid()
      modifies this`isClosing, this`socketClosing, this`owedCloses, this`lastHeartbeatTime, this`readBuffer, loop
      ensures var t := Timed(now, if chunk.Some? then Spec.Read(chunk.value) else Spec.ReadFailed);
              var e := Spec.Step(Config(), old(State()), t);
              State() == e.s && loop.log == old(loop.log) + Tag(address, e.outs)
    {
      if chunk.None? {
        Close();
      } else if |chunk.value| > 0 {
        AppendToBuffer(chunk.value, now);
      }
    }

    /** A callback libuv makes: a read, a write, a close or the timer. */
    method LibuvCallback(t: Spec.Moment)
      requires Valid() && Spec.FromLibuv(t.event)
      modifies this`isClosing, this`socketClosing, this`owedCloses, this`lastHeartbeatTime, this`readBuffer, loop
      ensures var e := Spec.Step(Config(), old(State()), t);
              State() == e.s && loop.log == old(loop.log) + Tag(address, e.outs)
    {
      match t.event {
        case Read(chunk) => OnRead(Some(chunk), t.at);
        case ReadFailed => OnRead(None, t.at);
        case WriteDone(ok) =>
          if !ok {
            Close();
          }
        case CloseDone =>
          if owedCloses > 0 {
            OnClose();
          }
        case Tick =>
          if timerArmed {
            OnHeartbeatTimer(t.at);
          }
      }
    }

    /** A call the application or the server makes. */
    method PublicCall(t: Spec.Moment)
      requires Valid() && !Spec.FromLibuv(t.event)
      modifies this`isClosing, this`socketClosing, this`owedCloses, this`lastHeartbeatTime, this`timerArmed, this`reading, loop
      ensures var e := Spec.Step(Config(), old(State()), t);
              State() == e.s && loop.log == old(loop.log) + Tag(address, e.outs)
    {
      match t.event {
        case SendCall(m) => SendMsg(m);
        case CloseCall => Close();
        case StartCall(readOk) => Start(readOk, t.at);
        case StopCall => Stop();
      }
    }

    /** Whatever happens next is one step of the session's run. */
    method Callback(t: Spec.Moment)
      requires Valid()
      modifies this`isClosing, this`socketClosing, this`owedCloses, this`lastHeartbeatTime, this`readBuffer,
               this`timerArmed, this`reading, loop
      ensures Valid() && Config() == old(Config())
      ensures var e := Spec.Step(Config(), old(State()), t);
              State() == e.s && loop.log == old(loop.log) + Tag(address, e.outs)
    {
      Spec.StepSane(Config(), State(), t);
      if Spec.FromLibuv(t.event) {
        LibuvCallback(t);
      } else {
        PublicCall(t);
      }
    }
  }
}
