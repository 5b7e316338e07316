/**
 Handlers, interceptors and the observable effects of a connection
 (include/libuv_net/message.hpp:159-203, src/session.cpp:275-315).
 */
module Dispatch {
  import opened Message

  datatype Option<+T> = None | Some(value: T)

  /** An interceptor converts application values to bodies; decoding may yield no value. */
  datatype Interceptor = Interceptor(encode: nat -> seq<byte>, decode: seq<byte> -> Option<nat>)

  /** The callbacks registered on one connection; a callback is known by its number. */
  datatype Routes = Routes(handlers: map<byte, nat>, fallback: Option<nat>, interceptors: map<byte, Interceptor>)

  /** What a packet handler may do to its connection before it returns. */
  datatype Action = Reply(m: Msg) | HangUp

  type Behaviour = (nat, Msg) -> seq<Action>

  /**
   One observable effect: a `uv_write`; a `uv_close` with a callback or without; a call of a
   packet handler; and the moments at which a close handler, a connect handler or the server's
   close handler is called (`notified`) or would be if one were set.
   */
  datatype Out =
    | Write(m: Msg) | UvClose | UvCloseQuietly | Call(handler: nat, m: Msg)
    | Closed(notified: bool) | Connected(notified: bool) | Forgotten(notified: bool)

  function One(b: bool): nat {
    if b then 1 else 0
  }

  /** How often `x` occurs. */
  function Count<T(==)>(xs: seq<T>, x: T): nat {
    if xs == [] then 0 else One(xs[0] == x) + Count(xs[1..], x)
  }

  lemma {:induction false} CountAppend<T>(a: seq<T>, b: seq<T>, x: T)
    ensures Count(a + b, x) == Count(a, x) + Count(b, x)
  {
    if a == [] {
      assert a + b == b;
    } else {
      CountAppend(a[1..], b, x);
      assert (a + b)[1..] == a[1..] + b;
    }
  }

  lemma CountSingle<T>(y: T, x: T)
    ensures Count([y], x) == One(y == x)
  {
    assert [y][1..] == [];
  }

  function Lookup(handlers: map<byte, nat>, fallback: Option<nat>, kind: byte): Option<nat> {
    if kind in handlers then Some(handlers[kind]) else fallback
  }

  /** An interceptor registered for the type must find a value in the body. */
  predicate Passes(interceptors: map<byte, Interceptor>, m: Msg) {
    m.kind in interceptors ==> interceptors[m.kind].decode(m.data).Some?
  }

  /** The handler a decoded packet reaches, as in the two nested look-ups of the source. */
  function Route(r: Routes, m: Msg): Option<nat> {
    if m.kind in r.interceptors then
      if r.interceptors[m.kind].decode(m.data).Some? then Lookup(r.handlers, r.fallback, m.kind) else None
    else Lookup(r.handlers, r.fallback, m.kind)
  }

  /** A session keeps HEARTBEAT packets to itself. */
  function SessionRoute(r: Routes, m: Msg): Option<nat> {
    if m.kind == HEARTBEAT then None else Route(r, m)
  }

  function SessionRouter(r: Routes): Msg -> Option<nat> {
    m => SessionRoute(r, m)
  }

  function ClientRouter(r: Routes): Msg -> Option<nat> {
    m => Route(r, m)
  }

  /** The handler calls among some effects, in order. */
  function Calls(outs: seq<Out>): seq<(nat, Msg)> {
    if outs == [] then []
    else if outs[0].Call? then [(outs[0].handler, outs[0].m)] + Calls(outs[1..])
    else Calls(outs[1..])
  }

  /** The handler calls a list of packets asks for, in order. */
  function Deliver(route: Msg -> Option<nat>, msgs: seq<Msg>): seq<(nat, Msg)> {
    if msgs == [] then [] else DeliverOne(route(msgs[0]), msgs[0]) + Deliver(route, msgs[1..])
  }

  function DeliverOne(handler: Option<nat>, m: Msg): seq<(nat, Msg)> {
    if handler.Some? then [(handler.value, m)] else []
  }

  lemma {:induction false} CallsAppend(a: seq<Out>, b: seq<Out>)
    ensures Calls(a + b) == Calls(a) + Calls(b)
  {
    if a == [] {
      assert a + b == b;
    } else {
      CallsAppend(a[1..], b);
      assert (a + b)[1..] == a[1..] + b;
      if a[0].Call? {
        Assoc([(a[0].handler, a[0].m)], Calls(a[1..]), Calls(b));
      }
    }
  }

  lemma {:induction false} DeliverAppend(route: Msg -> Option<nat>, a: seq<Msg>, b: seq<Msg>)
    ensures Deliver(route, a + b) == Deliver(route, a) + Deliver(route, b)
  {
    if a == [] {
      assert a + b == b;
    } else {
      DeliverAppend(route, a[1..], b);
      assert (a + b)[1..] == a[1..] + b && (a + b)[0] == a[0];
      Assoc(DeliverOne(route(a[0]), a[0]), Deliver(route, a[1..]), Deliver(route, b));
    }
  }

  /** The packets written among some effects, in order. */
  function Written(outs: seq<Out>): seq<Msg> {
    if outs == [] then [] else (if outs[0].Write? then [outs[0].m] else []) + Written(outs[1..])
  }

  lemma {:induction false} WrittenAppend(a: seq<Out>, b: seq<Out>)
    ensures Written(a + b) == Written(a) + Written(b)
  {
    if a == [] {
      assert a + b == b;
    } else {
      WrittenAppend(a[1..], b);
      assert (a + b)[1..] == a[1..] + b;
      Assoc(if a[0].Write? then [a[0].m] else [], Written(a[1..]), Written(b));
    }
  }

  // ----- Which handler gets a packet -----

  /** A handler registered for the type goes before the default one. */
  ghost predicate Chosen(handlers: map<byte, nat>, fallback: Option<nat>, call: (nat, Msg)) {
    if call.1.kind in handlers then call.0 == handlers[call.1.kind] else fallback == Some(call.0)
  }

  /** An unknown packet type with no default handler reaches nobody. */
  predicate Handled(handlers: map<byte, nat>, fallback: Option<nat>, m: Msg) {
    m.kind in handlers || fallback.Some?
  }

  /**
   The two nested look-ups: a packet its interceptor rejects reaches no handler; any other one
   reaches the handler of its type, and the default handler only if there is none.
   */
  lemma RouteExact(r: Routes, m: Msg)
    ensures !Passes(r.interceptors, m) ==> Route(r, m) == None
    ensures Passes(r.interceptors, m) && m.kind in r.handlers ==> Route(r, m) == Some(r.handlers[m.kind])
    ensures Passes(r.interceptors, m) && m.kind !in r.handlers ==> Route(r, m) == r.fallback
  {
  }

  /** The packets of a list that reach a handler, in order; a session keeps HEARTBEATs to itself. */
  function Picked(r: Routes, ofSession: bool, msgs: seq<Msg>): seq<Msg> {
    if msgs == [] then []
    else
      var m := msgs[0];
      (if Passes(r.interceptors, m) && Handled(r.handlers, r.fallback, m) && !(ofSession && m.kind == HEARTBEAT) then [m] else [])
      + Picked(r, ofSession, msgs[1..])
  }

  /** The calls are one for each packet, in order, each of the handler it is meant for. */
  ghost predicate Follow(handlers: map<byte, nat>, fallback: Option<nat>, calls: seq<(nat, Msg)>, msgs: seq<Msg>) {
    && |calls| == |msgs|
    && forall i :: 0 <= i < |calls| ==> calls[i].1 == msgs[i] && Chosen(handlers, fallback, calls[i])
  }

  lemma {:induction false} DeliverFollows(r: Routes, ofSession: bool, msgs: seq<Msg>)
    ensures Follow(r.handlers, r.fallback, Deliver(if ofSession then SessionRouter(r) else ClientRouter(r), msgs),
                   Picked(r, ofSession, msgs))
  {
    if msgs != [] {
      DeliverFollows(r, ofSession, msgs[1..]);
      RouteExact(r, msgs[0]);
    }
  }

  // ----- What handlers do -----

  /** Everything the handlers called do to their connection, in order. */
  function Acts(behave: Behaviour, calls: seq<(nat, Msg)>): seq<Action> {
    if calls == [] then [] else behave(calls[0].0, calls[0].1) + Acts(behave, calls[1..])
  }

  /** The replies before the first hang-up. */
  function Replies(acts: seq<Action>): seq<Msg> {
    if acts == [] || acts[0].HangUp? then [] else [acts[0].m] + Replies(acts[1..])
  }

  predicate HangsUp(acts: seq<Action>) {
    acts != [] && (acts[0].HangUp? || HangsUp(acts[1..]))
  }

  lemma {:induction false} RepliesAppend(a: seq<Action>, b: seq<Action>)
    ensures Replies(a + b) == Replies(a) + if HangsUp(a) then [] else Replies(b)
    ensures HangsUp(a + b) <==> HangsUp(a) || HangsUp(b)
  {
    if a == [] {
      assert a + b == b;
    } else {
      RepliesAppend(a[1..], b);
      assert (a + b)[0] == a[0] && (a + b)[1..] == a[1..] + b;
      if a[0].Reply? {
        Assoc([a[0].m], Replies(a[1..]), if HangsUp(a[1..]) then [] else Replies(b));
      }
    }
  }

  lemma WrittenSingle(o: Out)
    ensures Written([o]) == if o.Write? then [o.m] else []
  {
    assert [o][1..] == [];
  }

  lemma {:induction false} ActsAppend(behave: Behaviour, a: seq<(nat, Msg)>, b: seq<(nat, Msg)>)
    ensures Acts(behave, a + b) == Acts(behave, a) + Acts(behave, b)
  {
    if a == [] {
      assert a + b == b;
    } else {
      ActsAppend(behave, a[1..], b);
      assert (a + b)[1..] == a[1..] + b;
      Assoc(behave(a[0].0, a[0].1), Acts(behave, a[1..]), Acts(behave, b));
    }
  }

  lemma OneAct(behave: Behaviour, call: (nat, Msg))
    ensures Acts(behave, [call]) == behave(call.0, call.1)
  {
    assert [call][1..] == [];
    assert behave(call.0, call.1) + [] == behave(call.0, call.1);
  }

  // ----- Application values -----

  /** The packet `send_data` builds: nothing at all without an interceptor for the type (include/libuv_net/session.hpp:84-93). */
  function DataPacket(r: Routes, kind: byte, value: nat): Option<Msg> {
    if kind in r.interceptors then Some(Msg(kind, r.interceptors[kind].encode(value), 0)) else None
  }

  /**
   Sending a value through an interceptor that can read what it writes: without an interceptor
   for the type nothing is sent, and otherwise what is sent carries the value to a receiver
   with the same interceptors and is routed like any packet of that type there.
   */
  lemma DataArrives(r: Routes, kind: byte, value: nat)
    requires kind in r.interceptors ==> r.interceptors[kind].decode(r.interceptors[kind].encode(value)) == Some(value)
    ensures DataPacket(r, kind, value).None? <==> kind !in r.interceptors
    ensures kind in r.interceptors ==>
              var m := DataPacket(r, kind, value).value;
              && m.kind == kind && m.sequence == 0 && r.interceptors[kind].decode(m.data) == Some(value)
              && Route(r, m) == if kind in r.handlers then Some(r.handlers[kind]) else r.fallback
  {
  }

  /** The loop all connections share: every effect, tagged with its session's address, in order. */
  class Loop {
    var log: seq<(nat, Out)>

    constructor ()
      ensures log == []
    {
      log := [];
    }

    method Emit(address: nat, out: Out)
      modifies this
      ensures log == old(log) + [(address, out)]
    {
      log := log + [(address, out)];
    }
  }

  function Tag(address: nat, outs: seq<Out>): seq<(nat, Out)> {
    seq(|outs|, i requires 0 <= i < |outs| => (address, outs[i]))
  }

  lemma LogAppend(log: seq<(nat, Out)>, address: nat, a: seq<Out>, b: seq<Out>)
    ensures log + Tag(address, a) + Tag(address, b) == log + Tag(address, a + b)
  {
    assert Tag(address, a + b) == Tag(address, a) + Tag(address, b);
  }
}
