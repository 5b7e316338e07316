/**
 Rebuilding packets from a byte stream (src/session.cpp:231-273, src/client.cpp:286-346):
 the meaning of one pass over the receive buffer, and what it does to whole streams.
 */
module Framing {
  import opened Message

  /** The result of one pass: the decoded packets, the bytes kept, and whether a bad version cleared the buffer. */
  datatype Drained = Drained(msgs: seq<Msg>, rest: seq<byte>, bad: bool)

  /** No complete frame is waiting. */
  predicate Idle(o: ByteOrder, b: seq<byte>) {
    |b| < HEADER_SIZE || |b| < FrameSize(o, b)
  }

  function Then(msgs: seq<Msg>, d: Drained): Drained {
    d.(msgs := msgs + d.msgs)
  }

  /** One pass over a buffer.  A bad version is noticed only when its frame is complete. */
  function Drain(o: ByteOrder, b: seq<byte>): (d: Drained)
    ensures Idle(o, d.rest)
    ensures d.bad ==> d.rest == []
    ensures |d.rest| + HEADER_SIZE * |d.msgs| <= |b|
    decreases |b|
  {
    if Idle(o, b) then Drained([], b, false)
    else if b[0] != PROTOCOL_VERSION then Drained([], [], true)
    else Then([Decode(o, b)], Drain(o, b[FrameSize(o, b)..]))
  }

  lemma ThenThen(a: seq<Msg>, b: seq<Msg>, d: Drained)
    ensures Then(a, Then(b, d)) == Then(a + b, d)
  {
    assert a + (b + d.msgs) == a + b + d.msgs;
  }

  /** The loop body: a complete good frame is decoded and erased, then the pass goes on. */
  lemma DrainStep(o: ByteOrder, b: seq<byte>)
    requires !Idle(o, b) && b[0] == PROTOCOL_VERSION
    ensures Drain(o, b) == Then([Decode(o, b)], Drain(o, b[FrameSize(o, b)..]))
  {
  }

  // ----- Parsing and serialising streams are inverse -----

  /** The serialisation of a list of packets, with the padding each one happened to carry. */
  ghost function Wire(o: ByteOrder, pads: seq<Padding>, msgs: seq<Msg>): seq<byte>
    requires |pads| == |msgs|
  {
    if msgs == [] then [] else Encode(o, pads[0], msgs[0]) + Wire(o, pads[1..], msgs[1..])
  }

  predicate AllSendable(msgs: seq<Msg>) {
    forall i :: 0 <= i < |msgs| ==> Sendable(msgs[i])
  }

  /** The padding of the frames a pass consumes. */
  function Pads(o: ByteOrder, b: seq<byte>): (p: seq<Padding>)
    ensures |p| == |Drain(o, b).msgs|
    decreases |b|
  {
    if Idle(o, b) || b[0] != PROTOCOL_VERSION then []
    else [PaddingOf(b)] + Pads(o, b[FrameSize(o, b)..])
  }

  lemma {:induction false} WireAppend(o: ByteOrder, p: seq<Padding>, a: seq<Msg>, q: seq<Padding>, b: seq<Msg>)
    requires |p| == |a| && |q| == |b|
    ensures Wire(o, p + q, a + b) == Wire(o, p, a) + Wire(o, q, b)
  {
    if a == [] {
      assert p + q == q && a + b == b;
    } else {
      WireAppend(o, p[1..], a[1..], q, b);
      assert p + q == [p[0]] + (p[1..] + q) && a + b == [a[0]] + (a[1..] + b);
      WireCons(o, p[0], a[0], p[1..] + q, a[1..] + b);
      Assoc(Encode(o, p[0], a[0]), Wire(o, p[1..], a[1..]), Wire(o, q, b));
    }
  }

  lemma WireCons(o: ByteOrder, pad: Padding, m: Msg, pads: seq<Padding>, msgs: seq<Msg>)
    requires |pads| == |msgs|
    ensures Wire(o, [pad] + pads, [m] + msgs) == Encode(o, pad, m) + Wire(o, pads, msgs)
  {
    assert ([pad] + pads)[1..] == pads && ([m] + msgs)[1..] == msgs;
  }

  lemma WireFirst(o: ByteOrder, pads: seq<Padding>, msgs: seq<Msg>, tail: seq<byte>)
    requires |pads| == |msgs| > 0
    ensures Wire(o, pads, msgs) + tail == Encode(o, pads[0], msgs[0]) + (Wire(o, pads[1..], msgs[1..]) + tail)
  {
    var f, w := Encode(o, pads[0], msgs[0]), Wire(o, pads[1..], msgs[1..]);
    assert Wire(o, pads, msgs) == f + w;
    Assoc(f, w, tail);
  }

  lemma SplitEqual(f: seq<byte>, w: seq<byte>, b: seq<byte>, more: seq<byte>)
    requires f + w == b + more && |f| <= |b|
    ensures b == f + b[|f|..] && w == b[|f|..] + more
  {
    assert b[..|f|] == (b + more)[..|f|] == (f + w)[..|f|] == f;
    assert w == (f + w)[|f|..] == (b + more)[|f|..] == b[|f|..] + more;
  }

  /** A whole frame at the front of a buffer is decoded first. */
  lemma DrainFrame(o: ByteOrder, pad: Padding, m: Msg, tail: seq<byte>)
    requires Sendable(m)
    ensures Drain(o, Encode(o, pad, m) + tail) == Then([m], Drain(o, tail))
  {
    var f := Encode(o, pad, m);
    EncodedHeader(o, pad, m, tail);
    DecodeEncode(o, pad, m, tail);
    assert m.data[..Narrow(|m.data|)] == m.data;
    assert (f + tail)[|f|..] == tail;
    DrainStep(o, f + tail);
  }

  lemma DrainFirst(o: ByteOrder, pads: seq<Padding>, msgs: seq<Msg>, tail: seq<byte>)
    requires |pads| == |msgs| && msgs != [] && Sendable(msgs[0])
    ensures Drain(o, Wire(o, pads, msgs) + tail) == Then([msgs[0]], Drain(o, Wire(o, pads[1..], msgs[1..]) + tail))
  {
    WireFirst(o, pads, msgs, tail);
    DrainFrame(o, pads[0], msgs[0], Wire(o, pads[1..], msgs[1..]) + tail);
  }

  lemma DrainNothing(o: ByteOrder, pads: seq<Padding>, msgs: seq<Msg>, tail: seq<byte>)
    requires |pads| == |msgs| == 0
    ensures Drain(o, Wire(o, pads, msgs) + tail) == Then(msgs, Drain(o, tail))
  {
    assert Wire(o, pads, msgs) + tail == tail;
    assert msgs + Drain(o, tail).msgs == Drain(o, tail).msgs;
  }

  /** Parsing a serialised list gives the list back, then whatever the tail gives. */
  lemma {:induction false} DrainWire(o: ByteOrder, pads: seq<Padding>, msgs: seq<Msg>, tail: seq<byte>)
    requires |pads| == |msgs| && AllSendable(msgs)
    ensures Drain(o, Wire(o, pads, msgs) + tail) == Then(msgs, Drain(o, tail))
  {
    if msgs == [] {
      DrainNothing(o, pads, msgs, tail);
    } else {
      DrainFirst(o, pads, msgs, tail);
      DrainWire(o, pads[1..], msgs[1..], tail);
      ThenThen([msgs[0]], msgs[1..], Drain(o, tail));
      FirstAndRest(msgs);
    }
  }

  lemma DrainWhole(o: ByteOrder, pads: seq<Padding>, msgs: seq<Msg>)
    requires |pads| == |msgs| && AllSendable(msgs)
    ensures Drain(o, Wire(o, pads, msgs)) == Drained(msgs, [], false)
  {
    var w := Wire(o, pads, msgs);
    DrainWire(o, pads, msgs, []);
    assert w + [] == w && msgs + [] == msgs;
  }

  /** Serialising what a clean pass decoded, followed by the bytes it kept, rebuilds the buffer. */
  lemma {:induction false} WireDrain(o: ByteOrder, b: seq<byte>)
    requires !Drain(o, b).bad
    ensures var d := Drain(o, b);
            && AllSendable(d.msgs)
            && Wire(o, Pads(o, b), d.msgs) + d.rest == b
    decreases |b|
  {
    if !Idle(o, b) {
      var f, more := Encode(o, PaddingOf(b), Decode(o, b)), b[FrameSize(o, b)..];
      var d, p := Drain(o, more), Pads(o, more);
      WireDrain(o, more);
      FirstFrame(o, b);
      WireCons(o, PaddingOf(b), Decode(o, b), p, d.msgs);
      Assoc(f, Wire(o, p, d.msgs), d.rest);
    }
  }

  lemma FirstFrame(o: ByteOrder, b: seq<byte>)
    requires !Idle(o, b) && b[0] == PROTOCOL_VERSION
    ensures Sendable(Decode(o, b))
    ensures Encode(o, PaddingOf(b), Decode(o, b)) + b[FrameSize(o, b)..] == b
  {
    var f := b[..FrameSize(o, b)];
    EncodeDecode(o, f);
    assert Decode(o, f) == Decode(o, b);
  }

  /**
   A clean pass over `b` is characterised completely: it yields `msgs` and keeps `rest`
   exactly when `b` is the serialisation of `msgs`, for some padding, followed by an
   incomplete frame `rest`.
   */
  lemma DrainExact(o: ByteOrder, b: seq<byte>, msgs: seq<Msg>, rest: seq<byte>)
    ensures Drain(o, b) == Drained(msgs, rest, false) <==>
            (&& AllSendable(msgs) && Idle(o, rest)
             && exists pads: seq<Padding> :: |pads| == |msgs| && Wire(o, pads, msgs) + rest == b)
  {
    if Drain(o, b) == Drained(msgs, rest, false) {
      WireDrain(o, b);
      assert |Pads(o, b)| == |msgs| && Wire(o, Pads(o, b), msgs) + rest == b;
    }
    if AllSendable(msgs) && Idle(o, rest) {
      forall pads: seq<Padding> | |pads| == |msgs| && Wire(o, pads, msgs) + rest == b
        ensures Drain(o, b) == Drained(msgs, rest, false)
      {
        DrainWire(o, pads, msgs, rest);
        assert msgs + [] == msgs;
      }
    }
  }

  lemma BadFrameStops(o: ByteOrder, b: seq<byte>)
    requires !Idle(o, b) && b[0] != PROTOCOL_VERSION
    ensures Drain(o, b) == Drained([], [], true)
  {
  }

  /** Before a bad frame, the buffer is the frames decoded; behind them a complete frame of another version begins. */
  lemma {:induction false} BadSplit(o: ByteOrder, b: seq<byte>) returns (pads: seq<Padding>, tail: seq<byte>)
    requires Drain(o, b).bad
    ensures |pads| == |Drain(o, b).msgs| && b == Wire(o, pads, Drain(o, b).msgs) + tail
    ensures AllSendable(Drain(o, b).msgs) && !Idle(o, tail) && tail[0] != PROTOCOL_VERSION
    decreases |b|
  {
    if b[0] != PROTOCOL_VERSION {
      pads, tail := [], b;
      assert Wire(o, [], []) + b == b;
    } else {
      var n := FrameSize(o, b);
      var more: seq<Padding>;
      more, tail := BadSplit(o, b[n..]);
      var d := Drain(o, b[n..]);
      var m := Decode(o, b);
      pads := [PaddingOf(b)] + more;
      FirstFrame(o, b);
      WireCons(o, PaddingOf(b), m, more, d.msgs);
      Assoc(Encode(o, PaddingOf(b), m), Wire(o, more, d.msgs), tail);
    }
  }

  /** A pass meets a bad version exactly when the buffer is some packets' serialisation followed by a complete frame of another version. */
  lemma BadPassExact(o: ByteOrder, b: seq<byte>, msgs: seq<Msg>)
    ensures (Drain(o, b).bad && Drain(o, b).msgs == msgs) <==>
            exists pads: seq<Padding>, tail: seq<byte> ::
              |pads| == |msgs| && AllSendable(msgs) && Wire(o, pads, msgs) + tail == b
              && !Idle(o, tail) && tail[0] != PROTOCOL_VERSION
  {
    if Drain(o, b).bad && Drain(o, b).msgs == msgs {
      var pads, tail := BadSplit(o, b);
      assert Wire(o, pads, msgs) + tail == b;
    }
    forall pads: seq<Padding>, tail: seq<byte>
      | |pads| == |msgs| && AllSendable(msgs) && Wire(o, pads, msgs) + tail == b
        && !Idle(o, tail) && tail[0] != PROTOCOL_VERSION
      ensures Drain(o, b).bad && Drain(o, b).msgs == msgs
    {
      DrainWire(o, pads, msgs, tail);
      BadFrameStops(o, tail);
      assert msgs + [] == msgs;
    }
  }

  /** Streams are self-delimiting: if one serialised list is a prefix of another, so is the list of packets. */
  lemma UniqueDecoding(o: ByteOrder, p: seq<Padding>, a: seq<Msg>, q: seq<Padding>, b: seq<Msg>)
    requires |p| == |a| && |q| == |b| && AllSendable(a) && AllSendable(b)
    ensures Wire(o, p, a) <= Wire(o, q, b) ==> a <= b
    ensures Wire(o, p, a) == Wire(o, q, b) ==> a == b
  {
    DrainWhole(o, p, a);
    DrainWhole(o, q, b);
    if Wire(o, p, a) <= Wire(o, q, b) {
      PrefixDecoding(o, p, a, Wire(o, q, b));
    }
  }

  lemma PrefixDecoding(o: ByteOrder, p: seq<Padding>, a: seq<Msg>, w: seq<byte>)
    requires |p| == |a| && AllSendable(a) && Wire(o, p, a) <= w
    ensures a <= Drain(o, w).msgs
  {
    var tail := w[|Wire(o, p, a)|..];
    assert w == Wire(o, p, a) + tail;
    DrainWire(o, p, a, tail);
    assert Drain(o, w).msgs == a + Drain(o, tail).msgs;
  }

  /** Behind bytes that were already there, a list is decoded with nothing kept and no bad version only if there were none. */
  lemma NothingKeptExact(o: ByteOrder, stale: seq<byte>, pads: seq<Padding>, msgs: seq<Msg>)
    requires Idle(o, stale) && |pads| == |msgs| && AllSendable(msgs)
    ensures Drain(o, stale + Wire(o, pads, msgs)) == Drained(msgs, [], false) <==> stale == []
  {
    var b := stale + Wire(o, pads, msgs);
    if Drain(o, b) == Drained(msgs, [], false) {
      WireDrain(o, b);
      WireLength(o, Pads(o, b), pads, msgs);
    }
    DrainWhole(o, pads, msgs);
    assert stale == [] ==> b == Wire(o, pads, msgs);
  }

  /** An empty packet of a type that bytes left in the buffer do not pretend to have. */
  function TellTale(stale: seq<byte>): (m: Msg)
    ensures Sendable(m)
  {
    var pretended := if |stale| >= 2 then stale[1] else PROTOCOL_VERSION;
    Msg(if pretended == 0 then 1 else 0, [], 0)
  }

  /** Behind any bytes of a cut frame, that packet is not decoded: the first type byte read is not its own. */
  lemma StaleBytesShow(o: ByteOrder, stale: seq<byte>, pad: Padding)
    requires stale != [] && Idle(o, stale)
    ensures Drain(o, stale + Wire(o, [pad], [TellTale(stale)])).msgs != [TellTale(stale)]
  {
    var m := TellTale(stale);
    var w := Wire(o, [pad], [m]);
    WireFirst(o, [pad], [m], []);
    EncodedHeader(o, pad, m, []);
    assert w + [] == w && Encode(o, pad, m) + [] == Encode(o, pad, m);
    FirstKind(o, stale + w);
  }

  lemma FirstKind(o: ByteOrder, b: seq<byte>)
    requires |b| >= HEADER_SIZE
    ensures Drain(o, b).msgs != [] ==> Drain(o, b).msgs[0].kind == b[1]
  {
  }

  /**
   Bytes of a cut frame that stay in a receive buffer are harmless exactly when there are
   none: every list of packets sent after them is decoded as it was sent if and only if the
   buffer was empty.
   */
  lemma StaleBytesExact(o: ByteOrder, stale: seq<byte>)
    requires Idle(o, stale)
    ensures stale == [] <==>
            forall pads: seq<Padding>, msgs: seq<Msg> :: |pads| == |msgs| && AllSendable(msgs) ==>
              Drain(o, stale + Wire(o, pads, msgs)).msgs == msgs
  {
    if stale == [] {
      forall pads: seq<Padding>, msgs: seq<Msg> | |pads| == |msgs| && AllSendable(msgs)
        ensures Drain(o, stale + Wire(o, pads, msgs)).msgs == msgs
      {
        NothingKeptExact(o, stale, pads, msgs);
      }
    } else {
      var pads, msgs := [Padding(0, 0)], [TellTale(stale)];
      StaleBytesShow(o, stale, Padding(0, 0));
      assert |pads| == |msgs| && AllSendable(msgs);
      assert Drain(o, stale + Wire(o, pads, msgs)).msgs != msgs;
    }
  }

  lemma {:induction false} WireLength(o: ByteOrder, p: seq<Padding>, q: seq<Padding>, msgs: seq<Msg>)
    requires |p| == |q| == |msgs|
    ensures |Wire(o, p, msgs)| == |Wire(o, q, msgs)|
  {
    if msgs != [] {
      WireLength(o, p[1..], q[1..], msgs[1..]);
    }
  }

  // ----- Chunking -----

  function Join(chunks: seq<seq<byte>>): seq<byte> {
    if chunks == [] then [] else chunks[0] + Join(chunks[1..])
  }

  /** The reads of a connection, one pass for each; the flag says whether any pass met a bad frame. */
  function Feed(o: ByteOrder, b: seq<byte>, chunks: seq<seq<byte>>): Drained
    decreases |chunks|
  {
    if chunks == [] then Drained([], b, false)
    else
      var d := Drain(o, b + chunks[0]);
      var r := Feed(o, d.rest, chunks[1..]);
      Drained(d.msgs + r.msgs, r.rest, d.bad || r.bad)
  }

  lemma {:induction false} FeedIdle(o: ByteOrder, b: seq<byte>, chunks: seq<seq<byte>>)
    requires Idle(o, b)
    ensures Idle(o, Feed(o, b, chunks).rest)
    decreases |chunks|
  {
    if chunks != [] {
      FeedIdle(o, Drain(o, b + chunks[0]).rest, chunks[1..]);
    }
  }

  /** The same reads, watched only until the first bad frame clears the buffer. */
  function FeedUntilBad(o: ByteOrder, b: seq<byte>, chunks: seq<seq<byte>>): Drained
    decreases |chunks|
  {
    if chunks == [] then Drained([], b, false)
    else
      var d := Drain(o, b + chunks[0]);
      if d.bad then d else Then(d.msgs, FeedUntilBad(o, d.rest, chunks[1..]))
  }

  /** Later bytes do not change what an earlier pass decoded. */
  lemma {:induction false} DrainSplit(o: ByteOrder, a: seq<byte>, c: seq<byte>)
    ensures var d := Drain(o, a);
            Drain(o, a + c) == if d.bad then d else Then(d.msgs, Drain(o, d.rest + c))
    decreases |a|
  {
    var d := Drain(o, a);
    if Idle(o, a) {
      assert [] + Drain(o, a + c).msgs == Drain(o, a + c).msgs;
    } else if a[0] == PROTOCOL_VERSION {
      var m, more := Decode(o, a), a[FrameSize(o, a)..];
      var d1 := Drain(o, more);
      DrainFrameSplit(o, a, c);
      DrainSplit(o, more, c);
      if !d.bad {
        ThenThen([m], d1.msgs, Drain(o, d1.rest + c));
      }
    }
  }

  lemma DrainFrameSplit(o: ByteOrder, a: seq<byte>, c: seq<byte>)
    requires !Idle(o, a) && a[0] == PROTOCOL_VERSION
    ensures Drain(o, a + c) == Then([Decode(o, a)], Drain(o, a[FrameSize(o, a)..] + c))
  {
    FrontStays(o, a, c);
    DrainStep(o, a + c);
  }

  /** More bytes behind a complete frame leave it as it is. */
  lemma FrontStays(o: ByteOrder, a: seq<byte>, c: seq<byte>)
    requires !Idle(o, a)
    ensures !Idle(o, a + c) && (a + c)[0] == a[0]
    ensures var n := FrameSize(o, a);
            FrameSize(o, a + c) == n && (a + c)[n..] == a[n..] + c && Decode(o, a + c) == Decode(o, a)
  {
    var n := FrameSize(o, a);
    assert LengthField(o, a + c) == LengthField(o, a);
    assert (a + c)[HEADER_SIZE..n] == a[HEADER_SIZE..n];
  }

  /** Up to the first bad frame, every way of splitting a stream dispatches the same packets and leaves the same bytes. */
  lemma {:induction false} ChunkingIndependence(o: ByteOrder, b: seq<byte>, chunks: seq<seq<byte>>)
    requires Idle(o, b)
    ensures FeedUntilBad(o, b, chunks) == Drain(o, b + Join(chunks))
    decreases |chunks|
  {
    if chunks == [] {
      assert b + Join(chunks) == b;
    } else {
      var d := Drain(o, b + chunks[0]);
      assert b + Join(chunks) == (b + chunks[0]) + Join(chunks[1..]);
      DrainSplit(o, b + chunks[0], Join(chunks[1..]));
      ChunkingIndependence(o, d.rest, chunks[1..]);
    }
  }

  /** What is dispatched in all begins with what is dispatched before the first bad frame; without one they agree. */
  lemma {:induction false} FeedExtends(o: ByteOrder, b: seq<byte>, chunks: seq<seq<byte>>)
    ensures var u := FeedUntilBad(o, b, chunks); var f := Feed(o, b, chunks);
            && u.bad == f.bad && u.msgs <= f.msgs && (!u.bad ==> u == f)
    decreases |chunks|
  {
    if chunks != [] {
      var d := Drain(o, b + chunks[0]);
      FeedExtends(o, d.rest, chunks[1..]);
    }
  }

  /** True when no bytes follow the first bad frame of a stream (or there is none). */
  predicate NothingAfterBadFrame(o: ByteOrder, b: seq<byte>)
    decreases |b|
  {
    Idle(o, b) ||
    (if b[0] != PROTOCOL_VERSION then |b| == FrameSize(o, b)
     else NothingAfterBadFrame(o, b[FrameSize(o, b)..]))
  }

  /** One byte less: the frame in front stays complete, or it becomes incomplete. */
  lemma DropLast(o: ByteOrder, b: seq<byte>)
    requires !Idle(o, b)
    ensures var a, n := b[..|b| - 1], FrameSize(o, b);
            if |b| == n then Idle(o, a)
            else !Idle(o, a) && FrameSize(o, a) == n && a[0] == b[0] && a[n..] == b[n..][..|b[n..]| - 1]
  {
    var a := b[..|b| - 1];
    assert |a| >= HEADER_SIZE ==> LengthField(o, a) == LengthField(o, b);
  }

  lemma {:induction false} BadFrameNotLast(o: ByteOrder, b: seq<byte>)
    requires |b| > 0
    ensures NothingAfterBadFrame(o, b) <==> !Drain(o, b).bad || !Drain(o, b[..|b| - 1]).bad
    decreases |b|
  {
    if !Idle(o, b) {
      DropLast(o, b);
      var more := b[FrameSize(o, b)..];
      if more != [] && b[0] == PROTOCOL_VERSION {
        BadFrameNotLast(o, more);
        DrainStep(o, b);
        DrainStep(o, b[..|b| - 1]);
      }
    }
  }

  /**
   Splitting a stream never matters exactly when no bytes follow its first bad frame: a bad
   frame discards whatever else arrived with it, so with more bytes behind it the split shows.
   */
  lemma ChunkingExact(o: ByteOrder, stream: seq<byte>)
    ensures NothingAfterBadFrame(o, stream) <==>
            forall chunks: seq<seq<byte>> :: Join(chunks) == stream ==>
              Feed(o, [], chunks) == Drain(o, stream)
  {
    if NothingAfterBadFrame(o, stream) {
      forall chunks: seq<seq<byte>> | Join(chunks) == stream
        ensures Feed(o, [], chunks) == Drain(o, stream)
      {
        assert [] + stream == stream;
        FeedWholeStream(o, [], chunks);
      }
    } else {
      var a, last := stream[..|stream| - 1], stream[|stream| - 1..];
      BadFrameNotLast(o, stream);
      FeedTwo(o, a, last);
      assert a + last == stream;
      assert Join([a, last]) == stream;
      assert Drain(o, a).bad && Drain(o, last).rest == last;
      assert Feed(o, [], [a, last]).rest == last != Drain(o, stream).rest;
    }
  }

  /** A bad frame without a body, whatever arrived with it. */
  lemma BadFrameClears(o: ByteOrder, b: seq<byte>)
    requires |b| >= HEADER_SIZE && LengthField(o, b) == 0 && b[0] != PROTOCOL_VERSION
    ensures Drain(o, b) == Drained([], [], true)
    ensures NothingAfterBadFrame(o, b) <==> |b| == HEADER_SIZE
  {
    assert !Idle(o, b);
  }

  /** Thirteen zero bytes, for example: a bad frame and one byte more.  In one read the byte is lost, in two it stays. */
  lemma SplitCanShow(o: ByteOrder)
    ensures var bad, more := [0, 0, 0, 0, 0, 0, 0, 0, 0, 0, 0, 0], [0];
            && !NothingAfterBadFrame(o, bad + more)
            && Drain(o, bad + more) == Drained([], [], true)
            && Feed(o, [], [bad, more]).rest == more
  {
    var bad: seq<byte>, more: seq<byte> := [0, 0, 0, 0, 0, 0, 0, 0, 0, 0, 0, 0], [0];
    ZeroLength(o, bad);
    ZeroLength(o, bad + more);
    BadFrameClears(o, bad);
    BadFrameClears(o, bad + more);
    AfterBadFrame(o, bad, more);
  }

  /** Bytes that arrive after a pass that cleared the buffer are on their own. */
  lemma AfterBadFrame(o: ByteOrder, bad: seq<byte>, more: seq<byte>)
    requires Drain(o, bad) == Drained([], [], true) && Idle(o, more)
    ensures Feed(o, [], [bad, more]).rest == more
  {
    FeedTwo(o, bad, more);
    assert [] + more == more;
  }

  lemma FeedTwo(o: ByteOrder, a: seq<byte>, c: seq<byte>)
    ensures Join([a, c]) == a + c
    ensures Feed(o, [], [a, c]).rest == Drain(o, Drain(o, a).rest + c).rest
  {
    assert [] + a == a;
    assert [a, c][1..] == [c] && [c][1..] == [];
    assert Join([c]) == c + [];
    var d := Drain(o, Drain(o, a).rest + c);
    assert Feed(o, d.rest, []) == Drained([], d.rest, false);
    assert Feed(o, Drain(o, a).rest, [c]).rest == d.rest;
  }

  lemma {:induction false} FeedWholeStream(o: ByteOrder, b: seq<byte>, chunks: seq<seq<byte>>)
    requires Idle(o, b) && NothingAfterBadFrame(o, b + Join(chunks))
    ensures Feed(o, b, chunks) == Drain(o, b + Join(chunks))
    decreases |chunks|
  {
    if chunks == [] {
      assert b + Join(chunks) == b;
    } else {
      var a, c := b + chunks[0], Join(chunks[1..]);
      var d := Drain(o, a);
      assert b + Join(chunks) == a + c;
      DrainSplit(o, a, c);
      RestOfStream(o, a, c);
      FeedWholeStream(o, d.rest, chunks[1..]);
      if d.bad {
        assert d.rest + c == [];
        assert d.msgs + [] == d.msgs;
      }
    }
  }

  lemma {:induction false} RestOfStream(o: ByteOrder, a: seq<byte>, c: seq<byte>)
    requires NothingAfterBadFrame(o, a + c)
    ensures NothingAfterBadFrame(o, Drain(o, a).rest + c)
    ensures Drain(o, a).bad ==> c == []
    decreases |a|
  {
    if !Idle(o, a) {
      var n := FrameSize(o, a);
      FrontStays(o, a, c);
      if a[0] == PROTOCOL_VERSION {
        RestOfStream(o, a[n..], c);
      }
    }
  }

  // ----- Streams cut anywhere -----

  /** A pass over `b` decodes the first `j` packets and keeps the part of the next frame that is in `b`. */
  ghost predicate CutAt(o: ByteOrder, pads: seq<Padding>, msgs: seq<Msg>, b: seq<byte>, more: seq<byte>, j: nat)
    requires |pads| == |msgs|
  {
    && j <= |msgs|
    && !Drain(o, b).bad
    && Drain(o, b).msgs == msgs[..j]
    && Drain(o, b).rest + more == Wire(o, pads[j..], msgs[j..])
  }

  lemma CutInFirst(o: ByteOrder, pads: seq<Padding>, msgs: seq<Msg>, b: seq<byte>, more: seq<byte>)
    requires |pads| == |msgs| > 0 && Sendable(msgs[0])
    requires Wire(o, pads, msgs) == b + more && |b| < HEADER_SIZE + |msgs[0].data|
    ensures CutAt(o, pads, msgs, b, more, 0)
  {
    EncodedHeader(o, pads[0], msgs[0], Wire(o, pads[1..], msgs[1..]));
    assert |b| >= HEADER_SIZE ==> LengthField(o, b) == LengthField(o, b + more);
    assert Idle(o, b);
    assert pads[0..] == pads && msgs[0..] == msgs;
  }

  lemma CutAfterFirst(o: ByteOrder, pads: seq<Padding>, msgs: seq<Msg>, b: seq<byte>, more: seq<byte>, i: nat)
    requires |pads| == |msgs| > 0 && Sendable(msgs[0])
    requires CutAt(o, pads[1..], msgs[1..], b, more, i)
    ensures CutAt(o, pads, msgs, Encode(o, pads[0], msgs[0]) + b, more, i + 1)
  {
    var f := Encode(o, pads[0], msgs[0]);
    assert Drain(o, f + b) == Then([msgs[0]], Drain(o, b)) by {
      DrainFrame(o, pads[0], msgs[0], b);
    }
    SlicesOfRest(msgs, i);
    SlicesOfRest(pads, i);
  }

  lemma SlicesOfRest<T>(s: seq<T>, i: nat)
    requires i < |s|
    ensures s[..i + 1] == [s[0]] + s[1..][..i] && s[1..][i..] == s[i + 1..]
  {
  }

  /** Every prefix of a serialised list is cut somewhere. */
  lemma {:induction false} DrainPrefix(o: ByteOrder, pads: seq<Padding>, msgs: seq<Msg>, b: seq<byte>, more: seq<byte>)
      returns (j: nat)
    requires |pads| == |msgs| && AllSendable(msgs)
    requires Wire(o, pads, msgs) == b + more
    ensures CutAt(o, pads, msgs, b, more, j)
    decreases |msgs|
  {
    if msgs == [] {
      j := 0;
    } else if |b| < HEADER_SIZE + |msgs[0].data| {
      CutInFirst(o, pads, msgs, b, more);
      j := 0;
    } else {
      var f, w := Encode(o, pads[0], msgs[0]), Wire(o, pads[1..], msgs[1..]);
      SplitEqual(f, w, b, more);
      j := DrainPrefix(o, pads[1..], msgs[1..], b[|f|..], more);
      CutAfterFirst(o, pads, msgs, b[|f|..], more, j);
      j := j + 1;
    }
  }
}
