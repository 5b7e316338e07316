/**
 Packets and their wire form (include/libuv_net/message.hpp).

 A frame is the raw bytes of the header struct followed by the body.  With the usual
 alignment the struct takes twelve bytes: version, type, two bytes of padding, then the
 body length and the sequence number as 32-bit words in the byte order of the host.
 */
module Message {

  type byte = b: int | 0 <= b < 0x100
  type uint32 = n: int | 0 <= n < 0x1_0000_0000

  const PROTOCOL_VERSION: byte := 1
  const HEADER_SIZE: nat := 12
  const HEARTBEAT: byte := 4
  const WORD := 0x1_0000_0000

  /** The byte order of the machine that copies the struct. */
  datatype ByteOrder = LittleEndian | BigEndian

  /** The two bytes between the type and the length: whatever the stack held. */
  datatype Padding = Padding(first: byte, second: byte)

  /** What a packet means.  The type may be any byte: the enum is never range-checked. */
  datatype Msg = Msg(kind: byte, data: seq<byte>, sequence: uint32)

  const DEFAULT_MSG := Msg(0, [], 0)

  function Opposite(o: ByteOrder): ByteOrder {
    if o.LittleEndian? then BigEndian else LittleEndian
  }

  // ----- 32-bit words -----

  function Word(b0: byte, b1: byte, b2: byte, b3: byte): uint32 {
    b0 + 0x100 * (b1 + 0x100 * (b2 + 0x100 * b3))
  }

  /** The number a machine of byte order `o` reads in four bytes. */
  function Unpack(o: ByteOrder, b0: byte, b1: byte, b2: byte, b3: byte): uint32 {
    if o.LittleEndian? then Word(b0, b1, b2, b3) else Word(b3, b2, b1, b0)
  }

  /** The four bytes a machine of byte order `o` keeps for a word, by division. */
  function Store(o: ByteOrder, n: uint32): (w: seq<byte>)
    ensures |w| == 4 && Unpack(o, w[0], w[1], w[2], w[3]) == n
  {
    var n1 := n / 0x100;
    var n2 := n1 / 0x100;
    var b0, b1, b2, b3 := n % 0x100, n1 % 0x100, n2 % 0x100, n2 / 0x100;
    if o.LittleEndian? then [b0, b1, b2, b3] else [b3, b2, b1, b0]
  }

  /** The same bytes, characterised: those that read back as the word. */
  ghost function Pack(o: ByteOrder, n: uint32): (w: seq<byte>)
    ensures |w| == 4 && Unpack(o, w[0], w[1], w[2], w[3]) == n
  {
    var s := Store(o, n);
    assert |s| == 4 && Unpack(o, s[0], s[1], s[2], s[3]) == n;
    var w: seq<byte> :| |w| == 4 && Unpack(o, w[0], w[1], w[2], w[3]) == n;
    w
  }

  lemma PackUnpack(o: ByteOrder, b0: byte, b1: byte, b2: byte, b3: byte)
    ensures Pack(o, Unpack(o, b0, b1, b2, b3)) == [b0, b1, b2, b3]
  {
    var w := Pack(o, Unpack(o, b0, b1, b2, b3));
    WordInjective(w[0], w[1], w[2], w[3], b0, b1, b2, b3);
    WordInjective(w[3], w[2], w[1], w[0], b3, b2, b1, b0);
    assert w == [w[0], w[1], w[2], w[3]];
  }

  lemma WordInjective(a0: byte, a1: byte, a2: byte, a3: byte, b0: byte, b1: byte, b2: byte, b3: byte)
    ensures Word(a0, a1, a2, a3) == Word(b0, b1, b2, b3) ==> a0 == b0 && a1 == b1 && a2 == b2 && a3 == b3
  {
    if Word(a0, a1, a2, a3) == Word(b0, b1, b2, b3) {
      LowByte(a0, a1 + 0x100 * (a2 + 0x100 * a3), b0, b1 + 0x100 * (b2 + 0x100 * b3));
      LowByte(a1, a2 + 0x100 * a3, b1, b2 + 0x100 * b3);
      LowByte(a2, a3, b2, b3);
    }
  }

  lemma LowByte(a: byte, p: int, b: byte, q: int)
    requires a + 0x100 * p == b + 0x100 * q
    ensures a == b && p == q
  {
  }

  /** There is only one way to store a word, so dividing finds it. */
  lemma StoreIsPack(o: ByteOrder, n: uint32)
    ensures Store(o, n) == Pack(o, n)
  {
    var w := Store(o, n);
    PackUnpack(o, w[0], w[1], w[2], w[3]);
  }

  /** A word read in the other byte order survives exactly when its bytes form a palindrome. */
  ghost predicate Palindromic(o: ByteOrder, n: uint32) {
    var w := Pack(o, n);
    w[0] == w[3] && w[1] == w[2]
  }

  lemma UnpackSwapped(o: ByteOrder, n: uint32)
    ensures var w := Pack(o, n);
            Unpack(Opposite(o), w[0], w[1], w[2], w[3]) == n <==> Palindromic(o, n)
  {
    var w := Pack(o, n);
    WordInjective(w[0], w[1], w[2], w[3], w[3], w[2], w[1], w[0]);
  }

  /** The narrowing of a body length to the 32-bit field. */
  function Narrow(n: nat): (r: uint32)
    ensures r <= n
    ensures r == n <==> n < WORD
  {
    n % WORD
  }

  // ----- Frames -----

  ghost function Header(o: ByteOrder, pad: Padding, m: Msg): (h: seq<byte>)
    ensures |h| == HEADER_SIZE
  {
    [PROTOCOL_VERSION, m.kind, pad.first, pad.second] + Pack(o, Narrow(|m.data|)) + Pack(o, m.sequence)
  }

  /** The bytes of one packet; the length is narrowed to 32 bits. */
  ghost function Encode(o: ByteOrder, pad: Padding, m: Msg): (b: seq<byte>)
    ensures |b| == HEADER_SIZE + |m.data|
  {
    Header(o, pad, m) + m.data
  }

  function LengthField(o: ByteOrder, b: seq<byte>): uint32
    requires |b| >= HEADER_SIZE
  {
    Unpack(o, b[4], b[5], b[6], b[7])
  }

  function SequenceField(o: ByteOrder, b: seq<byte>): uint32
    requires |b| >= HEADER_SIZE
  {
    Unpack(o, b[8], b[9], b[10], b[11])
  }

  function FrameSize(o: ByteOrder, b: seq<byte>): nat
    requires |b| >= HEADER_SIZE
  {
    HEADER_SIZE + LengthField(o, b)
  }

  function PaddingOf(b: seq<byte>): Padding
    requires |b| >= HEADER_SIZE
  {
    Padding(b[2], b[3])
  }

  /** The message in the frame at the front of `b`. */
  function Decode(o: ByteOrder, b: seq<byte>): Msg
    requires |b| >= HEADER_SIZE && |b| >= FrameSize(o, b)
  {
    Msg(b[1], b[HEADER_SIZE..FrameSize(o, b)], SequenceField(o, b))
  }

  lemma ZeroLength(o: ByteOrder, b: seq<byte>)
    requires |b| >= HEADER_SIZE && b[4] == 0 && b[5] == 0 && b[6] == 0 && b[7] == 0
    ensures LengthField(o, b) == 0
  {
  }

  /** True of a packet whose body length fits the header field. */
  predicate Sendable(m: Msg) {
    |m.data| < WORD
  }

  /** What a receiver reads in the header of an encoded packet, whatever bytes follow it. */
  lemma EncodedHeader(o: ByteOrder, pad: Padding, m: Msg, tail: seq<byte>)
    ensures var b := Encode(o, pad, m) + tail;
            && b[0] == PROTOCOL_VERSION && b[1] == m.kind && PaddingOf(b) == pad
            && LengthField(o, b) == Narrow(|m.data|) && SequenceField(o, b) == m.sequence
  {
  }

  lemma BodyOfFrame(h: seq<byte>, d: seq<byte>, tail: seq<byte>, k: nat)
    requires |h| == HEADER_SIZE && k <= |d|
    ensures (h + d + tail)[HEADER_SIZE..HEADER_SIZE + k] == d[..k]
  {
  }

  /** Decoding an encoded packet keeps the body up to the narrowed length. */
  lemma DecodeEncode(o: ByteOrder, pad: Padding, m: Msg, tail: seq<byte>)
    ensures var b := Encode(o, pad, m) + tail;
            && FrameSize(o, b) <= |b|
            && Decode(o, b) == Msg(m.kind, m.data[..Narrow(|m.data|)], m.sequence)
  {
    var b := Encode(o, pad, m) + tail;
    var k := Narrow(|m.data|);
    EncodedHeader(o, pad, m, tail);
    assert b[HEADER_SIZE..HEADER_SIZE + k] == m.data[..k] by {
      BodyOfFrame(Header(o, pad, m), m.data, tail, k);
    }
  }

  // ----- The bytes themselves -----

  /** Four bytes are the digits of a number to base 256, the lowest first, above which the number is cut off. */
  ghost predicate LowestFirst(w: seq<byte>, n: nat) {
    && |w| == 4
    && w[0] == n % 0x100 && w[1] == n / 0x100 % 0x100
    && w[2] == n / 0x1_0000 % 0x100 && w[3] == n / 0x100_0000 % 0x100
  }

  ghost predicate HighestFirst(w: seq<byte>, n: nat) {
    |w| == 4 && LowestFirst([w[3], w[2], w[1], w[0]], n)
  }

  lemma StoredBytes(o: ByteOrder, n: uint32)
    ensures if o.LittleEndian? then LowestFirst(Pack(o, n), n) else HighestFirst(Pack(o, n), n)
  {
    StoreIsPack(o, n);
    assert n / 0x100 / 0x100 == n / 0x1_0000 && n / 0x1_0000 / 0x100 == n / 0x100_0000;
  }

  lemma CutDigit0(n: nat)
    ensures n % WORD % 0x100 == n % 0x100
  {
    assert n == WORD * (n / WORD) + n % WORD;
  }

  lemma CutDigit1(n: nat)
    ensures n % WORD / 0x100 % 0x100 == n / 0x100 % 0x100
  {
    var q, r := n / WORD, n % WORD;
    var a, b := r / 0x100, r % 0x100;
    var x := 0x100_0000 * q + a;
    assert n == WORD * q + r && r == 0x100 * a + b;
    assert n == 0x100 * x + b && 0 <= b < 0x100;
    assert n / 0x100 == x;
    assert x % 0x100 == a % 0x100;
  }

  lemma CutDigit2(n: nat)
    ensures n % WORD / 0x1_0000 % 0x100 == n / 0x1_0000 % 0x100
  {
    var q, r := n / WORD, n % WORD;
    var a, b := r / 0x1_0000, r % 0x1_0000;
    var x := 0x1_0000 * q + a;
    assert n == WORD * q + r && r == 0x1_0000 * a + b;
    assert n == 0x1_0000 * x + b && 0 <= b < 0x1_0000;
    assert n / 0x1_0000 == x;
    assert x % 0x100 == a % 0x100;
  }

  lemma CutDigit3(n: nat)
    ensures n % WORD / 0x100_0000 % 0x100 == n / 0x100_0000 % 0x100
  {
    var q, r := n / WORD, n % WORD;
    var a, b := r / 0x100_0000, r % 0x100_0000;
    var x := 0x100 * q + a;
    assert n == WORD * q + r && r == 0x100_0000 * a + b;
    assert n == 0x100_0000 * x + b && 0 <= b < 0x100_0000;
    assert n / 0x100_0000 == x;
    assert x % 0x100 == a % 0x100;
  }

  /** Cutting a number off at 2^32 keeps its four lowest digits. */
  lemma CutDigits(n: nat, w: seq<byte>)
    requires LowestFirst(w, n % WORD)
    ensures LowestFirst(w, n)
  {
    CutDigit0(n);
    CutDigit1(n);
    CutDigit2(n);
    CutDigit3(n);
  }

  /**
   The header of any packet, byte by byte: body length and sequence number are written lowest
   byte first by a little-endian host and highest byte first by a big-endian one.
   */
  lemma HeaderBytes(o: ByteOrder, pad: Padding, m: Msg)
    ensures var b := Encode(o, pad, m);
            && b[..4] == [1, m.kind, pad.first, pad.second] && b[12..] == m.data
            && (o.LittleEndian? ==> LowestFirst(b[4..8], |m.data|) && LowestFirst(b[8..12], m.sequence))
            && (o.BigEndian? ==> HighestFirst(b[4..8], |m.data|) && HighestFirst(b[8..12], m.sequence))
  {
    var b := Encode(o, pad, m);
    var v, w := Pack(o, Narrow(|m.data|)), Pack(o, m.sequence);
    StoredBytes(o, Narrow(|m.data|));
    StoredBytes(o, m.sequence);
    CutDigits(|m.data|, if o.LittleEndian? then v else [v[3], v[2], v[1], v[0]]);
    assert b[4..8] == v && b[8..12] == w;
  }

  /** A packet is read from its frame byte by byte, in the byte order of the reader. */
  lemma DecodedBytes(o: ByteOrder, b: seq<byte>)
    requires |b| >= HEADER_SIZE && |b| >= FrameSize(o, b)
    ensures var m := Decode(o, b);
            && m.kind == b[1] && m.data == b[12..12 + |m.data|]
            && (o.LittleEndian? ==>
                  && |m.data| == (b[4] as int) + 0x100 * (b[5] as int) + 0x1_0000 * (b[6] as int) + 0x100_0000 * (b[7] as int)
                  && m.sequence == (b[8] as int) + 0x100 * (b[9] as int) + 0x1_0000 * (b[10] as int) + 0x100_0000 * (b[11] as int))
            && (o.BigEndian? ==>
                  && |m.data| == (b[7] as int) + 0x100 * (b[6] as int) + 0x1_0000 * (b[5] as int) + 0x100_0000 * (b[4] as int)
                  && m.sequence == (b[11] as int) + 0x100 * (b[10] as int) + 0x1_0000 * (b[9] as int) + 0x100_0000 * (b[8] as int))
  {
    assert |Decode(o, b).data| == LengthField(o, b);
  }

  /** Serialise then deserialise gives the packet back exactly when its body is under 2^32 bytes. */
  lemma RoundTripExact(o: ByteOrder, pad: Padding, m: Msg)
    ensures var b := Encode(o, pad, m);
            && FrameSize(o, b) <= |b|
            && (Decode(o, b) == m <==> Sendable(m))
  {
    var b := Encode(o, pad, m);
    assert b + [] == b;
    DecodeEncode(o, pad, m, []);
    assert Sendable(m) ==> m.data[..Narrow(|m.data|)] == m.data;
    assert |m.data[..Narrow(|m.data|)]| == Narrow(|m.data|);
  }

  /** A body of 2^32 zeros, for example, comes back empty. */
  lemma LargeBodyIsLost(o: ByteOrder, pad: Padding)
    ensures var m := Msg(0, seq(0x1_0000_0000, _ => 0), 0);
            Decode(o, Encode(o, pad, m)) == Msg(0, [], 0) != m
  {
    var m := Msg(0, seq(0x1_0000_0000, _ => 0), 0);
    var b := Encode(o, pad, m);
    assert b + [] == b;
    DecodeEncode(o, pad, m, []);
  }

  /** An accepted frame of exactly its own length re-serialises to the same bytes. */
  lemma EncodeDecode(o: ByteOrder, b: seq<byte>)
    requires |b| >= HEADER_SIZE && |b| == FrameSize(o, b) && b[0] == PROTOCOL_VERSION
    ensures Sendable(Decode(o, b))
    ensures Encode(o, PaddingOf(b), Decode(o, b)) == b
  {
    var m := Decode(o, b);
    assert |m.data| == LengthField(o, b);
    HeaderOfFields(o, b);
    HeaderSlices(b);
    assert Encode(o, PaddingOf(b), m) == b[..HEADER_SIZE] + b[HEADER_SIZE..];
  }

  lemma HeaderOfFields(o: ByteOrder, b: seq<byte>)
    requires |b| >= HEADER_SIZE && b[0] == PROTOCOL_VERSION
    ensures forall m: Msg {:trigger Header(o, PaddingOf(b), m)} ::
              m.kind == b[1] && |m.data| == LengthField(o, b) && m.sequence == SequenceField(o, b) ==>
              Header(o, PaddingOf(b), m) == [b[0], b[1], b[2], b[3]] + [b[4], b[5], b[6], b[7]] + [b[8], b[9], b[10], b[11]]
  {
    PackUnpack(o, b[4], b[5], b[6], b[7]);
    PackUnpack(o, b[8], b[9], b[10], b[11]);
  }

  lemma HeaderSlices(b: seq<byte>)
    requires |b| >= HEADER_SIZE
    ensures b[..HEADER_SIZE] ==
              [b[0], b[1], b[2], b[3]] + [b[4], b[5], b[6], b[7]] + [b[8], b[9], b[10], b[11]]
  {
  }

  lemma OtherByteOrderHeader(o: ByteOrder, pad: Padding, m: Msg)
    requires Sendable(m)
    ensures var b := Encode(o, pad, m); var p := Opposite(o);
            && b[1] == m.kind
            && (LengthField(p, b) == |m.data| <==> Palindromic(o, |m.data|))
            && (SequenceField(p, b) == m.sequence <==> Palindromic(o, m.sequence))
  {
    var b := Encode(o, pad, m);
    var w, v := Pack(o, |m.data|), Pack(o, m.sequence);
    assert b[4] == w[0] && b[5] == w[1] && b[6] == w[2] && b[7] == w[3];
    assert b[8] == v[0] && b[9] == v[1] && b[10] == v[2] && b[11] == v[3];
    assert LengthField(Opposite(o), b) == |m.data| <==> Palindromic(o, |m.data|) by {
      UnpackSwapped(o, |m.data|);
    }
    assert SequenceField(Opposite(o), b) == m.sequence <==> Palindromic(o, m.sequence) by {
      UnpackSwapped(o, m.sequence);
    }
  }

  /**
   The header travels in host byte order.  A host of the other byte order reads a sendable
   packet correctly exactly when both words are byte palindromes.
   */
  lemma OtherByteOrderExact(o: ByteOrder, pad: Padding, m: Msg)
    requires Sendable(m)
    ensures var b := Encode(o, pad, m); var p := Opposite(o);
            (FrameSize(p, b) <= |b| && Decode(p, b) == m)
            <==> (Palindromic(o, |m.data|) && Palindromic(o, m.sequence))
  {
    var b := Encode(o, pad, m);
    var p := Opposite(o);
    OtherByteOrderHeader(o, pad, m);
    assert b[HEADER_SIZE..] == m.data;
    if FrameSize(p, b) <= |b| && Decode(p, b) == m {
      assert |Decode(p, b).data| == LengthField(p, b);
    }
  }

  /** A packet of one byte, for example, is taken for one of 2^24 bytes. */
  lemma OneByteIsMisread(o: ByteOrder, pad: Padding)
    ensures var b := Encode(o, pad, Msg(0, [0], 0)); FrameSize(Opposite(o), b) == HEADER_SIZE + 0x100_0000
  {
    var b := Encode(o, pad, Msg(0, [0], 0));
    if o.LittleEndian? {
      PackUnpack(o, 1, 0, 0, 0);
      assert b[4..8] == [1, 0, 0, 0];
    } else {
      PackUnpack(o, 0, 0, 0, 1);
      assert b[4..8] == [0, 0, 0, 1];
    }
    assert LengthField(Opposite(o), b) == Unpack(Opposite(o), b[4..8][0], b[4..8][1], b[4..8][2], b[4..8][3]);
  }

  /** The packet object handed to handlers. */
  class Packet {
    var kind: byte
    var data: seq<byte>
    var sequence: uint32

    function Value(): Msg
      reads this
    {
      Msg(kind, data, sequence)
    }

    constructor ()
      ensures Value() == DEFAULT_MSG
    {
      kind, data, sequence := 0, [], 0;
    }

    constructor Of(m: Msg)
      ensures Value() == m
    {
      kind, data, sequence := m.kind, m.data, m.sequence;
    }

    /** Appends the header struct and then the body to a fresh vector. */
    method Serialize(o: ByteOrder, pad: Padding) returns (result: seq<byte>)
      ensures result == Encode(o, pad, Value())
    {
      result := [];
      result := result + [PROTOCOL_VERSION, kind, pad.first, pad.second];
      StoreIsPack(o, Narrow(|data|));
      StoreIsPack(o, sequence);
      result := result + Store(o, Narrow(|data|)) + Store(o, sequence);
      result := result + data;
    }

    /**
     Reads a frame into this packet.  A short input or a bad version changes nothing; an
     input cut inside the body has already replaced the type and the sequence number.
     */
    method Deserialize(o: ByteOrder, bytes: seq<byte>) returns (ok: bool)
      modifies this
      ensures ok <==> |bytes| >= HEADER_SIZE && bytes[0] == PROTOCOL_VERSION && |bytes| >= FrameSize(o, bytes)
      ensures ok ==> Value() == Decode(o, bytes)
      ensures |bytes| < HEADER_SIZE || bytes[0] != PROTOCOL_VERSION ==> Value() == old(Value())
      ensures !ok && |bytes| >= HEADER_SIZE && bytes[0] == PROTOCOL_VERSION ==>
                Value() == Msg(bytes[1], old(data), SequenceField(o, bytes))
    {
      if |bytes| < HEADER_SIZE {
        return false;
      }
      if bytes[0] != PROTOCOL_VERSION {
        return false;
      }
      kind := bytes[1];
      sequence := SequenceField(o, bytes);
      var length := LengthField(o, bytes);
      if |bytes| < HEADER_SIZE + length {
        return false;
      }
      data := bytes[HEADER_SIZE..HEADER_SIZE + length];
      return true;
    }
  }

  // ----- Sequences -----

  lemma Assoc<T>(a: seq<T>, b: seq<T>, c: seq<T>)
    ensures a + (b + c) == a + b + c
  {
  }

  lemma FirstAndRest<T>(s: seq<T>)
    requires s != []
    ensures [s[0]] + s[1..] == s
  {
  }
}
