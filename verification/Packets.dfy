/** The monitor protocol's packets (external/bcd/bcd-amalgamated.c): what the client calls
    send, and how the bytes read back. */
module Packets {
  import opened Bytes

  /** sizeof(struct bcd_packet). */
  const PACKET_HEADER := 8
  /** BCD_PACKET_LIMIT. */
  const PACKET_LIMIT := 1024

  // enum bcd_op, as far as it travels over the socket
  const OP_OK: uint32 := 1
  const OP_TID: uint32 := 2
  const OP_KV: uint32 := 3
  const OP_TR_PROCESS: uint32 := 4
  const OP_TR_THREAD: uint32 := 5
  const OP_TR_FATAL: uint32 := 6
  const OP_DETACH: uint32 := 7
  const OP_ARG: uint32 := 8

  datatype Packet = Packet(op: uint32, payload: seq<byte>)
  {
    predicate Valid() { |payload| <= PACKET_LIMIT }
  }

  function EncodePacket(p: Packet): (b: seq<byte>)
    requires p.Valid()
    ensures |b| == PACKET_HEADER + |p.payload|
  {
    Le(p.op, 4) + Le(|p.payload|, 4) + p.payload
  }

  /** The acknowledgement of every request. */
  const ACK: seq<byte> := EncodePacket(Packet(OP_OK, []))

  /** The length field of a packet whose header has arrived. */
  function LengthField(received: seq<byte>): uint32
    requires |received| >= PACKET_HEADER
  {
    U32At(received, 4)
  }

  /** `received` is one whole packet. */
  predicate Whole(received: seq<byte>)
  {
    |received| >= PACKET_HEADER && |received| == PACKET_HEADER + LengthField(received)
  }

  function PacketIn(received: seq<byte>): Packet
    requires Whole(received)
  {
    Packet(U32At(received, 0), received[PACKET_HEADER..])
  }

  lemma HeaderReads(p: Packet, b: seq<byte>)
    requires p.Valid() && |b| >= PACKET_HEADER
    requires b <= EncodePacket(p) || EncodePacket(p) <= b
    ensures LengthField(b) == |p.payload| && U32At(b, 0) == p.op
  {
    hide Le, NumberAt;
    var e := EncodePacket(p);
    assert b[0..4] == e[0..4] == Le(p.op, 4) && b[4..8] == e[4..8] == Le(|p.payload|, 4);
    U32Stored(b, 0, p.op);
    U32Stored(b, 4, |p.payload|);
  }

  /** A packet reads back as itself, and no proper prefix of it passes for a whole one. */
  lemma PacketRoundTrip(p: Packet, b: seq<byte>)
    requires p.Valid() && b <= EncodePacket(p)
    ensures Whole(b) <==> b == EncodePacket(p)
    ensures Whole(b) ==> PacketIn(b) == p
  {
    if |b| >= PACKET_HEADER {
      HeaderReads(p, b);
      assert |b| == |EncodePacket(p)| ==> b == EncodePacket(p);
    }
    assert EncodePacket(p)[PACKET_HEADER..] == p.payload;
  }

  /** Packets laid end to end split in only one way. */
  lemma PacketPrefixFree(p: Packet, q: Packet, rest: seq<byte>, more: seq<byte>)
    requires p.Valid() && q.Valid() && EncodePacket(p) + rest == EncodePacket(q) + more
    ensures p == q && rest == more
  {
    hide EncodePacket;
    var b := EncodePacket(p) + rest;
    HeaderReads(p, b);
    HeaderReads(q, b);
    assert EncodePacket(p) == b[..|EncodePacket(p)|] == EncodePacket(q);
    PacketRoundTrip(p, EncodePacket(p));
    PacketRoundTrip(q, EncodePacket(q));
    assert rest == b[|EncodePacket(p)|..] == more;
  }

  /** What a client asks for. */
  datatype Request =
    | Kv(key: seq<byte>, value: seq<byte>)
    | Arg(text: seq<byte>)
    | Tid(tid: uint32)
    | TraceProcess
    | TraceThread
    | Detach
  {
    /** C strings, within the length limits that bcd_kv and bcd_arg enforce. */
    predicate Sendable() {
      match this
      case Kv(k, v) => NulFree(k) && NulFree(v) && |k| + 1 + |v| + 1 <= PACKET_LIMIT
      case Arg(a) => NulFree(a) && |a| + 1 <= PACKET_LIMIT
      case _ => true
    }
  }

  function KvPayload(key: seq<byte>, value: seq<byte>): seq<byte>
  {
    key + [0] + (value + [0])
  }

  /** The packet each client call builds: bcd_kv, bcd_arg, bcd_associate_tid, bcd_backtrace, bcd_detach. */
  function PacketOf(r: Request): (p: Packet)
    requires r.Sendable()
    ensures p.Valid()
  {
    match r
    case Kv(k, v) => Packet(OP_KV, KvPayload(k, v))
    case Arg(a) => Packet(OP_ARG, a + [0])
    case Tid(t) => Packet(OP_TID, Le(t, 4))
    case TraceProcess => Packet(OP_TR_PROCESS, [])
    case TraceThread => Packet(OP_TR_THREAD, [])
    case Detach => Packet(OP_DETACH, [])
  }

  /** A 32-bit number byte by byte. */
  lemma FourBytes(v: uint32)
    ensures Le(v, 4) == [v % 256, v / 0x100 % 256, v / 0x1_0000 % 256, v / 0x100_0000]
  {
    hide Le;
    SmallRanges();
    var b := Le(v, 4);
    assert b[0] == v % 256 by { LeBytes(v, 4, 0); }
    assert b[1] == v / 0x100 % 256 by { LeBytes(v, 4, 1); }
    assert b[2] == v / 0x1_0000 % 256 by { LeBytes(v, 4, 2); }
    assert b[3] == v / 0x100_0000 by { LeBytes(v, 4, 3); }
  }

  lemma SmallRanges()
    ensures Range(0) == 1 && Range(1) == 0x100 && Range(2) == 0x1_0000 && Range(3) == 0x100_0000
  {
    assert Range(1) == 256 * Range(0) && Range(2) == 256 * Range(1) && Range(3) == 256 * Range(2);
  }

  /** Every call on the wire: operation and length, four bytes each, then the payload. */
  lemma WireBytes(r: Request)
    requires r.Sendable()
    ensures var n := |PacketOf(r).payload|;
      EncodePacket(PacketOf(r)) ==
        match r
        case Tid(tid) => [2, 0, 0, 0] + [4, 0, 0, 0] + Le(tid, 4)
        case Kv(k, v) => [3, 0, 0, 0] + [n % 256, n / 256, 0, 0] + k + [0] + v + [0]
        case TraceProcess => [4, 0, 0, 0] + [0, 0, 0, 0]
        case TraceThread => [5, 0, 0, 0] + [0, 0, 0, 0]
        case Detach => [7, 0, 0, 0] + [0, 0, 0, 0]
        case Arg(a) => [8, 0, 0, 0] + [n % 256, n / 256, 0, 0] + a + [0]
    ensures ACK == [1, 0, 0, 0] + [0, 0, 0, 0]
  {
    hide Le;
    var p := PacketOf(r);
    FourBytes(p.op);
    FourBytes(|p.payload|);
    FourBytes(OP_OK);
    FourBytes(0);
  }

  /** The pair a key-value payload carries: k NUL v NUL and anything after, k nonempty. */
  function KvIn(payload: seq<byte>): Option<(seq<byte>, seq<byte>)>
  {
    var keyEnd := StringEnd(payload, 0);
    if keyEnd == None || keyEnd.value == 0 then None else
    var valueEnd := StringEnd(payload, keyEnd.value + 1);
    if valueEnd == None then None else
    Some((payload[..keyEnd.value], payload[keyEnd.value + 1..valueEnd.value]))
  }

  /** Acceptance, said without positions. */
  lemma KvAccepts(payload: seq<byte>, key: seq<byte>, value: seq<byte>)
    ensures KvIn(payload) == Some((key, value)) <==>
      key != [] && NulFree(key) && NulFree(value) && KvPayload(key, value) <= payload
  {
    hide StringEnd;
    var k := |key|;
    if key != [] && NulFree(key) && NulFree(value) && KvPayload(key, value) <= payload {
      KvPayloadParts(payload, key, value);
      StringEndAt(payload, 0, k);
      StringEndAt(payload, k + 1, k + 1 + |value|);
    }
    if KvIn(payload) == Some((key, value)) {
      assert payload[0..k] == payload[..k] == key;
      assert KvPayload(key, value) == payload[..k + |value| + 2];
    }
  }

  lemma KvPayloadParts(payload: seq<byte>, key: seq<byte>, value: seq<byte>)
    requires KvPayload(key, value) <= payload
    ensures var k, v := |key|, |value|;
      && k + v + 2 <= |payload|
      && payload[..k] == payload[0..k] == key && payload[k] == 0
      && payload[k + 1..k + 1 + v] == value && payload[k + 1 + v] == 0
  {
    var q := KvPayload(key, value);
    assert payload[..|q|] == q;
    assert q[..|key|] == key && q[|key| + 1..|key| + 1 + |value|] == value;
    assert payload[..|key|] == q[..|key|];
    assert payload[|key| + 1..|key| + 1 + |value|] == q[|key| + 1..|key| + 1 + |value|];
  }

  /** What bcd_kv builds decodes to its arguments, unless the key is empty: then it is refused. */
  lemma KvRoundTrip(key: seq<byte>, value: seq<byte>)
    requires Kv(key, value).Sendable()
    ensures KvIn(PacketOf(Kv(key, value)).payload) == if key == [] then None else Some((key, value))
  {
    if key == [] {
      StringEndAt(KvPayload(key, value), 0, 0);
    } else {
      KvAccepts(KvPayload(key, value), key, value);
    }
  }

  /** The argument in a payload: the string up to the first NUL, if nonempty. */
  function ArgIn(payload: seq<byte>): Option<seq<byte>>
  {
    var n := FirstNul(payload);
    if n == 0 then None else Some(payload[..n])
  }

  lemma ArgRoundTrip(text: seq<byte>)
    requires Arg(text).Sendable()
    ensures ArgIn(PacketOf(Arg(text)).payload) == if text == [] then None else Some(text)
  {
    assert (text + [0])[..|text|] == text;
    FirstNulAt(text + [0], |text|);
  }

  lemma TidRoundTrip(t: uint32)
    ensures |PacketOf(Tid(t)).payload| == 4 && U32At(PacketOf(Tid(t)).payload, 0) == t
  {
    var b := PacketOf(Tid(t)).payload;
    assert b[0..4] == b;
    U32Stored(b, 0, t);
  }
}
