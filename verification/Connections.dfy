/** What holds of each connection in every reachable state: the bytes on their way are exactly
    the unperformed part of the client's one outstanding request, or the unread part of its
    acknowledgement. */
module Connections {
  import opened Bytes
  import opened Packets
  import opened Monitor

  /** The request a client is waiting for. */
  function Outstanding(c: Conn): Request
    requires c.sent != []
  {
    c.sent[|c.sent| - 1]
  }

  function Wire(r: Request): (b: seq<byte>)
    requires r.Sendable()
    ensures |b| >= PACKET_HEADER
  {
    EncodePacket(PacketOf(r))
  }

  /** The thread a session speaks for: the last one its client named. */
  function LastTid(rs: seq<Request>): uint32
  {
    if rs == [] then 0
    else if rs[|rs| - 1].Tid? then rs[|rs| - 1].tid
    else LastTid(rs[..|rs| - 1])
  }

  /** The counters: one request at most is outstanding, and only the last can be a detach. */
  ghost predicate Counts(c: Conn)
  {
    && c.returned <= c.done <= |c.sent| <= c.returned + 1
    && (forall r <- c.sent :: r.Sendable())
    && (forall k :: 0 <= k < |c.sent| - 1 ==> !c.sent[k].Detach?)
    && c.terminated == (c.done > 0 && c.sent[c.done - 1].Detach?)
    && c.tid == LastTid(c.sent[..c.done])
  }

  /** The bytes in flight. */
  ghost predicate Traffic(c: Conn)
    requires Counts(c)
  {
    match c.client
    case Idle =>
      c.returned == |c.sent| && c.acked == PACKET_HEADER && c.received == c.inbound == c.outbound == []
    case Closed =>
      c.returned == |c.sent| && c.acked == PACKET_HEADER && c.received == c.inbound == c.outbound == []
    case Writing(rest) =>
      && c.done == |c.sent| - 1 && c.acked == PACKET_HEADER && rest != [] && c.outbound == []
      && c.received + c.inbound + rest == Wire(Outstanding(c))
    case Awaiting(got) =>
      && c.returned == |c.sent| - 1 && |got| < PACKET_HEADER
      && if c.done == c.returned then
           && c.acked == PACKET_HEADER && got == c.outbound == []
           && c.received + c.inbound == Wire(Outstanding(c)) && |c.received| < |Wire(Outstanding(c))|
         else
           c.received == c.inbound == [] && c.acked <= PACKET_HEADER && got + c.outbound == ACK[..c.acked]
  }

  ghost predicate Alive(c: Conn)
  {
    match c.life
    case Queued => c.done == 0 && c.received == [] && !c.edge && c.acked == PACKET_HEADER && c.client != Closed
    case Open => (c.terminated ==> c.acked < PACKET_HEADER) && c.client != Closed
    case Freed => c.terminated && c.acked == PACKET_HEADER && !c.edge && c.client != Idle
  }

  ghost predicate ConnOk(c: Conn)
  {
    Counts(c) && Traffic(c) && Alive(c)
  }

  // ---- The steps of one connection ----

  lemma NewConnOk()
    ensures ConnOk(NEW_CONN)
  {
  }

  lemma BeginOk(c: Conn, r: Request)
    requires ConnOk(c) && c.client == Idle && r.Sendable()
    ensures ConnOk(Beginning(c, r))
  {
    hide EncodePacket, LastTid;
    var sent := c.sent + [r];
    assert sent[..c.done] == c.sent[..c.done];
    assert [] + [] + Wire(r) == Wire(r);
  }

  lemma SendOk(c: Conn, n: nat)
    requires ConnOk(c) && c.client.Writing? && 1 <= n <= |c.client.rest|
    ensures ConnOk(SendBytes(c, n))
  {
    hide EncodePacket, LastTid;
    var rest, c' := c.client.rest, SendBytes(c, n);
    assert rest == rest[..n] + rest[n..];
    assert c'.received + c'.inbound + rest[n..] == c.received + c.inbound + rest;
    if n == |rest| {
      assert rest[n..] == [] && c'.received + c'.inbound == c'.received + c'.inbound + [];
    }
  }

  lemma AckSaysOk()
    ensures |ACK| == PACKET_HEADER && U32At(ACK, 0) == OP_OK
  {
    hide Le;
    HeaderReads(Packet(OP_OK, []), ACK);
  }

  /** Every acknowledgement says OK and answers the client's latest request. */
  lemma ReceiveOk(c: Conn, n: nat)
    requires ConnOk(c) && c.client.Awaiting?
    requires 1 <= n <= |c.outbound| && |c.client.got| + n <= PACKET_HEADER
    ensures ConnOk(ReceiveBytes(c, n))
    ensures ReceiveBytes(c, n).client.Awaiting? || (c.done == |c.sent| == ReceiveBytes(c, n).returned)
  {
    hide EncodePacket, LastTid;
    AckSaysOk();
    var got := c.client.got + c.outbound[..n];
    assert got + c.outbound[n..] == c.client.got + c.outbound;
    if |got| == PACKET_HEADER {
      assert got == ACK;
    }
  }

  /** A read that leaves the packet incomplete. */
  lemma ReadOk(c: Conn, n: nat)
    requires ConnOk(c) && c.life == Open && n <= |c.inbound| && c.sent != []
    requires |c.received| + n < |Wire(Outstanding(c))|
    ensures ConnOk(ReadBytes(c, n))
  {
    hide EncodePacket, LastTid;
    var c' := ReadBytes(c, n);
    assert c'.received + c'.inbound == c.received + c.inbound;
  }

  /** The bytes in the session's buffer are a front part of the current request. */
  lemma ReceivedIsFront(c: Conn)
    requires ConnOk(c) && (c.received != [] || c.inbound != [])
    ensures c.sent != [] && c.done == |c.sent| - 1
    ensures c.received + c.inbound <= Wire(Outstanding(c)) && |c.received| < |Wire(Outstanding(c))|
    ensures c.client.Writing? ==> |c.received + c.inbound| < |Wire(Outstanding(c))|
  {
    hide EncodePacket, LastTid;
    if c.client.Writing? {
      assert c.received + c.inbound <= c.received + c.inbound + c.client.rest;
    }
  }

  /** The read that completes the packet, and performing it. */
  lemma PerformOk(c: Conn, n: nat)
    requires ConnOk(c) && c.life == Open && 1 <= n <= |c.inbound|
    requires c.sent != [] && |c.received| + n == |Wire(Outstanding(c))|
    ensures c.client.Awaiting? && c.inbound[n..] == [] && c.received + c.inbound[..n] == Wire(Outstanding(c))
    ensures ConnOk(Performed(ReadBytes(c, n), PacketOf(Outstanding(c))))
  {
    hide EncodePacket;
    ReceivedIsFront(c);
    var wire := Wire(Outstanding(c));
    assert c.inbound == c.inbound[..n] + c.inbound[n..];
    assert c.received + c.inbound[..n] == wire;
    assert c.inbound[n..] == [];
    var done := c.done + 1;
    assert c.sent[..done] == c.sent && c.sent[..done][..c.done] == c.sent[..c.done];
    TidPerformed(Outstanding(c));
    assert [] + [] == ACK[..0];
  }

  lemma TidPerformed(r: Request)
    requires r.Sendable()
    ensures r.Tid? ==> |PacketOf(r).payload| == 4 && U32At(PacketOf(r).payload, 0) == r.tid
  {
    hide Le, U32At;
    if r.Tid? {
      TidRoundTrip(r.tid);
    }
  }

  lemma AckOk(c: Conn, n: nat)
    requires ConnOk(c) && c.acked < PACKET_HEADER && 1 <= n && c.acked + n <= PACKET_HEADER
    requires c.acked + n < PACKET_HEADER || !c.terminated
    ensures ConnOk(AckBytes(c, n))
  {
    AckTraffic(c, n);
  }

  lemma AckTraffic(c: Conn, n: nat)
    requires ConnOk(c) && c.acked < PACKET_HEADER && c.acked + n <= PACKET_HEADER
    ensures c.client.Awaiting? && c.done == |c.sent| && c.received == c.inbound == [] && c.life == Open
    ensures c.client.got + AckBytes(c, n).outbound == ACK[..c.acked + n]
  {
    hide EncodePacket, LastTid;
    assert |ACK| == PACKET_HEADER;
    var written := ACK[c.acked..c.acked + n];
    assert ACK[..c.acked] + written == ACK[..c.acked + n];
    assert c.client.got + (c.outbound + written) == (c.client.got + c.outbound) + written;
  }

  /** A detach is acknowledged in full before its session is freed. */
  lemma FreeOk(c: Conn, n: nat)
    requires ConnOk(c) && c.acked < PACKET_HEADER && c.acked + n == PACKET_HEADER && c.terminated
    ensures ConnOk(Freeing(AckBytes(c, n)))
  {
    AckTraffic(c, n);
  }

  lemma AcceptOk(c: Conn, edge: bool)
    requires ConnOk(c) && c.life == Queued
    ensures ConnOk(Registered(c, edge)) && Registered(c, edge) == c.(life := Open, edge := edge)
  {
    hide EncodePacket;
  }

  lemma VanishOk(c: Conn)
    requires ConnOk(c) && c.client != Closed
    ensures ConnOk(Vanished(c))
  {
    hide EncodePacket;
  }

  lemma EdgeOk(c: Conn, edge: bool)
    requires ConnOk(c) && c.life == Open
    ensures ConnOk(c.(edge := edge))
  {
  }
}
