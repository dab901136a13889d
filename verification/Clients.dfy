/** The client side of the monitor protocol (external/bcd/bcd-amalgamated.c): each call builds
    one packet in a buffer, writes it, and waits for eight bytes of acknowledgement. */
module Clients {
  import opened Bytes
  import opened Packets
  import opened Sockets

  /** Eight bytes were taken off the channel, and they say OK. */
  predicate TookOk(before: seq<byte>, after: seq<byte>)
  {
    |before| == PACKET_HEADER + |after| && before[PACKET_HEADER..] == after && U32At(before, 0) == OP_OK
  }

  /** An acknowledgement that says OK is there to be read. */
  predicate AckUnread(unread: seq<byte>)
  {
    |unread| >= PACKET_HEADER && U32At(unread, 0) == OP_OK
  }

  /** Why a wait for an acknowledgement fails: the answer was another one, the stream has ended,
      or it timed out with nothing to read. */
  predicate NoAnswer(fd: Socket, before: seq<byte>)
    reads fd
  {
    || (Took(before, fd.Stream(), PACKET_HEADER) && U32At(before, 0) != OP_OK)
    || (fd.closes && fd.Stream() == [])
    || fd.unread == []
  }

  predicate Took(before: seq<byte>, after: seq<byte>, k: nat)
  {
    k <= |before| && before[k..] == after
  }

  /** All of `bytes` was written, or on a failure some proper part from its front. */
  ghost predicate Delivered(before: seq<byte>, after: seq<byte>, bytes: seq<byte>, whole: bool)
  {
    if whole then after == before + bytes
    else exists k :: 0 <= k < |bytes| && after == before + bytes[..k]
  }

  /** bcd_packet_write: the length field is stored, then everything is written. */
  method PacketWrite(fd: Socket, packet: array<byte>, length: nat, ghost p: Packet) returns (ret: int)
    requires p.Valid() && length == |p.payload| && PACKET_HEADER + length <= packet.Length
    requires packet[..4] == Le(p.op, 4) && packet[PACKET_HEADER..PACKET_HEADER + length] == p.payload
    modifies packet, fd`unread, fd`coming, fd`output, fd`space, fd`spaceComing, fd`signals
    ensures ret == PACKET_HEADER + length || ret == -1
    ensures fd.Stream() == old(fd.Stream()) && |fd.coming| <= old(|fd.coming|)
    ensures Delivered(old(fd.output), fd.output, EncodePacket(p), ret != -1)
    ensures ret == -1 ==> fd.space == 0
    ensures old(fd.space) >= PACKET_HEADER + length ==> ret != -1
  {
    hide Le, Splice;
    ghost var before := packet[..];
    Store(packet, 4, Le(length, 4));
    LengthStored(before, p);
    assert packet[..PACKET_HEADER + length] == packet[..][..PACKET_HEADER + length];
    ret := FdWrite(fd, packet[..PACKET_HEADER + length]);
  }

  lemma LengthStored(b: seq<byte>, p: Packet)
    requires p.Valid() && PACKET_HEADER + |p.payload| <= |b|
    requires b[..4] == Le(p.op, 4) && b[PACKET_HEADER..PACKET_HEADER + |p.payload|] == p.payload
    ensures Splice(b, 4, Le(|p.payload|, 4))[..PACKET_HEADER + |p.payload|] == EncodePacket(p)
  {
    hide Le;
    var c := Splice(b, 4, Le(|p.payload|, 4));
    assert c[..8] == b[..4] + Le(|p.payload|, 4);
    assert c[8..8 + |p.payload|] == b[8..8 + |p.payload|];
    assert c[..8 + |p.payload|] == c[..8] + c[8..8 + |p.payload|];
  }

  /** bcd_channel_read_ack: it fails only over another answer, the end of the stream, or a timeout
      with nothing to read. */
  method ReadAck(fd: Socket) returns (ret: int)
    modifies fd`unread, fd`coming, fd`space, fd`spaceComing, fd`signals
    ensures ret == 0 || ret == -1
    ensures ret == 0 <==> TookOk(old(fd.Stream()), fd.Stream())
    ensures ret == -1 ==> NoAnswer(fd, old(fd.Stream()))
    ensures AckUnread(old(fd.unread)) ==> ret == 0
    ensures exists k :: 0 <= k <= PACKET_HEADER && Took(old(fd.Stream()), fd.Stream(), k)
  {
    ghost var before, unread := fd.Stream(), fd.unread;
    assert AckUnread(unread) ==> before[0..4] == unread[0..4];
    var r, bytes := FdRead(fd, PACKET_HEADER);
    ret := -1;
    assert Took(before, fd.Stream(), |bytes|);
    if r == PACKET_HEADER {
      assert before[PACKET_HEADER..] == fd.Stream();
      assert before[0..4] == bytes[0..4];
      ret := if U32At(bytes, 0) == OP_OK then 0 else -1;
    }
  }

  /** What every call promises: 0 exactly when the request was written in full and then eight
      bytes that say OK were read; otherwise -1 with at most a part of either. */
  ghost predicate Answered(output: seq<byte>, output': seq<byte>, input: seq<byte>, input': seq<byte>,
                           r: Request, ret: int)
    requires r.Sendable()
  {
    && (ret == 0 || ret == -1)
    && (ret == 0 <==> Delivered(output, output', EncodePacket(PacketOf(r)), true) && TookOk(input, input'))
    && (ret == -1 ==>
          Delivered(output, output', EncodePacket(PacketOf(r)), true)
          || Delivered(output, output', EncodePacket(PacketOf(r)), false))
    && (exists k :: 0 <= k <= PACKET_HEADER && Took(input, input', k))
  }

  /** And that it fails only for a reason: no room to write, or no answer. With room for the
      request, and the acknowledgement there to be read, it returns 0. */
  predicate Goes(fd: Socket, input: seq<byte>, unread: seq<byte>, space: nat, r: Request, ret: int, wrote: bool)
    requires r.Sendable()
    reads fd
  {
    && (ret == -1 && !wrote ==> fd.space == 0)
    && (ret == -1 && wrote ==> NoAnswer(fd, input))
    && (space >= |EncodePacket(PacketOf(r))| && AckUnread(unread) ==> ret == 0)
  }

  /** What could be read still can while only more arrives. */
  lemma StillUnread(unread: seq<byte>, coming: seq<byte>, unread': seq<byte>, coming': seq<byte>)
    requires unread + coming == unread' + coming' && |coming'| <= |coming|
    ensures unread <= unread' && (AckUnread(unread) ==> AckUnread(unread'))
  {
    assert unread == (unread + coming)[..|unread|] == (unread' + coming')[..|unread|] == unread'[..|unread|];
    assert |unread| >= 4 ==> unread[0..4] == unread'[0..4];
  }

  /** The two halves of every call; `closed` tells whether a failed write closes the channel. */
  method Transact(fd: Socket, packet: array<byte>, length: nat, ghost r: Request) returns (ret: int, wrote: bool)
    requires r.Sendable() && length == |PacketOf(r).payload| && PACKET_HEADER + length <= packet.Length
    requires packet[..4] == Le(PacketOf(r).op, 4)
    requires packet[PACKET_HEADER..PACKET_HEADER + length] == PacketOf(r).payload
    modifies packet, fd
    ensures Answered(old(fd.output), fd.output, old(fd.Stream()), fd.Stream(), r, ret)
    ensures wrote <==> Delivered(old(fd.output), fd.output, EncodePacket(PacketOf(r)), true)
    ensures Goes(fd, old(fd.Stream()), old(fd.unread), old(fd.space), r, ret, wrote)
  {
    hide Le, PacketOf, EncodePacket;
    ghost var unread, coming := fd.unread, fd.coming;
    var written := PacketWrite(fd, packet, length, PacketOf(r));
    NotBoth(old(fd.output), fd.output, EncodePacket(PacketOf(r)));
    if written == -1 {
      assert Took(old(fd.Stream()), fd.Stream(), 0);
      return -1, false;
    }
    StillUnread(unread, coming, fd.unread, fd.coming);
    ret := ReadAck(fd);
    wrote := true;
  }

  lemma NotBoth(before: seq<byte>, after: seq<byte>, bytes: seq<byte>)
    ensures !(Delivered(before, after, bytes, true) && Delivered(before, after, bytes, false))
  {
  }

  /** bcd_kv. A pair too long for a packet is refused before anything is written. */
  method Kv(fd: Socket, key: seq<byte>, value: seq<byte>) returns (ret: int, closed: bool)
    requires NulFree(key) && NulFree(value)
    modifies fd
    ensures !Request.Kv(key, value).Sendable() ==>
      ret == -1 && !closed && fd.output == old(fd.output) && fd.Stream() == old(fd.Stream())
    ensures var r := Request.Kv(key, value);
      r.Sendable() ==>
        && Answered(old(fd.output), fd.output, old(fd.Stream()), fd.Stream(), r, ret)
        && Goes(fd, old(fd.Stream()), old(fd.unread), old(fd.space), r, ret, !closed)
        && (closed <==> !Delivered(old(fd.output), fd.output, EncodePacket(PacketOf(r)), true))
  {
    hide Le, EncodePacket, Answered, Delivered, Goes;
    var keyLength, valueLength := |key| + 1, |value| + 1;
    if keyLength + valueLength > PACKET_LIMIT {
      return -1, false;
    }
    var packet := new byte[PACKET_HEADER + PACKET_LIMIT](_ => 0);
    Store(packet, 0, Le(OP_KV, 4));
    Store(packet, PACKET_HEADER, key + [0]);
    Store(packet, PACKET_HEADER + keyLength, value + [0]);
    assert packet[..4] == packet[..][..4] == Le(OP_KV, 4);
    assert packet[8..8 + keyLength + valueLength]
        == packet[..][8..8 + keyLength + valueLength] == KvPayload(key, value);
    var wrote;
    ret, wrote := Transact(fd, packet, keyLength + valueLength, Request.Kv(key, value));
    closed := !wrote;
  }

  /** bcd_arg. */
  method Arg(fd: Socket, text: seq<byte>) returns (ret: int, closed: bool)
    requires NulFree(text)
    modifies fd
    ensures !Request.Arg(text).Sendable() ==>
      ret == -1 && !closed && fd.output == old(fd.output) && fd.Stream() == old(fd.Stream())
    ensures var r := Request.Arg(text);
      r.Sendable() ==>
        && Answered(old(fd.output), fd.output, old(fd.Stream()), fd.Stream(), r, ret)
        && Goes(fd, old(fd.Stream()), old(fd.unread), old(fd.space), r, ret, !closed)
        && (closed <==> !Delivered(old(fd.output), fd.output, EncodePacket(PacketOf(r)), true))
  {
    hide Le, EncodePacket, Answered, Delivered, Goes;
    var length := |text| + 1;
    if length > PACKET_LIMIT {
      return -1, false;
    }
    var packet := new byte[PACKET_HEADER + PACKET_LIMIT](_ => 0);
    Store(packet, 0, Le(OP_ARG, 4));
    Store(packet, PACKET_HEADER, text + [0]);
    assert packet[..4] == packet[..][..4] == Le(OP_ARG, 4);
    assert packet[8..8 + length] == packet[..][8..8 + length] == text + [0];
    var wrote;
    ret, wrote := Transact(fd, packet, length, Request.Arg(text));
    closed := !wrote;
  }

  /** bcd_associate_tid, and what bcd_attach sends first; an unattached client has no channel. */
  method AssociateTid(fd: Socket?, tid: uint32) returns (ret: int)
    modifies fd
    ensures fd == null ==> ret == -1
    ensures fd != null ==>
      && Answered(old(fd.output), fd.output, old(fd.Stream()), fd.Stream(), Request.Tid(tid), ret)
      && Goes(fd, old(fd.Stream()), old(fd.unread), old(fd.space), Request.Tid(tid), ret,
              Delivered(old(fd.output), fd.output, EncodePacket(PacketOf(Request.Tid(tid))), true))
  {
    hide Le, EncodePacket, Answered, Delivered, Goes;
    if fd == null {
      return -1;
    }
    var packet := new byte[PACKET_HEADER + 4](_ => 0);
    Store(packet, PACKET_HEADER, Le(tid, 4));
    ghost var payload := packet[..];
    assert payload[8..12] == Le(tid, 4);
    Store(packet, 0, Le(OP_TID, 4));
    assert packet[..][8..12] == payload[8..12];
    assert packet[..4] == packet[..][..4] == Le(OP_TID, 4);
    assert packet[8..12] == packet[..][8..12];
    var wrote;
    ret, wrote := Transact(fd, packet, 4, Request.Tid(tid));
  }

  /** bcd_backtrace. */
  method Backtrace(fd: Socket, thread: bool) returns (ret: int)
    modifies fd
    ensures var r := if thread then TraceThread else TraceProcess;
      && Answered(old(fd.output), fd.output, old(fd.Stream()), fd.Stream(), r, ret)
      && Goes(fd, old(fd.Stream()), old(fd.unread), old(fd.space), r, ret,
              Delivered(old(fd.output), fd.output, EncodePacket(PacketOf(r)), true))
  {
    hide Le, EncodePacket, Answered, Delivered, Goes;
    var op := if thread then OP_TR_THREAD else OP_TR_PROCESS;
    var packet := new byte[PACKET_HEADER](_ => 0);
    Store(packet, 0, Le(op, 4));
    assert packet[..4] == packet[..][..4] == Le(op, 4);
    assert packet[8..8] == [];
    var wrote;
    ret, wrote := Transact(fd, packet, 0, if thread then TraceThread else TraceProcess);
  }

  /** bcd_detach: an unattached client has nothing to do; otherwise the channel is closed
      whatever the answer. */
  method Detach(fd: Socket?) returns (ret: int, closed: bool)
    modifies fd
    ensures fd == null ==> ret == 0 && !closed
    ensures fd != null ==>
      && closed && Answered(old(fd.output), fd.output, old(fd.Stream()), fd.Stream(), Request.Detach, ret)
      && Goes(fd, old(fd.Stream()), old(fd.unread), old(fd.space), Request.Detach, ret,
              Delivered(old(fd.output), fd.output, EncodePacket(PacketOf(Request.Detach)), true))
  {
    hide Le, EncodePacket, Answered, Delivered, Goes;
    if fd == null {
      return 0, false;
    }
    closed := true;
    var packet := new byte[PACKET_HEADER](_ => 0);
    Store(packet, 0, Le(OP_DETACH, 4));
    assert packet[..4] == packet[..][..4] == Le(OP_DETACH, 4);
    assert packet[8..8] == [];
    var wrote;
    ret, wrote := Transact(fd, packet, 0, Request.Detach);
  }
}
