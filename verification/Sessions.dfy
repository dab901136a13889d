/** One monitor session (external/bcd/bcd-amalgamated.c): reassembling a request from short
    reads, performing it, and acknowledging it. */
module Sessions {
  import opened Bytes
  import opened Packets
  import opened Stores
  import opened Sockets
  import Argv

  /** The payload length bcd_read_request starts from when some bytes came earlier: the header
      is consulted only beyond its own eight bytes. */
  function EntryTarget(received: seq<byte>): nat
  {
    if |received| > PACKET_HEADER then LengthField(received) else 0
  }

  /** The payload length it uses after a read. */
  function LoopTarget(received: seq<byte>): nat
  {
    if |received| >= PACKET_HEADER then LengthField(received) else 0
  }

  /** What is left of the current request when a read finds nothing: a proper part. */
  predicate Partial(received: seq<byte>)
  {
    |received| < PACKET_HEADER + LoopTarget(received) <= PACKET_HEADER + PACKET_LIMIT
  }

  /** Why a read can come back with nothing: it resumes after exactly a header, or the peer has
      closed and what came is only part of a packet. */
  predicate ReadsNothing(offset: nat, input: seq<byte>, closes: bool, left: seq<byte>)
  {
    offset == PACKET_HEADER || (closes && left == [] && Partial(input))
  }

  predicate Oversized(input: seq<byte>)
  {
    |input| >= PACKET_HEADER && LengthField(input) > PACKET_LIMIT
  }

  /** The input begins with a whole packet of admissible size, which takes FrontLength bytes. */
  predicate HasFront(input: seq<byte>)
  {
    |input| >= PACKET_HEADER && LengthField(input) <= PACKET_LIMIT && PACKET_HEADER + LengthField(input) <= |input|
  }

  function FrontLength(input: seq<byte>): nat
    requires HasFront(input)
  {
    PACKET_HEADER + LengthField(input)
  }

  function Front(input: seq<byte>): Packet
    requires HasFront(input)
  {
    Packet(U32At(input, 0), input[PACKET_HEADER..FrontLength(input)])
  }

  /** The packet in front lies within the first n bytes of the input. */
  predicate Arrived(input: seq<byte>, n: nat)
  {
    HasFront(input) && FrontLength(input) <= n
  }

  /** How bcd_read_request comes back: with a packet, with -1 and EAGAIN, with 0 because the
      session had ended, or not at all. */
  datatype ReadOutcome = Complete | Again | Ended | Died

  /** struct bcd_session. */
  class Session {
    var tid: uint32
    var terminated: bool
    var offset: nat
    const packet: array<byte>

    ghost predicate Valid()
      reads this
    {
      packet.Length == PACKET_HEADER + PACKET_LIMIT && offset <= packet.Length
    }

    /** The bytes of the current request kept from earlier reads. */
    function Received(): seq<byte>
      requires offset <= packet.Length
      reads this, packet
    {
      packet[..offset]
    }

    /** bcd_handler_accept clears the session. */
    constructor ()
      ensures Valid() && fresh(packet) && offset == 0 && !terminated && tid == 0
    {
      tid, terminated, offset := 0, false, 0;
      packet := new byte[PACKET_HEADER + PACKET_LIMIT](_ => 0);
    }

    /** bcd_read_request. Whatever way the stream is chopped up, a completed call has taken
        exactly one packet off it, and an interrupted one, which found nothing more to read, has
        kept everything it took; so a packet that has arrived is completed. A read of
        nothing, after a pause at exactly the header or at the end of the stream, ends a
        session that was to end and kills the monitor otherwise; so does an oversized packet. */
    method ReadRequest(fd: Socket) returns (ret: ReadOutcome)
      requires Valid() && (offset == PACKET_HEADER || Partial(Received()))
      modifies this`offset, packet, fd`unread, fd`coming, fd`space, fd`spaceComing, fd`signals
      ensures Valid()
      ensures old(fd.space) <= fd.space && fd.space + fd.spaceComing == old(fd.space + fd.spaceComing)
      ensures |fd.coming| <= old(|fd.coming|)
      ensures old(offset) == PACKET_HEADER ==> ret == if terminated then Ended else Died
      ensures old(offset) != PACKET_HEADER && Arrived(old(Received() + fd.Stream()), old(offset + |fd.unread|)) ==>
        ret == Complete
      ensures var input := old(Received() + fd.Stream());
        match ret
        case Complete =>
          && offset == 0
          && var n := PACKET_HEADER + LengthField(packet[..]);
             n <= packet.Length && Whole(packet[..n]) && packet[..n] + fd.Stream() == input
        case Again => fd.unread == [] && Partial(Received()) && Received() + fd.Stream() == input
        case Ended => terminated && offset == old(offset) && ReadsNothing(offset, input, fd.closes, fd.Stream())
        case Died =>
          && offset == old(offset)
          && ((!terminated && ReadsNothing(offset, input, fd.closes, fd.Stream())) || Oversized(input))
    {
      hide LengthField, Partial, LoopTarget, Whole, Oversized, Arrived;
      ghost var input := Received() + fd.Stream();
      ghost var here := offset + |fd.unread|;
      var ac := offset;
      var target := 0;
      if ac > PACKET_HEADER {
        target := LengthField(packet[..]);
      }
      Resumed(packet[..ac], packet[..]);
      while true
        invariant 0 <= ac <= packet.Length && offset == old(offset)
        invariant packet[..ac] + fd.Stream() == input
        invariant (ac == old(offset) == PACKET_HEADER && target == 0)
               || (target == LoopTarget(packet[..ac]) && Partial(packet[..ac])
                   && ac < PACKET_HEADER + target <= packet.Length)
        invariant old(offset) == PACKET_HEADER ==> ac == PACKET_HEADER && target == 0
        invariant old(fd.space) <= fd.space && fd.space + fd.spaceComing == old(fd.space + fd.spaceComing)
        invariant |fd.coming| <= old(|fd.coming|)
        decreases packet.Length - ac, fd.signals
      {
        ghost var before := packet[..ac];
        var r := Fetch(fd, ac, PACKET_HEADER + target - ac);
        match r
        case ReadInterrupted => continue;
        case ReadAgain =>
          if old(offset) != PACKET_HEADER {
            NotArrived(packet[..ac], fd.coming, input, here);
          }
          offset := ac;
          return Again;
        case Data(bytes) =>
          if bytes == [] {
            assert before + [] == before;
            assert ac != PACKET_HEADER + target ==> fd.Stream() == [] && before + fd.Stream() == before == input;
            if old(offset) != PACKET_HEADER {
              NotArrived(packet[..ac], fd.Stream(), input, here);
            }
            return if terminated then Ended else Died;
          }
          ac := ac + |bytes|;
          ReadStep(before, bytes, target, packet[..], input);
          if ac >= PACKET_HEADER {
            target := LengthField(packet[..]);
            if target > PACKET_LIMIT {
              OversizedNotArrived(input, here);
              return Died;
            }
          }
          if !(ac < PACKET_HEADER + target) {
            offset := 0;
            return Complete;
          }
      }
    }

    /** read(2) into the session's packet. */
    method Fetch(fd: Socket, at: nat, n: nat) returns (r: ReadResult)
      requires at + n <= packet.Length
      modifies packet, fd`unread, fd`coming, fd`space, fd`spaceComing, fd`signals
      ensures old(fd.space) <= fd.space && fd.space + fd.spaceComing == old(fd.space + fd.spaceComing)
      ensures |fd.coming| <= old(|fd.coming|)
      ensures match r
        case Data(bytes) =>
          && |bytes| <= n && fd.signals == old(fd.signals)
          && packet[..at + |bytes|] == old(packet[..at]) + bytes
          && packet[..at + |bytes|] + fd.Stream() == old(packet[..at] + fd.Stream())
          && (bytes == [] ==> n == 0 || (fd.closes && fd.Stream() == []))
        case ReadAgain => n > 0 && packet[..] == old(packet[..]) && fd.Stream() == old(fd.Stream()) && fd.unread == []
        case ReadInterrupted =>
          && n > 0 && packet[..] == old(packet[..]) && fd.Stream() == old(fd.Stream())
          && fd.signals < old(fd.signals)
    {
      ghost var before, stream := packet[..], fd.Stream();
      r := fd.Read(n);
      if r.Data? {
        Store(packet, at, r.bytes);
        assert packet[..][..at + |r.bytes|] == before[..at] + r.bytes;
        assert (before[..at] + r.bytes) + fd.Stream() == before[..at] + (r.bytes + fd.Stream());
      }
    }

    /** The session's packet becomes an acknowledgement with no payload. */
    method MakeAck()
      requires Valid()
      modifies packet
      ensures packet[..PACKET_HEADER] == ACK
    {
      hide Le;
      ghost var before := packet[..];
      Store(packet, 0, Le(OP_OK, 4) + Le(0, 4));
      assert packet[..PACKET_HEADER] == packet[..][..PACKET_HEADER] == Le(OP_OK, 4) + Le(0, 4);
    }

    /** bcd_write_ack: 0 or, when the socket is full, -1. */
    method WriteAck(fd: Socket) returns (ret: int)
      requires Valid() && offset < PACKET_HEADER
      modifies this`offset, packet, fd`unread, fd`coming, fd`output, fd`space, fd`spaceComing, fd`signals
      ensures Valid() && fd.Stream() == old(fd.Stream())
      ensures ret == 0 || ret == -1
      ensures ret == 0 ==> offset == 0 && fd.output == old(fd.output) + ACK[old(offset)..]
      ensures ret == -1 ==>
        old(offset) <= offset < PACKET_HEADER && fd.output == old(fd.output) + ACK[old(offset)..offset] && fd.space == 0
      ensures old(fd.space) >= PACKET_HEADER - old(offset) ==> ret == 0
    {
      MakeAck();
      var ac := Send(fd, packet[..PACKET_HEADER], offset);
      if ac < PACKET_HEADER {
        offset := ac;
        return -1;
      }
      offset := 0;
      return 0;
    }
  }

  /** The loop of bcd_write_ack: how far it gets through `bytes` before the socket is full. */
  method Send(fd: Socket, bytes: seq<byte>, start: nat) returns (ac: nat)
    requires start < |bytes|
    modifies fd`unread, fd`coming, fd`output, fd`space, fd`spaceComing, fd`signals
    ensures start <= ac <= |bytes| && fd.Stream() == old(fd.Stream())
    ensures fd.output == old(fd.output) + bytes[start..ac]
    ensures ac < |bytes| ==> fd.space == 0
    ensures old(fd.space) >= |bytes| - start ==> ac == |bytes|
  {
    ac := start;
    while ac < |bytes|
      invariant start <= ac <= |bytes|
      invariant fd.Stream() == old(fd.Stream())
      invariant fd.output == old(fd.output) + bytes[start..ac]
      invariant fd.space + ac >= old(fd.space) + start
      decreases |bytes| - ac, fd.signals
    {
      var r := fd.Write(bytes[ac..]);
      match r
      case WriteInterrupted => continue;
      case WriteAgain => return;
      case Wrote(n) =>
        assert bytes[start..ac] + bytes[ac..][..n] == bytes[start..ac + n];
        ac := ac + n;
    }
  }

  /** The length a resumed call starts from is the right one, except after exactly a header. */
  lemma Resumed(received: seq<byte>, packet: seq<byte>)
    requires received <= packet && (|received| == PACKET_HEADER || Partial(received))
    ensures |received| != PACKET_HEADER ==>
      && (if |received| > PACKET_HEADER then LengthField(packet) else 0) == LoopTarget(received)
      && |received| < PACKET_HEADER + LoopTarget(received) <= PACKET_HEADER + PACKET_LIMIT
  {
    hide LengthField;
    if |received| > PACKET_HEADER {
      SameLength(packet, received);
    }
  }

  /** A session that holds only part of a packet when nothing more is there has not got it. */
  lemma NotArrived(received: seq<byte>, coming: seq<byte>, input: seq<byte>, here: nat)
    requires Partial(received) && received + coming == input && here <= |received|
    ensures !Arrived(input, here)
  {
    hide LengthField;
    if Arrived(input, here) {
      SameLength(received, input);
    }
  }

  lemma OversizedNotArrived(input: seq<byte>, here: nat)
    ensures Oversized(input) ==> !Arrived(input, here)
  {
  }

  /** One nonempty read of at most what the loop asks for: it never runs past the packet. */
  lemma ReadStep(before: seq<byte>, bytes: seq<byte>, target: nat, packet: seq<byte>, input: seq<byte>)
    requires bytes != [] && |before| + |bytes| <= PACKET_HEADER + target
    requires target == LoopTarget(before) && Partial(before)
    requires before + bytes <= packet && before + bytes <= input
    ensures var after := before + bytes;
      if |after| < PACKET_HEADER then target == LoopTarget(after) == 0 && Partial(after)
      else
        var length := LengthField(packet);
        && (length > PACKET_LIMIT ==> Oversized(input))
        && (length <= PACKET_LIMIT ==>
             if |after| < PACKET_HEADER + length then LoopTarget(after) == length && Partial(after)
             else |after| == PACKET_HEADER + length && Whole(after))
  {
    hide LengthField;
    var after := before + bytes;
    if |after| >= PACKET_HEADER {
      SameLength(after, packet);
      SameLength(after, input);
      if |before| >= PACKET_HEADER {
        SameLength(before, after);
      }
    }
  }

  /** How bcd_handler_request_response leaves the session: unlinked until more input comes,
      unlinked in the middle of an acknowledgement, still linked, closed and freed, or with the
      whole monitor gone. */
  datatype Fate = Parked | Blocked | Open | Freed | Exited

  /** What a buffer whose first n bytes are one packet is performed as: an argument is read up
      to its NUL, wherever the packet ends. */
  function Performed(buffer: seq<byte>, n: nat): Packet
    requires n <= |buffer| && Whole(buffer[..n])
  {
    var p := PacketIn(buffer[..n]);
    if p.op == OP_ARG then p.(payload := buffer[PACKET_HEADER..]) else p
  }

  /** For the packets of bcd_arg, and all others, that is the packet itself. */
  lemma PerformedIsPacket(buffer: seq<byte>, n: nat, lists: Lists)
    requires n <= |buffer| && Whole(buffer[..n])
    requires PacketIn(buffer[..n]).op == OP_ARG ==> 0 in PacketIn(buffer[..n]).payload
    ensures Perform(lists, Performed(buffer, n)) == Perform(lists, PacketIn(buffer[..n]))
    ensures Performed(buffer, n).op == PacketIn(buffer[..n]).op
    ensures Performed(buffer, n).op == OP_ARG ==> 0 in buffer[PACKET_HEADER..]
    ensures Performed(buffer, n).op != OP_ARG ==> Performed(buffer, n) == PacketIn(buffer[..n])
  {
    hide ArgIn, KvIn, ArgPut, KvPut, NumberAt;
    var p, payload := PacketIn(buffer[..n]), buffer[PACKET_HEADER..];
    if p.op == OP_ARG {
      assert payload[..n - PACKET_HEADER] == p.payload;
      ArgOfPrefix(payload, n - PACKET_HEADER);
    }
  }

  /** bcd_backtrace_thread or bcd_backtrace_process up to running the tracer, which has no effect
      here: the vector handed to it. */
  method Trace(target: Argv.Target, kvs: KvStore, args: ArgStore, invoke: Argv.Invoke, env: Argv.Surroundings)
    returns (handed: Option<seq<Argv.Slot>>)
    requires kvs.Valid() && args.Valid() && Argv.Fits(target, invoke, args.list, kvs.list)
    ensures Argv.Hands(handed, env, invoke, args.list, kvs.list,
                       if target.Process? && !env.pathCopied then Argv.Null else Argv.Str(invoke.path),
                       match target
                         case Process => None
                         case Thread(tid) =>
                           if invoke.tp.Some? then Some(invoke.tp.value + Argv.Decimal(tid)) else None)
  {
    hide KvAfter, ArgsAfter, KvLength, ArgLength, Argv.Layout, Argv.Fits, Argv.KvStrings, Argv.Decimal;
    Argv.FitsIsExact(target, invoke, env.pid, args.list, kvs.list);
    Argv.FittingVector(target, invoke, env.pid, args.list, kvs.list);
    Argv.FittingAllocations(target, invoke, env.pid, args.list, kvs.list);
    var argv, end := Argv.BuildArgv(target, invoke, env.pid, args, kvs, env.admitted, env.pathCopied, env.memory,
                                    Argv.ARGC_LIMIT);
    handed := None;
    if argv.Some? {
      assert argv.value[..][..end] == argv.value[..end];
      handed := Some(argv.value[..end]);
    }
  }

  /** Which vector an operation hands to the tracer, when the session speaks for thread `tid`. */
  predicate HandsOver(handed: Option<seq<Argv.Slot>>, env: Argv.Surroundings, invoke: Argv.Invoke, lists: Lists,
                      op: uint32, tid: uint32)
  {
    var path := Argv.Str(invoke.path);
    if op == OP_TR_THREAD then
      Argv.Hands(handed, env, invoke, lists.args, lists.kvs, path,
                 if invoke.tp.Some? then Some(invoke.tp.value + Argv.Decimal(tid)) else None)
    else if op == OP_TR_PROCESS || op == OP_TR_FATAL then
      Argv.Hands(handed, env, invoke, lists.args, lists.kvs, if env.pathCopied then path else Argv.Null, None)
    else handed == None
  }

  /** bcd_perform_request on the session's packet, whose first n bytes are one packet. A trace,
      whose vector must fit, hands that vector to the tracer and leaves the stores alone: the
      thread form for the session's own thread, else the process form. After the trace of a fatal
      error the monitor exits. */
  method PerformRequest(session: Session, kvs: KvStore, args: ArgStore, memory: bool, invoke: Argv.Invoke,
                        env: Argv.Surroundings, n: nat)
    returns (exits: bool, handed: Option<seq<Argv.Slot>>)
    requires session.Valid() && kvs.Valid() && args.Valid()
    requires n <= session.packet.Length && Whole(session.packet[..n])
    requires PacketIn(session.packet[..n]).op == OP_ARG ==> 0 in session.packet[PACKET_HEADER..]
    requires Argv.TraceFits(invoke, Lists(kvs.list, args.list), PacketIn(session.packet[..n]).op)
    modifies session`tid, session`terminated, kvs, args
    ensures kvs.Valid() && args.Valid()
    ensures var p := Performed(session.packet[..], n);
      && Lists(kvs.list, args.list) ==
           (if memory then Perform(Lists(old(kvs.list), old(args.list)), p) else Lists(old(kvs.list), old(args.list)))
      && (p.op == OP_TID ==> session.tid == U32At(session.packet[PACKET_HEADER..], 0))
      && (p.op == OP_TID && |p.payload| >= 4 ==> session.tid == U32At(p.payload, 0))
      && (p.op != OP_TID ==> session.tid == old(session.tid))
      && session.terminated == (old(session.terminated) || p.op == OP_DETACH)
      && exits == (p.op == OP_TR_FATAL)
      && HandsOver(handed, env, invoke, Lists(old(kvs.list), old(args.list)), p.op, old(session.tid))
  {
    hide NumberAt, KvIn, ArgIn, KvPut, ArgPut, KvAfter, ArgsAfter, KvLength, ArgLength, Argv.Fits, Argv.Hands;
    exits, handed := false, None;
    ghost var p := PacketIn(session.packet[..n]);
    assert session.packet[..][..n] == session.packet[..n];
    assert session.packet[..][PACKET_HEADER..] == session.packet[PACKET_HEADER..];
    var op := U32At(session.packet[..], 0);
    var length := LengthField(session.packet[..]);
    var payload := session.packet[PACKET_HEADER..];
    HeaderOfPrefix(session.packet[..], n);
    assert payload[..length] == p.payload;
    if op == OP_TID {
      if length >= 4 {
        TidOfPrefix(payload, length);
      }
      session.tid := U32At(payload, 0);
    } else if op == OP_KV {
      var _ := kvs.Set(payload, length, memory);
    } else if op == OP_ARG {
      var _ := args.Set(payload, memory);
    } else if op == OP_TR_THREAD {
      SameThread(args.list, kvs.list, invoke, session.tid);
      handed := Trace(Argv.Thread(session.tid), kvs, args, invoke, env);
    } else if op == OP_TR_PROCESS {
      handed := Trace(Argv.Process, kvs, args, invoke, env);
    } else if op == OP_TR_FATAL {
      handed := Trace(Argv.Process, kvs, args, invoke, env);
      exits := true;
    } else if op == OP_DETACH {
      session.terminated := true;
    }
  }

  /** Which thread is traced does not matter for the vector's size. */
  lemma SameThread(args: seq<Text>, kvs: seq<Pair>, invoke: Argv.Invoke, tid: uint32)
    ensures Argv.Fits(Argv.Thread(tid), invoke, args, kvs) <==> Argv.Fits(Argv.Thread(0), invoke, args, kvs)
  {
  }

  lemma HeaderOfPrefix(b: seq<byte>, n: nat)
    requires PACKET_HEADER <= n <= |b|
    ensures LengthField(b[..n]) == LengthField(b) && U32At(b[..n], 0) == U32At(b, 0)
  {
    assert b[..n][4..8] == b[4..8] && b[..n][0..4] == b[0..4];
  }

  lemma TidOfPrefix(payload: seq<byte>, n: nat)
    requires 4 <= n <= |payload|
    ensures U32At(payload[..n], 0) == U32At(payload, 0)
  {
    assert payload[..n][0..4] == payload[0..4];
  }

  lemma ArgOfPrefix(payload: seq<byte>, n: nat)
    requires n <= |payload| && 0 in payload[..n]
    ensures ArgIn(payload[..n]) == ArgIn(payload) && 0 in payload
  {
    var m := FirstNul(payload[..n]);
    var i :| 0 <= i < n && payload[..n][i] == 0;
    assert !NulFree(payload[..n]);
    assert payload[..n][..|payload[..n]|] == payload[..n];
    assert payload[..n][..m] == payload[..m];
    FirstNulAt(payload, m);
  }

  /** bcd_handler_request_response, on any input (an argument in front must have its NUL, and the
      vector of a trace in front must fit). Either the packet in front is still incomplete and
      all is kept; or the session had ended and is freed; or the packet is performed exactly once
      and then acknowledged; or the monitor exits, which it does exactly when the read gets
      nothing, the packet is oversized, or it asks for the trace of a fatal error. */
  method HandleRequest(session: Session, fd: Socket, kvs: KvStore, args: ArgStore, memory: bool, invoke: Argv.Invoke,
                       env: Argv.Surroundings)
    returns (fate: Fate, handed: Option<seq<Argv.Slot>>)
    requires session.Valid() && kvs.Valid() && args.Valid()
    requires session.offset == PACKET_HEADER || Partial(session.Received())
    requires var input := session.Received() + fd.Stream();
      HasFront(input) && !session.terminated ==>
        && (Front(input).op == OP_ARG ==> 0 in Front(input).payload)
        && Argv.TraceFits(invoke, Lists(kvs.list, args.list), Front(input).op)
    modifies session, session.packet, kvs, args, fd
    ensures session.Valid() && kvs.Valid() && args.Valid()
    ensures old(session.offset) == PACKET_HEADER ==> fate == if old(session.terminated) then Freed else Exited
    ensures fate != Parked && !old(session.terminated) ==>
      var input := old(session.Received() + fd.Stream());
      (fate == Exited <==>
        || ReadsNothing(old(session.offset), input, fd.closes, fd.Stream()) || Oversized(input)
        || (HasFront(input) && Front(input).op == OP_TR_FATAL))
    ensures fate == Exited && old(session.terminated) ==> Oversized(old(session.Received() + fd.Stream()))
    ensures fate == Exited || fate == Parked || old(session.terminated) ==>
      && kvs.list == old(kvs.list) && args.list == old(args.list) && fd.output == old(fd.output)
      && session.tid == old(session.tid) && session.terminated == old(session.terminated)
    ensures old(session.terminated) ==> fate == Parked || fate == Freed || fate == Exited
    ensures old(session.terminated) && fate == Freed ==>
      var input := old(session.Received() + fd.Stream());
      || ReadsNothing(old(session.offset), input, fd.closes, fd.Stream())
      || (HasFront(input) && fd.Stream() == input[FrontLength(input)..])
    ensures
      (old(session.offset) != PACKET_HEADER
       && Arrived(old(session.Received() + fd.Stream()), old(session.offset + |fd.unread|))) ==> fate != Parked
    ensures fate == Parked ==>
      && fd.unread == []
      && Partial(session.Received()) && session.Received() + fd.Stream() == old(session.Received() + fd.Stream())
    ensures handed.Some? ==> !old(session.terminated) && HasFront(old(session.Received() + fd.Stream()))
    ensures
      (!old(session.terminated) && fate != Parked
       && !ReadsNothing(old(session.offset), old(session.Received() + fd.Stream()), fd.closes, fd.Stream())
       && !Oversized(old(session.Received() + fd.Stream()))) ==>
      var input := old(session.Received() + fd.Stream());
      && HasFront(input)
      && HandsOver(handed, env, invoke, Lists(old(kvs.list), old(args.list)), Front(input).op, old(session.tid))
    ensures !old(session.terminated) && fate != Exited && fate != Parked ==>
      var input := old(session.Received() + fd.Stream());
      && HasFront(input) && fd.Stream() == input[FrontLength(input)..]
      && var p := Front(input);
        && session.terminated == (p.op == OP_DETACH) && (fate == Freed ==> session.terminated)
        && (fate == Open ==> !session.terminated)
        && (p.op == OP_TID && |p.payload| >= 4 ==> session.tid == U32At(p.payload, 0))
        && (p.op != OP_TID ==> session.tid == old(session.tid))
        && Lists(kvs.list, args.list) ==
             (if memory then Perform(Lists(old(kvs.list), old(args.list)), p) else Lists(old(kvs.list), old(args.list)))
    ensures !old(session.terminated) && (fate == Open || fate == Freed) ==>
      session.offset == 0 && fd.output == old(fd.output) + ACK
    ensures fate == Blocked ==>
      && session.offset < PACKET_HEADER && fd.output == old(fd.output) + ACK[..session.offset]
      && fd.space == 0
    ensures old(fd.space) >= PACKET_HEADER ==> fate != Blocked
  {
    hide EncodePacket, NumberAt, Perform, Partial, Oversized, ReadsNothing, Front, HasFront, Performed, PacketIn;
    hide Argv.TraceFits, HandsOver, Arrived;
    ghost var input := session.Received() + fd.Stream();
    handed := None;
    var ret := session.ReadRequest(fd);
    if ret == Again {
      fate := Parked;
    } else if ret == Died {
      fate := Exited;
    } else if session.terminated {
      if ret == Complete {
        FrontRead(session.packet[..PACKET_HEADER + LengthField(session.packet[..])], fd.Stream(), input);
      }
      fate := Freed;
    } else {
      var n := PACKET_HEADER + LengthField(session.packet[..]);
      FrontRead(session.packet[..n], fd.Stream(), input);
      FrontIsRead(input, fd.closes, fd.Stream(), old(session.offset));
      fate, handed := Respond(session, fd, kvs, args, memory, invoke, env, n);
    }
  }

  /** The rest of the handler, with a packet of n bytes read: perform and acknowledge it. */
  method Respond(session: Session, fd: Socket, kvs: KvStore, args: ArgStore, memory: bool, invoke: Argv.Invoke,
                 env: Argv.Surroundings, n: nat)
    returns (fate: Fate, handed: Option<seq<Argv.Slot>>)
    requires session.Valid() && kvs.Valid() && args.Valid() && session.offset == 0 && !session.terminated
    requires n <= session.packet.Length && Whole(session.packet[..n])
    requires var p := PacketIn(session.packet[..n]);
      (p.op == OP_ARG ==> 0 in p.payload) && Argv.TraceFits(invoke, Lists(kvs.list, args.list), p.op)
    modifies session, session.packet, kvs, args, fd
    ensures session.Valid() && kvs.Valid() && args.Valid() && fd.Stream() == old(fd.Stream())
    ensures var p := old(PacketIn(session.packet[..n]));
      && (fate == Exited <==> p.op == OP_TR_FATAL) && fate != Parked
      && session.terminated == (p.op == OP_DETACH)
      && (fate == Freed ==> session.terminated) && (fate == Open ==> !session.terminated)
      && (p.op == OP_TID && |p.payload| >= 4 ==> session.tid == U32At(p.payload, 0))
      && (p.op != OP_TID ==> session.tid == old(session.tid))
      && Lists(kvs.list, args.list) ==
           (if memory then Perform(Lists(old(kvs.list), old(args.list)), p) else Lists(old(kvs.list), old(args.list)))
    ensures HandsOver(handed, env, invoke, Lists(old(kvs.list), old(args.list)), old(PacketIn(session.packet[..n])).op,
                      old(session.tid))
    ensures fate == Exited ==>
      fd.output == old(fd.output) && kvs.list == old(kvs.list) && args.list == old(args.list)
    ensures fate == Open || fate == Freed ==> session.offset == 0 && fd.output == old(fd.output) + ACK
    ensures fate == Blocked ==>
      && session.offset < PACKET_HEADER && fd.output == old(fd.output) + ACK[..session.offset]
      && fd.space == 0
    ensures old(fd.space) >= PACKET_HEADER ==> fate != Blocked
  {
    hide EncodePacket, NumberAt, Perform, Performed, PacketIn, Whole, Argv.TraceFits, HandsOver;
    ghost var lists := Lists(kvs.list, args.list);
    assert session.packet[..][..n] == session.packet[..n];
    assert session.packet[..][PACKET_HEADER..] == session.packet[PACKET_HEADER..];
    PerformedIsPacket(session.packet[..], n, lists);
    FatalKeeps(lists, Performed(session.packet[..], n));
    var exits;
    exits, handed := PerformRequest(session, kvs, args, memory, invoke, env, n);
    if exits {
      return Exited, handed;
    }
    var acked := session.WriteAck(fd);
    if acked == -1 {
      assert ACK[0..session.offset] == ACK[..session.offset];
      return Blocked, handed;
    }
    fate := if session.terminated then Freed else Open;
  }

  lemma FatalKeeps(lists: Lists, p: Packet)
    ensures p.op == OP_TR_FATAL ==> Perform(lists, p) == lists
  {
  }

  /** One whole packet taken off the input is the packet in front. */
  lemma FrontRead(b: seq<byte>, more: seq<byte>, input: seq<byte>)
    requires Whole(b) && |b| <= PACKET_HEADER + PACKET_LIMIT && b + more == input
    ensures HasFront(input) && FrontLength(input) == |b| && more == input[|b|..]
    ensures Front(input) == PacketIn(b)
  {
    hide NumberAt;
    assert b == input[..|b|];
    HeaderOfPrefix(input, |b|);
    assert input[PACKET_HEADER..|b|] == b[PACKET_HEADER..];
  }

  /** A packet that was read whole was neither oversized nor nothing. */
  lemma FrontIsRead(input: seq<byte>, closes: bool, left: seq<byte>, offset: nat)
    requires HasFront(input) && offset != PACKET_HEADER
    ensures !Oversized(input) && !ReadsNothing(offset, input, closes, left)
  {
    hide LengthField;
  }

  /** A well-formed stream: its front is the packet that was sent, and a handler that sees it
      exits only after a pause at exactly the header. */
  lemma SoundFront(p: Packet, rest: seq<byte>, offset: nat, closes: bool, left: seq<byte>)
    requires p.Valid()
    ensures var input := EncodePacket(p) + rest;
      && HasFront(input) && Front(input) == p && input[FrontLength(input)..] == rest
      && !Oversized(input) && (ReadsNothing(offset, input, closes, left) <==> offset == PACKET_HEADER)
  {
    hide EncodePacket, Partial, LengthField;
    var b, input := EncodePacket(p), EncodePacket(p) + rest;
    HeaderReads(p, b);
    PacketRoundTrip(p, b);
    FrontRead(b, rest, input);
    InputIsSound(input, p, rest);
  }

  lemma PausedInPacket(received: seq<byte>, more: seq<byte>, p: Packet, rest: seq<byte>)
    requires p.Valid() && received + more == EncodePacket(p) + rest && Partial(received)
    ensures |received| < |EncodePacket(p)|
  {
    hide EncodePacket;
    var e := EncodePacket(p);
    if |received| >= |e| {
      assert e == (received + more)[..|e|] == received[..|e|];
      HeaderReads(p, received);
    }
  }

  lemma InputIsSound(input: seq<byte>, p: Packet, rest: seq<byte>)
    requires p.Valid() && input == EncodePacket(p) + rest
    ensures |input| >= PACKET_HEADER && LengthField(input) <= PACKET_LIMIT && !Partial(input)
  {
    hide EncodePacket;
    assert EncodePacket(p) <= input;
    HeaderReads(p, input);
  }

  lemma FirstPacket(b: seq<byte>, more: seq<byte>, p: Packet, rest: seq<byte>)
    requires p.Valid() && Whole(b) && b + more == EncodePacket(p) + rest
    ensures b == EncodePacket(p) && more == rest && PacketIn(b) == p
  {
    hide EncodePacket;
    var input, e := b + more, EncodePacket(p);
    assert b == input[..|b|] && e == input[..|e|];
    HeaderReads(p, b);
    PacketRoundTrip(p, e);
    assert more == input[|b|..] == rest;
  }

  lemma SameLength(a: seq<byte>, b: seq<byte>)
    requires |a| >= PACKET_HEADER && |b| >= PACKET_HEADER && (a <= b || b <= a)
    ensures LengthField(a) == LengthField(b)
  {
    assert a[4..8] == b[4..8];
  }

  function EncodePackets(ps: seq<Packet>): seq<byte>
    requires forall p <- ps :: p.Valid()
  {
    if ps == [] then [] else EncodePacket(ps[0]) + EncodePackets(ps[1..])
  }

  /** How many packets lie wholly within the first n bytes of their stream. */
  function ArrivedPackets(ps: seq<Packet>, n: nat): nat
    requires forall p <- ps :: p.Valid()
  {
    if ps == [] || n < |EncodePacket(ps[0])| then 0
    else 1 + ArrivedPackets(ps[1..], n - |EncodePacket(ps[0])|)
  }

  lemma FrontArrives(left: seq<Packet>, here: nat)
    requires forall p <- left :: p.Valid()
    ensures ArrivedPackets(left, here) > 0 ==> Arrived(EncodePackets(left), here)
  {
    hide EncodePacket, LengthField;
    if left != [] {
      SoundFront(left[0], EncodePackets(left[1..]), 0, false, []);
      SoundLength(left[0], EncodePackets(left[1..]));
    }
  }

  lemma SoundLength(p: Packet, rest: seq<byte>)
    requires p.Valid()
    ensures HasFront(EncodePacket(p) + rest) && FrontLength(EncodePacket(p) + rest) == |EncodePacket(p)|
  {
    hide LengthField, EncodePacket;
    SoundFront(p, rest, 0, false, []);
    assert EncodePacket(p) <= EncodePacket(p) + rest;
    HeaderReads(p, EncodePacket(p) + rest);
  }

  /** A packet taken, and no byte lost, leaves at least the others. */
  lemma MoreArrived(left: seq<Packet>, here: nat, here': nat)
    requires left != [] && (forall p <- left :: p.Valid()) && here <= |EncodePacket(left[0])| + here'
    ensures ArrivedPackets(left, here) <= 1 + ArrivedPackets(left[1..], here')
  {
    hide EncodePacket;
    if here >= |EncodePacket(left[0])| {
      ArrivedGrows(left[1..], here - |EncodePacket(left[0])|, here');
    }
  }

  lemma {:induction false} ArrivedGrows(ps: seq<Packet>, n: nat, m: nat)
    requires (forall p <- ps :: p.Valid()) && n <= m
    ensures ArrivedPackets(ps, n) <= ArrivedPackets(ps, m)
  {
    hide EncodePacket;
    if ps != [] && n >= |EncodePacket(ps[0])| {
      ArrivedGrows(ps[1..], n - |EncodePacket(ps[0])|, m - |EncodePacket(ps[0])|);
    }
  }

  /** Chunking independence: bcd_read_request called any number of times on a stream of packets
      delivers exactly those packets, in order, however the stream is chopped up. It stops early
      only when it is called again after a pause at exactly eight bytes, or when everything was
      delivered and the peer has closed; and what has arrived is delivered, a packet a call. */
  method Reassemble(session: Session, fd: Socket, calls: nat, ghost ps: seq<Packet>)
    returns (got: seq<Packet>, stopped: bool)
    requires session.Valid() && session.offset == 0
    requires forall p <- ps :: p.Valid()
    requires fd.Stream() == EncodePackets(ps)
    modifies session`offset, session.packet, fd`unread, fd`coming, fd`space, fd`spaceComing, fd`signals
    ensures session.Valid()
    ensures got <= ps
    ensures stopped ==> session.offset == PACKET_HEADER || (fd.closes && fd.Stream() == [] && got == ps)
    ensures !stopped ==> session.Received() + fd.Stream() == EncodePackets(ps[|got|..])
    ensures !stopped && fd.Stream() == [] ==> got == ps
    ensures calls <= |got| || ArrivedPackets(ps, old(|fd.unread|)) <= |got|
  {
    hide EncodePacket, LengthField;
    got, stopped := [], false;
    assert session.Received() + fd.Stream() == fd.Stream();
    ghost var arrived := ArrivedPackets(ps, |fd.unread|);
    assert ps[0..] == ps;
    for i := 0 to calls
      invariant session.Valid()
      invariant got <= ps
      invariant session.Received() + fd.Stream() == EncodePackets(ps[|got|..])
      invariant Partial(session.Received())
      invariant i <= |got| || arrived <= |got|
      invariant arrived <= |got| + if session.offset == 0 then ArrivedPackets(ps[|got|..], |fd.unread|) else 0
    {
      ghost var left := ps[|got|..];
      ghost var before, here, coming := session.Received(), |fd.unread|, |fd.coming|;
      FrontArrives(left, here);
      assert |got| < |ps| ==> left[0] == ps[|got|] && left[1..] == ps[|got| + 1..];
      OffsetInPacket(before, fd.Stream(), left);
      var ret := session.ReadRequest(fd);
      if ret == Died || ret == Ended {
        if |got| < |ps| {
          InputIsSound(EncodePackets(left), left[0], EncodePackets(left[1..]));
        }
        return got, true;
      }
      if ret == Complete {
        var n := PACKET_HEADER + LengthField(session.packet[..]);
        ghost var b := session.packet[..n];
        assert |b + fd.Stream()| >= PACKET_HEADER;
        FirstPacket(b, fd.Stream(), left[0], EncodePackets(left[1..]));
        MoreArrived(left, here, |fd.unread|);
        got := got + [PacketIn(session.packet[..n])];
        assert session.Received() + fd.Stream() == fd.Stream();
      }
    }
    OffsetInPacket(session.Received(), fd.Stream(), ps[|got|..]);
  }

  /** Between calls the session holds part of the first packet not yet delivered. */
  lemma OffsetInPacket(received: seq<byte>, more: seq<byte>, left: seq<Packet>)
    requires forall p <- left :: p.Valid()
    requires received + more == EncodePackets(left) && Partial(received)
    ensures left != [] ==> |received| < |EncodePacket(left[0])| && more != []
    ensures left == [] ==> received == [] && more == []
  {
    if left != [] {
      PausedInPacket(received, more, left[0], EncodePackets(left[1..]));
    }
  }
}
