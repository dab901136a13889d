/** What the invariant gives for every run of the monitor: linearizable stores, synchronous
    acknowledgements, no lost wakeup, and exactly when the monitor kills itself. */
module MonitorTheorems {
  import opened Bytes
  import opened Packets
  import Stores
  import opened Monitor
  import opened Connections
  import opened MonitorInv
  import opened MonitorSafety
  import Argv
  import Sessions

  // ---- Linearizable stores ----

  /** The key-value pairs the log made the store accept, in order. */
  function KvHistory(log: seq<Entry>): seq<Stores.Pair>
  {
    if log == [] then []
    else
      var p := log[|log| - 1].packet;
      KvHistory(log[..|log| - 1]) + if p.op == OP_KV && KvIn(p.payload).Some? then [KvIn(p.payload).value] else []
  }

  function ArgHistory(log: seq<Entry>): seq<Stores.Text>
  {
    if log == [] then []
    else
      var p := log[|log| - 1].packet;
      ArgHistory(log[..|log| - 1]) + if p.op == OP_ARG && ArgIn(p.payload).Some? then [ArgIn(p.payload).value] else []
  }

  /** Folding packets is keeping the accepted pairs and arguments. */
  lemma {:induction false} FoldIsHistory(log: seq<Entry>)
    ensures Fold(log) == Stores.Lists(Stores.KvAfter(KvHistory(log)), Stores.ArgsAfter(ArgHistory(log)))
  {
    hide KvIn, ArgIn, Stores.KvPut, Stores.ArgPut;
    if log != [] {
      var front := log[..|log| - 1];
      FoldIsHistory(front);
      var kvs, args := KvHistory(front), ArgHistory(front);
      assert forall x :: (kvs + [x])[..|kvs|] == kvs;
      assert forall x :: (args + [x])[..|args|] == args;
      assert kvs + [] == kvs && args + [] == args;
    }
  }

  /** In every reachable state the stores are what the log of performed packets makes them, a
      client's part of the log is what it sent, in order, up to at most its outstanding
      request, and a call that returned 0 is in it. The session speaks for the thread its
      client named last. */
  lemma LinearizableStores(cfg: Setup, s: State, i: nat)
    requires Reachable(cfg, s) && cfg.outbound >= PACKET_HEADER && i < |s.conns|
    ensures s.lists == Stores.Lists(Stores.KvAfter(KvHistory(s.log)), Stores.ArgsAfter(ArgHistory(s.log)))
    ensures var c := s.conns[i];
      && c.returned <= c.done <= |c.sent| <= c.returned + 1
      && (forall r <- c.sent :: r.Sendable())
      && Project(s.log, i) == PacketsOf(c.sent[..c.done])
      && c.tid == LastTid(c.sent[..c.done])
  {
    hide Traffic, Alive, Fold;
    ReachableInv(cfg, s);
    InvConn(s, i);
    FoldIsHistory(s.log);
  }

  /** The log and each client's requests only grow. */
  ghost predicate Grew(s: State, s': State)
  {
    && s.log <= s'.log && |s.conns| <= |s'.conns|
    && forall i :: 0 <= i < |s.conns| ==> s.conns[i].sent <= s'.conns[i].sent
  }

  lemma ReturnFrame(s: State)
    ensures Return(s).conns == s.conns && Return(s).log == s.log && Return(s).lists == s.lists
    ensures Return(s).ready == s.ready && Return(s).backlog == s.backlog && Return(s).listenerEdge == s.listenerEdge
  {
  }

  lemma ConnGrew(s: State, i: nat, c: Conn, s': State)
    requires i < |s.conns| && s.conns[i].sent <= c.sent
    requires s'.conns == s.conns[i := c] && s.log <= s'.log
    ensures Grew(s, s')
  {
  }

  lemma StepGrows(cfg: Setup, s: State, step: Step)
    requires Enabled(cfg, s, step)
    ensures Grew(s, Apply(cfg, s, step))
  {
    hide Stores.Perform, LengthField, Unlink, Link, Successor, U32At, EncodePacket, Return, Grew;
    match step
    case Connect => ConnectGrew(s, Apply(cfg, s, Connect));
    case Begin(c, r) => ConnGrew(s, c, Beginning(s.conns[c], r), Apply(cfg, s, step));
    case Send(c, n) => ConnGrew(s, c, SendBytes(s.conns[c], n), Apply(cfg, s, step));
    case Receive(c, n) => ConnGrew(s, c, ReceiveBytes(s.conns[c], n), Apply(cfg, s, step));
    case Vanish(c) => ConnGrew(s, c, Vanished(s.conns[c]), Apply(cfg, s, step));
    case Accept(edge) => ConnGrew(s, s.backlog[0], Registered(s.conns[s.backlog[0]], edge), Apply(cfg, s, step));
    case Read(n) => ReadGrew(cfg.invoke, s, n);
    case ReadNothing => NothingGrew(cfg, s);
    case Ack(n) => AckGrew(s, n, Apply(cfg, s, step));
    case AckAgain =>
      var c := s.conns[s.pc.id];
      var c' := c.(received := ACK[..c.acked], acked := PACKET_HEADER);
      ReturnFrame(WithConn(s, s.pc.id, c').(ready := Unlink(s.ready, Session(s.pc.id))));
      ConnGrew(s, s.pc.id, c', Apply(cfg, s, step));
    case _ => QuietStepGrows(cfg, s, step);
  }

  /** The steps that change no client and no log. */
  lemma QuietStepGrows(cfg: Setup, s: State, step: Step)
    requires Enabled(cfg, s, step)
    requires step.Spurious? || step.Deliver? || step.Dispatch? || step.AcceptAgain?
      || step.ReadAgain? || step.AckFails? || step.Die?
    ensures Grew(s, Apply(cfg, s, step))
  {
    hide Unlink, Link, Successor, Enter;
  }

  lemma NothingGrew(cfg: Setup, s: State)
    requires Enabled(cfg, s, ReadNothing)
    ensures Grew(s, Apply(cfg, s, ReadNothing))
  {
    hide Return, Unlink, Grew;
    if s.conns[s.pc.id].terminated {
      EndGrew(s, s, s.pc.id, s.conns[s.pc.id]);
    } else {
      ConnGrew(s, s.pc.id, s.conns[s.pc.id], Apply(cfg, s, ReadNothing));
    }
  }

  lemma EndGrew(s: State, t: State, i: nat, c: Conn)
    requires i < |s.conns| && s.conns[i].sent <= c.sent && t.conns == s.conns && t.log == s.log
    ensures Grew(s, EndSession(t, i, c))
  {
    hide Return, Unlink, Grew;
    ReturnFrame(WithConn(t, i, Freeing(c)).(ready := Unlink(t.ready, Session(i))));
    ConnGrew(s, i, Freeing(c), EndSession(t, i, c));
  }

  lemma ReadGrew(invoke: Argv.Invoke, s: State, n: nat)
    requires s.pc.Reading? && s.pc.id < |s.conns| && n <= |s.conns[s.pc.id].inbound|
    ensures Grew(s, AfterRead(invoke, s, s.pc.id, ReadBytes(s.conns[s.pc.id], n), s.pc.target))
  {
    hide Stores.Perform, LengthField, U32At, Grew, EndSession, Argv.TraceFits;
    var i, c := s.pc.id, ReadBytes(s.conns[s.pc.id], n);
    var s' := AfterRead(invoke, s, i, c, s.pc.target);
    var target := if |c.received| >= PACKET_HEADER then LengthField(c.received) else s.pc.target;
    if target > PACKET_LIMIT || |c.received| < PACKET_HEADER + target {
      ConnGrew(s, i, c, s');
    } else if c.terminated {
      EndGrew(s, s, i, c.(received := []));
    } else {
      ConnGrew(s, i, s'.conns[i], s');
    }
  }

  lemma ConnectGrew(s: State, s': State)
    requires s'.conns == s.conns + [NEW_CONN] && s'.log == s.log
    ensures Grew(s, s')
  {
  }

  lemma AckGrew(s: State, n: nat, s': State)
    requires s.pc.Acking? && s.pc.id < |s.conns| && s.conns[s.pc.id].acked + n <= PACKET_HEADER
    requires var c := AckBytes(s.conns[s.pc.id], n);
      s' == if c.acked < PACKET_HEADER then WithConn(s, s.pc.id, c) else AfterAck(s, s.pc.id, c)
    ensures Grew(s, s')
  {
    hide Return, Grew, EndSession;
    var i, c := s.pc.id, AckBytes(s.conns[s.pc.id], n);
    if c.acked < PACKET_HEADER {
      ConnGrew(s, i, c, s');
    } else if c.terminated {
      EndGrew(s, s, i, c);
    } else {
      ReturnFrame(WithConn(s, i, c));
      ConnGrew(s, i, c, s');
    }
  }

  lemma {:induction false} RunGrows(cfg: Setup, s: State, steps: seq<Step>, s': State)
    requires Run(cfg, s, steps, s')
    ensures Grew(s, s')
    decreases |steps|
  {
    hide Apply, Enabled;
    if steps != [] {
      StepGrows(cfg, s, steps[0]);
      RunGrows(cfg, Apply(cfg, s, steps[0]), steps[1..], s');
    }
  }

  lemma {:induction false} PacketsCount(rs: seq<Request>)
    requires forall r <- rs :: r.Sendable()
    ensures |PacketsOf(rs)| == |rs|
  {
    if rs != [] {
      PacketsCount(rs[..|rs| - 1]);
    }
  }

  /** Real-time order: if call k of client i had returned before call m of client j began, the
      log has performed the one in a front part that does not reach the other. */
  lemma RealTimeOrder(cfg: Setup, s: State, steps: seq<Step>, s': State, i: nat, k: nat, j: nat, m: nat)
    requires Reachable(cfg, s) && cfg.outbound >= PACKET_HEADER && Run(cfg, s, steps, s')
    requires i < |s.conns| && k < s.conns[i].returned
    requires j < |s.conns| && |s.conns[j].sent| <= m
    ensures s.log <= s'.log && |Project(s.log, j)| <= m
    ensures |s.conns| <= |s'.conns|
    ensures k < |Project(s.log, i)| && k < |s'.conns[i].sent| && s'.conns[i].sent[k].Sendable()
    ensures Project(s.log, i)[k] == PacketOf(s'.conns[i].sent[k])
  {
    hide Fold, Project, PacketsOf, LastTid;
    RunGrows(cfg, s, steps, s');
    LinearizableStores(cfg, s, i);
    LinearizableStores(cfg, s, j);
    var c := s.conns[i];
    PacketsCount(c.sent[..c.done]);
    PacketsCount(s.conns[j].sent[..s.conns[j].done]);
    PacketsIndex(c.sent[..c.done], k);
    assert s'.conns[i].sent[k] == c.sent[k] == c.sent[..c.done][k];
    assert c.sent[k] in c.sent;
  }

  lemma {:induction false} PacketsIndex(rs: seq<Request>, k: nat)
    requires (forall r <- rs :: r.Sendable()) && k < |rs|
    ensures k < |PacketsOf(rs)| && PacketsOf(rs)[k] == PacketOf(rs[k])
  {
    PacketsCount(rs);
    PacketsCount(rs[..|rs| - 1]);
    if k < |rs| - 1 {
      PacketsIndex(rs[..|rs| - 1], k);
    }
  }

  // ---- Reassembly in the machine ----

  /** The client began a request that is not performed yet. */
  predicate HasRequest(c: Conn)
  {
    c.sent != [] && c.done < |c.sent| && Outstanding(c).Sendable()
  }

  /** The state after a read that took n bytes, as far as its connection and the log go. */
  ghost predicate ReadOutcome(cfg: Setup, s: State, s': State)
    requires s.pc.Reading? && s.pc.id < |s.conns|
  {
    var i := s.pc.id;
    var input := s.conns[i].received + s.conns[i].inbound;
    && i < |s'.conns|
    && if s'.pc.Reading? then
         && s'.log == s.log && s'.lists == s.lists && s'.pc.id == i
         && Sessions.Partial(s'.conns[i].received) && s'.conns[i].received + s'.conns[i].inbound == input
       else if s'.pc.Over? then
         && s' == s.(pc := Over(Overrun)) && HasRequest(s.conns[i])
         && !Argv.TraceFits(cfg.invoke, s.lists, PacketOf(Outstanding(s.conns[i])).op)
         && input == EncodePacket(PacketOf(Outstanding(s.conns[i])))
       else
         && s'.pc == Acking(i) && |s'.log| == |s.log| + 1 && s'.log[|s.log|].id == i
         && var p := s'.log[|s.log|].packet;
           && p.Valid() && Argv.TraceFits(cfg.invoke, s.lists, p.op)
           && s'.log == s.log + [Entry(i, p)] && s'.lists == Stores.Perform(s.lists, p)
           && s'.conns[i].received == [] && EncodePacket(p) + s'.conns[i].inbound == input
  }

  lemma ReadOutcomes(cfg: Setup, s: State, n: nat)
    requires Inv(s) && Enabled(cfg, s, Read(n))
    ensures ReadOutcome(cfg, s, Apply(cfg, s, Read(n)))
  {
    hide Inv, EncodePacket, Stores.Perform, LengthField, U32At, LastTid, PacketOf, Argv.TraceFits;
    hide Sessions.Partial, Sessions.LoopTarget;
    var i := s.pc.id;
    var c := s.conns[i];
    InvConn(s, i);
    InvReading(s);
    ReadCases(c, n, s.pc.target);
    assert c.inbound == c.inbound[..n] + c.inbound[n..];
    assert c.received + c.inbound == c.received + c.inbound[..n] + c.inbound[n..];
    if |c.received| + n == |Wire(Outstanding(c))| {
      ReceivedIsFront(c);
      ClientOps(Outstanding(c));
      AfterWholeRead(cfg.invoke, s, i, ReadBytes(c, n), s.pc.target, PacketOf(Outstanding(c)));
    }
  }

  /** A read keeps every byte: the session still holds a proper part of a packet, or it takes
      exactly one packet off the front and performs it. The same two outcomes, besides death,
      as Session.ReadRequest has. Only performing a trace whose vector does not fit ends the
      monitor, and it always does. */
  lemma ReadTakesOnePacket(cfg: Setup, s: State, n: nat)
    requires Reachable(cfg, s) && cfg.outbound >= PACKET_HEADER && Enabled(cfg, s, Read(n))
    ensures ReadOutcome(cfg, s, Apply(cfg, s, Read(n)))
  {
    hide Inv, Apply, Enabled, ReadOutcome;
    ReachableInv(cfg, s);
    ReadOutcomes(cfg, s, n);
  }

  // ---- Synchronous acknowledgements ----

  /** At most one request is unacknowledged, at most one acknowledgement is in the channel, and
      a session is freed only after its detach was acknowledged in full. */
  lemma SynchronousAcks(cfg: Setup, s: State, i: nat)
    requires Reachable(cfg, s) && cfg.outbound >= PACKET_HEADER && i < |s.conns|
    ensures var c := s.conns[i];
      && |c.sent| <= c.returned + 1 && |c.outbound| <= PACKET_HEADER
      && (c.life == Freed ==>
            && c.sent != [] && c.sent[|c.sent| - 1].Detach? && c.done == |c.sent|
            && (c.client == Closed || (c.client.Awaiting? && c.client.got + c.outbound == ACK)))
  {
    ReachableInv(cfg, s);
    InvConn(s, i);
  }

  /** A call returns 0 only on the acknowledgement of its own request, which is then the last
      of the client's packets in the log. */
  lemma AckAnswersLatest(cfg: Setup, s: State, i: nat, n: nat)
    requires Reachable(cfg, s) && cfg.outbound >= PACKET_HEADER && Enabled(cfg, s, Receive(i, n))
    ensures var c := Apply(cfg, s, Receive(i, n)).conns[i];
      c.client.Awaiting? || (
        && c.sent != [] && c.returned == c.done == |c.sent| == s.conns[i].returned + 1
        && c.sent[|c.sent| - 1].Sendable()
        && Project(s.log, i) != []
        && Project(s.log, i)[|Project(s.log, i)| - 1] == PacketOf(c.sent[|c.sent| - 1]))
  {
    hide Project, PacketsOf, LastTid, Inv, Alive, U32At, EncodePacket;
    ReachableInv(cfg, s);
    InvConn(s, i);
    ReceiveOk(s.conns[i], n);
    var c := s.conns[i];
    if !ReceiveBytes(c, n).client.Awaiting? {
      assert c.sent[..c.done] == c.sent;
      PacketsCount(c.sent);
      PacketsIndex(c.sent, |c.sent| - 1);
    }
  }

  // ---- No lost wakeup ----

  /** At every moment, whatever a handler still has to read or accept is on the ready list or
      has an edge the kernel will report. */
  lemma AlwaysWoken(cfg: Setup, s: State, i: nat)
    requires Reachable(cfg, s) && cfg.outbound >= PACKET_HEADER && i < |s.conns|
    ensures s.conns[i].life == Open && (s.conns[i].inbound != [] || s.conns[i].gone) ==>
      s.conns[i].edge || Session(i) in s.ready
    ensures s.conns[i].life == Queued ==> s.listenerEdge || Listener in s.ready
  {
    ReachableInv(cfg, s);
    InvConn(s, i);
  }

  /** epoll_wait would block: nothing is linked and the kernel has nothing to report. */
  predicate Blocks(s: State)
  {
    && s.pc == Waiting && s.ready == [] && !s.listenerEdge
    && forall i :: 0 <= i < |s.conns| ==> !s.conns[i].edge
  }

  /** epoll_wait blocks only when no connection waits to be accepted, no client has an unread
      byte and none has gone unnoticed; and then no client is stuck: each is idle, detached, can
      still write, or has its acknowledgement to read. */
  lemma NoLostWakeup(cfg: Setup, s: State, i: nat)
    requires Reachable(cfg, s) && cfg.outbound >= PACKET_HEADER && Blocks(s) && i < |s.conns|
    ensures s.backlog == [] && s.conns[i].inbound == [] && (s.conns[i].gone ==> s.conns[i].life == Freed)
    ensures match s.conns[i].client
      case Awaiting(_) => s.conns[i].outbound != []
      case _ => true
  {
    hide Fold, Project, PacketsOf, LastTid;
    ReachableInv(cfg, s);
    InvConn(s, i);
  }

  // ---- When the monitor dies of its own protocol ----

  /** The monitor exits by itself only if some read paused at exactly eight bytes, or some
      client closed its end before its session was freed. */
  lemma ExitHasCause(cfg: Setup, s: State)
    requires Reachable(cfg, s) && cfg.outbound >= PACKET_HEADER && s.pc == Over(Protocol)
    ensures s.pausedAtHeader || LostOne(s.conns)
  {
    ReachableInv(cfg, s);
  }

  /** And a handler about to read exits exactly when it resumed from such a pause or has come to
      the end of a gone client's stream. */
  lemma HandlerDiesIff(cfg: Setup, s: State)
    requires Reachable(cfg, s) && cfg.outbound >= PACKET_HEADER && s.pc.Reading?
    ensures s.pc.id < |s.conns|
    ensures Enabled(cfg, s, ReadNothing) <==>
      var c := s.conns[s.pc.id];
      (|c.received| == PACKET_HEADER && s.pc.target == 0) || (c.inbound == [] && c.gone)
    ensures Enabled(cfg, s, ReadNothing) ==>
      && Apply(cfg, s, ReadNothing).pc == Over(Protocol)
      && !Enabled(cfg, s, ReadAgain) && forall n :: !Enabled(cfg, s, Read(n))
  {
    hide Inv, Sessions.Partial, Sessions.LoopTarget, Reachable, EndSession;
    ReachableInv(cfg, s);
    InvReading(s);
    if Enabled(cfg, s, ReadNothing) {
      ReadNothingKeeps(cfg, s);
    }
  }
}
