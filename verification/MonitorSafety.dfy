/** Every step of the monitor machine keeps the invariant, so it holds in every reachable
    state of every run. */
module MonitorSafety {
  import opened Bytes
  import opened Packets
  import opened Sequences
  import opened Stores
  import opened Monitor
  import opened Connections
  import opened MonitorInv
  import Argv
  import Sessions

  // ---- Steps of one connection ----

  /** A step that only moves bytes between a client and its buffers, or raises an edge. */
  lemma ConnStep(s: State, i: nat, c: Conn)
    requires Inv(s) && i < |s.conns| && ConnOk(c)
    requires var b := s.conns[i];
      && c.life == b.life && c.acked == b.acked && c.received == b.received
      && c.done == b.done <= |b.sent| <= |c.sent| && c.sent[..c.done] == b.sent[..b.done]
      && (b.gone ==> c.gone)
    requires WokenUp(c, i, s.ready)
    ensures Inv(WithConn(s, i, c))
  {
    hide Traffic, Alive, Successor, Sessions.Partial, Sessions.LoopTarget, Fold, Project, PacketsOf, LastTid, LostOne;
    var s' := WithConn(s, i, c);
    assert LogAt(s.conns[i], i, s.log);
    assert forall e <- s.ready :: Watched(s.conns, e);
    LostStays(s.conns, i, c);
  }

  lemma LostStays(conns: seq<Conn>, i: nat, c: Conn)
    requires i < |conns| && c.life == conns[i].life && (conns[i].gone ==> c.gone)
    ensures LostOne(conns) ==> LostOne(conns[i := c])
  {
    var conns' := conns[i := c];
    if LostOne(conns) {
      var j :| 0 <= j < |conns| && conns[j].gone && conns[j].life != Freed;
      assert conns'[j].gone && conns'[j].life != Freed;
    }
  }

  lemma BeginKeeps(cfg: Setup, s: State, i: nat, r: Request)
    requires Inv(s) && Enabled(cfg, s, Begin(i, r))
    ensures Inv(Apply(cfg, s, Begin(i, r)))
  {
    hide Inv, Traffic, Alive, WithConn;
    var c := s.conns[i];
    InvConn(s, i);
    BeginOk(c, r);
    assert (c.sent + [r])[..c.done] == c.sent[..c.done];
    ConnStep(s, i, Beginning(c, r));
  }

  lemma SendKeeps(cfg: Setup, s: State, i: nat, n: nat)
    requires Inv(s) && Enabled(cfg, s, Send(i, n))
    ensures Inv(Apply(cfg, s, Send(i, n)))
  {
    hide Inv, Alive, WithConn;
    InvConn(s, i);
    SendOk(s.conns[i], n);
    ConnStep(s, i, SendBytes(s.conns[i], n));
  }

  lemma ReceiveKeeps(cfg: Setup, s: State, i: nat, n: nat)
    requires Inv(s) && Enabled(cfg, s, Receive(i, n))
    ensures Inv(Apply(cfg, s, Receive(i, n)))
  {
    hide Inv, Traffic, Alive, WithConn, U32At, LastTid, LogAt;
    InvConn(s, i);
    ReceiveOk(s.conns[i], n);
    ConnStep(s, i, ReceiveBytes(s.conns[i], n));
  }

  lemma VanishKeeps(cfg: Setup, s: State, i: nat)
    requires Inv(s) && Enabled(cfg, s, Vanish(i))
    ensures Inv(Apply(cfg, s, Vanish(i)))
  {
    hide Inv, Traffic, Alive, WithConn;
    InvConn(s, i);
    VanishOk(s.conns[i]);
    ConnStep(s, i, Vanished(s.conns[i]));
  }

  lemma SpuriousKeeps(cfg: Setup, s: State, e: Event)
    requires Inv(s) && Enabled(cfg, s, Spurious(e))
    ensures Inv(Apply(cfg, s, Spurious(e)))
  {
    if e.Session? {
      hide Inv, Traffic, Alive, WithConn;
      InvConn(s, e.id);
      EdgeOk(s.conns[e.id], true);
      ConnStep(s, e.id, s.conns[e.id].(edge := true));
    } else {
      hide ConnOk, LogAt, Successor, Sessions.Partial;
      assert Apply(cfg, s, Spurious(e)) == s.(listenerEdge := true);
    }
  }

  /** What the invariant says of one connection. */
  lemma InvConn(s: State, i: nat)
    requires Inv(s) && i < |s.conns|
    ensures ConnOk(s.conns[i]) && WokenUp(s.conns[i], i, s.ready) && LogAt(s.conns[i], i, s.log)
    ensures s.conns[i].acked < PACKET_HEADER ==> s.pc == Acking(i) || s.pc.Over?
    ensures Session(i) in s.ready ==> s.conns[i].life == Open
    ensures i in s.backlog <==> s.conns[i].life == Queued
  {
    hide ConnOk, LogAt, Successor, Sessions.Partial;
    assert Session(i) in s.ready ==> Watched(s.conns, Session(i));
  }

  // ---- Connecting and accepting ----

  lemma {:induction false} ProjectNone(log: seq<Entry>, i: nat)
    requires forall e <- log :: e.id != i
    ensures Project(log, i) == []
  {
    if log != [] {
      ProjectNone(log[..|log| - 1], i);
    }
  }

  lemma NewConnFits(log: seq<Entry>, n: nat, ready: seq<Event>)
    requires forall e <- log :: e.id < n
    ensures LogAt(NEW_CONN, n, log) && WokenUp(NEW_CONN, n, ready) && ConnOk(NEW_CONN)
  {
    NewConnOk();
    ProjectNone(log, n);
    assert NEW_CONN.sent[..0] == [];
  }

  lemma ConnectKeeps(cfg: Setup, s: State)
    requires Inv(s) && Enabled(cfg, s, Connect)
    ensures Inv(Apply(cfg, s, Connect))
  {
    hide ConnOk, LogAt, Successor, Sessions.Partial, Sessions.LoopTarget, Fold;
    var s' := Apply(cfg, s, Connect);
    var n := |s.conns|;
    NewConnFits(s.log, n, s.ready);
    assert forall e <- s.ready :: Watched(s.conns, e);
    assert forall i :: 0 <= i < n ==> s'.conns[i] == s.conns[i];
    assert ReadyOk(s'.conns, s'.ready);
    BacklogConnect(s.conns, s.backlog);
    assert BacklogOk(s'.conns, s'.backlog);
    assert WakeOk(s') by {
      forall i | 0 <= i < |s'.conns|
        ensures WokenUp(s'.conns[i], i, s'.ready)
      {
        if i < n {
          assert WokenUp(s.conns[i], i, s.ready);
        }
      }
    }
    assert LogOk(s'.conns, s'.lists, s'.log);
    assert PcOk(s');
    assert PauseOk(s');
  }

  lemma BacklogConnect(conns: seq<Conn>, backlog: seq<nat>)
    requires BacklogOk(conns, backlog)
    ensures BacklogOk(conns + [NEW_CONN], backlog + [|conns|])
  {
    assert |conns| !in backlog;
    assert forall i :: i in backlog + [|conns|] <==> i in backlog || i == |conns|;
  }

  lemma AcceptKeeps(cfg: Setup, s: State, edge: bool)
    requires Inv(s) && Enabled(cfg, s, Accept(edge))
    ensures Inv(Apply(cfg, s, Accept(edge)))
  {
    hide ConnOk, LogAt, Successor, Sessions.Partial, Sessions.LoopTarget, Fold, Position;
    var s' := Apply(cfg, s, Accept(edge));
    var i := s.backlog[0];
    InvConn(s, i);
    AcceptConn(s.conns[i], i, edge, s.log);
    LinkNext(s.ready, Listener, Session(i));
    assert ReadyOk(s'.conns, s'.ready) by {
      assert forall e <- s.ready :: Watched(s.conns, e);
      assert Watched(s'.conns, Session(i));
      assert ReadyOk(s'.conns, s.ready);
      LinkOk(s'.conns, s.ready, Session(i));
    }
    BacklogAccept(s.conns, s.backlog, s'.conns[i]);
    assert WakeOk(s') by {
      forall j | 0 <= j < |s'.conns|
        ensures WokenUp(s'.conns[j], j, s'.ready)
      {
        if j != i {
          assert WokenUp(s.conns[j], j, s.ready);
        }
      }
    }
    assert LogOk(s'.conns, s'.lists, s'.log);
    assert PcOk(s');
    assert PauseOk(s');
  }

  lemma AcceptConn(c: Conn, i: nat, edge: bool, log: seq<Entry>)
    requires ConnOk(c) && c.life == Queued && LogAt(c, i, log)
    ensures ConnOk(Registered(c, edge)) && LogAt(Registered(c, edge), i, log)
    ensures Registered(c, edge) == c.(life := Open, edge := edge)
    ensures c.acked == PACKET_HEADER && c.received == []
  {
    AcceptOk(c, edge);
  }

  lemma BacklogAccept(conns: seq<Conn>, backlog: seq<nat>, c: Conn)
    requires BacklogOk(conns, backlog) && backlog != [] && backlog[0] < |conns| && c.life == Open
    ensures BacklogOk(conns[backlog[0] := c], backlog[1..])
  {
    var i, tail := backlog[0], backlog[1..];
    assert forall k :: 0 <= k < |tail| ==> tail[k] == backlog[k + 1];
    forall j
      ensures j in tail <==> j in backlog && j != i
    {
      if j in backlog && j != i {
        var k :| 0 <= k < |backlog| && backlog[k] == j;
        assert tail[k - 1] == j;
      }
    }
  }

  // ---- Kernel events and the dispatch loop ----

  lemma DeliverKeeps(cfg: Setup, s: State, e: Event)
    requires Inv(s) && Enabled(cfg, s, Deliver(e))
    ensures Inv(Apply(cfg, s, Deliver(e)))
  {
    hide ConnOk, LogAt, Successor, Sessions.Partial, Sessions.LoopTarget, Fold, Position;
    var s' := Apply(cfg, s, Deliver(e));
    assert Watched(s.conns, e) by {
      if e.Session? {
        InvConn(s, e.id);
        EdgeMeansOpen(s.conns[e.id]);
      }
    }
    if e.Session? {
      InvConn(s, e.id);
      EdgeGone(s.conns[e.id], e.id, s.log);
    }
    assert forall x <- s.ready :: Watched(s.conns, x);
    assert ReadyOk(s'.conns, s.ready);
    LinkOk(s'.conns, s.ready, e);
    assert BacklogOk(s'.conns, s'.backlog);
    assert WakeOk(s') by {
      forall j | 0 <= j < |s'.conns|
        ensures WokenUp(s'.conns[j], j, s'.ready)
      {
        assert WokenUp(s.conns[j], j, s.ready);
      }
    }
    assert LogOk(s'.conns, s'.lists, s'.log);
    assert PcOk(s');
    assert PauseOk(s');
  }

  lemma EdgeMeansOpen(c: Conn)
    requires ConnOk(c) && c.edge
    ensures c.life == Open
  {
  }

  lemma EdgeGone(c: Conn, i: nat, log: seq<Entry>)
    requires ConnOk(c) && LogAt(c, i, log) && c.life == Open
    ensures ConnOk(c.(edge := false)) && LogAt(c.(edge := false), i, log)
  {
    EdgeOk(c, false);
  }

  lemma DispatchKeeps(cfg: Setup, s: State)
    requires Inv(s) && Enabled(cfg, s, Dispatch)
    ensures Inv(Apply(cfg, s, Dispatch))
  {
    hide ConnOk, LogAt, ReadyOk, BacklogOk, WokenUp, LogOk, Return;
    ReturnOk(s.(next := Some(s.ready[0])));
  }

  /** The current event leaves the list and its handler returns. */
  lemma UnlinkAndReturn(s: State, e: Event)
    requires ConnsOk(s.conns) && ReadyOk(s.conns, s.ready) && BacklogOk(s.conns, s.backlog)
    requires LogOk(s.conns, s.lists, s.log)
    requires NextOk(s, e)
    requires s.backlog != [] ==> s.listenerEdge || (Listener in s.ready && e != Listener)
    requires forall i :: 0 <= i < |s.conns| ==>
      WokenUp(s.conns[i], i, s.ready) && s.conns[i].acked >= PACKET_HEADER
      && (|s.conns[i].received| == PACKET_HEADER ==> s.pausedAtHeader)
    requires e.Session? && e.id < |s.conns| ==>
      (s.conns[e.id].inbound == [] && !s.conns[e.id].gone) || s.conns[e.id].life != Open
    ensures Inv(Return(s.(ready := Unlink(s.ready, e))))
  {
    hide ConnOk, LogAt, LogOk, BacklogOk, Position;
    var s' := s.(ready := Unlink(s.ready, e));
    SplitAt(s.ready, e);
    SuccessorIn(s.ready, e);
    UnlinkOk(s.conns, s.ready, e);
    assert WakeOk(s') by {
      forall j | 0 <= j < |s'.conns|
        ensures WokenUp(s'.conns[j], j, s'.ready)
      {
        assert WokenUp(s.conns[j], j, s.ready);
      }
    }
    ReturnOk(s');
  }

  lemma AcceptAgainKeeps(cfg: Setup, s: State)
    requires Inv(s) && Enabled(cfg, s, AcceptAgain)
    ensures Inv(Apply(cfg, s, AcceptAgain))
  {
    hide ConnOk, LogAt, ReadyOk, BacklogOk, WokenUp, LogOk, Return, Unlink, Successor;
    UnlinkAndReturn(s, Listener);
  }

  // ---- Reading ----

  lemma ReadAgainKeeps(cfg: Setup, s: State)
    requires Inv(s) && Enabled(cfg, s, ReadAgain)
    ensures Inv(Apply(cfg, s, ReadAgain))
  {
    hide ConnOk, LogAt, ReadyOk, BacklogOk, WokenUp, LogOk, Return, Unlink, Successor;
    var s' := s.(pausedAtHeader := s.pausedAtHeader || |s.conns[s.pc.id].received| == PACKET_HEADER);
    assert Apply(cfg, s, ReadAgain) == Return(s'.(ready := Unlink(s'.ready, Session(s.pc.id))));
    UnlinkAndReturn(s', Session(s.pc.id));
  }

  /** A read comes back with nothing only when it resumed at exactly eight bytes, or when the
      client is gone; and then the monitor exits. */
  lemma ReadNothingKeeps(cfg: Setup, s: State)
    requires Inv(s) && Enabled(cfg, s, ReadNothing)
    ensures !s.conns[s.pc.id].terminated && s.conns[s.pc.id].life == Open
    ensures (Stuck(s.conns[s.pc.id], s.pc.target) && s.pausedAtHeader)
      || (s.conns[s.pc.id].gone && s.conns[s.pc.id].inbound == [])
    ensures Inv(Apply(cfg, s, ReadNothing))
  {
    hide Traffic, Counts, LogAt, BacklogOk, WokenUp, LogOk, Successor;
    var i := s.pc.id;
    InvConn(s, i);
    assert s.conns[i].life == Open && s.conns[i].client != Closed;
  }

  lemma AckFailsKeeps(cfg: Setup, s: State)
    requires Inv(s) && Enabled(cfg, s, AckFails)
    ensures s.conns[s.pc.id].gone && s.conns[s.pc.id].life == Open
    ensures Inv(Apply(cfg, s, AckFails))
  {
    hide Traffic, Counts, LogAt, BacklogOk, WokenUp, LogOk, Successor;
    var i := s.pc.id;
    InvConn(s, i);
    assert s.conns[i].life == Open && s.conns[i].client != Closed;
  }

  lemma ReadKeeps(cfg: Setup, s: State, n: nat)
    requires Inv(s) && Enabled(cfg, s, Read(n))
    ensures Inv(Apply(cfg, s, Read(n)))
  {
    hide Inv, ConnOk, Sessions.LoopTarget, Sessions.Partial;
    var i := s.pc.id;
    var c := s.conns[i];
    InvConn(s, i);
    InvReading(s);
    ReadCases(c, n, s.pc.target);
    if |c.received| + n < |Wire(Outstanding(c))| {
      ReadOk(c, n);
      PartialRead(cfg.invoke, s, i, n);
    } else {
      WholeRead(cfg.invoke, s, i, n);
    }
  }

  lemma InvReading(s: State)
    requires Inv(s) && s.pc.Reading?
    ensures s.pc.id < |s.conns| && Session(s.pc.id) in s.ready && s.conns[s.pc.id].life == Open
    ensures s.conns[s.pc.id].acked == PACKET_HEADER && !s.conns[s.pc.id].terminated
    ensures Stuck(s.conns[s.pc.id], s.pc.target) ||
      (Sessions.Partial(s.conns[s.pc.id].received) && s.pc.target == Sessions.LoopTarget(s.conns[s.pc.id].received))
  {
    hide LogAt, Successor, Sessions.Partial, Fold;
    InvConn(s, s.pc.id);
  }

  /** After a read the buffer holds either a proper part of the current request, whose length
      is then the loop's, or exactly all of it. */
  lemma ReadCases(c: Conn, n: nat, target: nat)
    requires ConnOk(c) && c.acked == PACKET_HEADER && 1 <= n <= |c.inbound|
    requires |c.received| + n <= PACKET_HEADER + target
    requires Stuck(c, target) || (Sessions.Partial(c.received) && target == Sessions.LoopTarget(c.received))
    ensures c.sent != [] && |c.received| + n <= |Wire(Outstanding(c))|
    ensures var received, p := c.received + c.inbound[..n], PacketOf(Outstanding(c));
      var target' := if |received| >= PACKET_HEADER then LengthField(received) else target;
      && target' <= PACKET_LIMIT
      && if |received| < |Wire(Outstanding(c))| then
           |received| < PACKET_HEADER + target' && Sessions.Partial(received)
           && target' == Sessions.LoopTarget(received)
         else
           |received| == PACKET_HEADER + target' && received == Wire(Outstanding(c))
           && U32At(received, 0) == p.op && received[PACKET_HEADER..PACKET_HEADER + target'] == p.payload
  {
    hide EncodePacket, LastTid, LengthField;
    ReceivedIsFront(c);
    var received, wire, p := c.received + c.inbound[..n], Wire(Outstanding(c)), PacketOf(Outstanding(c));
    assert received <= c.received + c.inbound <= wire;
    if |c.received| >= PACKET_HEADER {
      HeaderReads(p, c.received);
    }
    if |received| >= PACKET_HEADER {
      HeaderReads(p, received);
    }
    if |received| == |wire| {
      assert received == wire;
      PacketRoundTrip(p, wire);
    }
  }

  lemma PartialRead(invoke: Argv.Invoke, s: State, i: nat, n: nat)
    requires Inv(s) && s.pc.Reading? && s.pc.id == i < |s.conns| && n <= |s.conns[i].inbound|
    requires ConnOk(ReadBytes(s.conns[i], n)) && s.conns[i].life == Open && Session(i) in s.ready
    requires var c := ReadBytes(s.conns[i], n);
      var target := if |c.received| >= PACKET_HEADER then LengthField(c.received) else s.pc.target;
      target <= PACKET_LIMIT && |c.received| < PACKET_HEADER + target
      && Sessions.Partial(c.received) && target == Sessions.LoopTarget(c.received)
    ensures Inv(AfterRead(invoke, s, i, ReadBytes(s.conns[i], n), s.pc.target))
  {
    hide Inv, ConnOk, LengthField, Sessions.Partial, Sessions.LoopTarget;
    var c := ReadBytes(s.conns[i], n);
    var target := if |c.received| >= PACKET_HEADER then LengthField(c.received) else s.pc.target;
    InvConn(s, i);
    assert AfterRead(invoke, s, i, c, s.pc.target) == WithConn(s, i, c).(pc := Reading(i, target));
    ReadingOn(s, i, c, target);
  }

  lemma ReadingOn(s: State, i: nat, c: Conn, target: nat)
    requires Inv(s) && s.pc.Reading? && s.pc.id == i < |s.conns| && ConnOk(c) && WokenUp(c, i, s.ready)
    requires c == s.conns[i].(inbound := c.inbound, received := c.received)
    requires Sessions.Partial(c.received) && target == Sessions.LoopTarget(c.received)
    requires |c.received| < PACKET_HEADER + target
    ensures Inv(WithConn(s, i, c).(pc := Reading(i, target)))
  {
    hide ConnOk, Counts, Project, PacketsOf, Fold, Successor, Sessions.Partial, Sessions.LoopTarget;
    var s' := WithConn(s, i, c).(pc := Reading(i, target));
    LogStays(s.conns[i], c, i, s.log);
    assert forall e <- s.ready :: Watched(s.conns, e);
    assert BacklogOk(s'.conns, s'.backlog) && LogOk(s'.conns, s'.lists, s'.log);
  }

  lemma LogStays(b: Conn, c: Conn, i: nat, log: seq<Entry>)
    requires LogAt(b, i, log) && c == b.(inbound := c.inbound, received := c.received)
    ensures LogAt(c, i, log)
  {
  }

  lemma WholeRead(invoke: Argv.Invoke, s: State, i: nat, n: nat)
    requires Inv(s) && s.pc.Reading? && s.pc.id == i < |s.conns|
    requires s.conns[i].sent != [] && s.conns[i].life == Open && 1 <= n <= |s.conns[i].inbound|
    requires ConnOk(s.conns[i])
    requires |s.conns[i].received| + n == |Wire(Outstanding(s.conns[i]))| && !s.conns[i].terminated
    requires var c := ReadBytes(s.conns[i], n);
      && |c.received| >= PACKET_HEADER && LengthField(c.received) <= PACKET_LIMIT
      && |c.received| == PACKET_HEADER + LengthField(c.received)
      && U32At(c.received, 0) == PacketOf(Outstanding(c)).op
      && c.received[PACKET_HEADER..PACKET_HEADER + LengthField(c.received)] == PacketOf(Outstanding(c)).payload
    ensures Inv(AfterRead(invoke, s, i, ReadBytes(s.conns[i], n), s.pc.target))
  {
    hide Inv, Traffic, Alive, AfterRead, Perform, Performed, EncodePacket, LengthField, U32At, PacketOf, Argv.TraceFits;
    ReceivedIsFront(s.conns[i]);
    PerformOk(s.conns[i], n);
    var p := PacketOf(Outstanding(s.conns[i]));
    ClientOps(Outstanding(s.conns[i]));
    AfterWholeRead(invoke, s, i, ReadBytes(s.conns[i], n), s.pc.target, p);
    if Argv.TraceFits(invoke, s.lists, p.op) {
      PerformKeeps(s, i, n);
    } else {
      OverKeeps(s, Overrun);
    }
  }

  /** No client call sends the trace of a fatal error. */
  lemma ClientOps(r: Request)
    requires r.Sendable()
    ensures PacketOf(r).op != OP_TR_FATAL
  {
  }

  lemma AfterWholeRead(invoke: Argv.Invoke, s: State, i: nat, c: Conn, target: nat, p: Packet)
    requires i < |s.conns|
    requires |c.received| >= PACKET_HEADER && LengthField(c.received) <= PACKET_LIMIT && !c.terminated
    requires |c.received| == PACKET_HEADER + LengthField(c.received)
    requires p == Packet(U32At(c.received, 0), c.received[PACKET_HEADER..PACKET_HEADER + LengthField(c.received)])
    requires p.op != OP_TR_FATAL
    ensures AfterRead(invoke, s, i, c, target) ==
      if Argv.TraceFits(invoke, s.lists, p.op) then Performing(s, i, Performed(c, p), p) else s.(pc := Over(Overrun))
  {
    hide Argv.TraceFits;
  }

  lemma PerformKeeps(s: State, i: nat, n: nat)
    requires Inv(s) && s.pc.Reading? && s.pc.id == i < |s.conns| && n <= |s.conns[i].inbound|
    requires ConnOk(s.conns[i]) && s.conns[i].sent != [] && s.conns[i].done == |s.conns[i].sent| - 1
    requires s.conns[i].sent[s.conns[i].done].Sendable() && s.conns[i].inbound[n..] == []
    requires ConnOk(Performed(ReadBytes(s.conns[i], n), PacketOf(Outstanding(s.conns[i]))))
    ensures var p := PacketOf(Outstanding(s.conns[i]));
      Inv(Performing(s, i, Performed(ReadBytes(s.conns[i], n), p), p))
  {
    hide Traffic, Alive, LastTid, Project, PacketsOf, Fold, Successor, Sessions.Partial, Sessions.LoopTarget;
    hide EncodePacket, Perform, U32At;
    var p := PacketOf(Outstanding(s.conns[i]));
    var c := Performed(ReadBytes(s.conns[i], n), p);
    var s' := Performing(s, i, c, p);
    InvConn(s, i);
    PerformLogged(s.conns, s.lists, s.log, i, c);
    assert forall e <- s.ready :: Watched(s.conns, e);
    assert WakeOk(s') by {
      forall j | 0 <= j < |s'.conns|
        ensures WokenUp(s'.conns[j], j, s'.ready)
      {
        assert WokenUp(s.conns[j], j, s.ready);
      }
    }
  }

  /** The log grows by the current request of the connection that was performed. */
  lemma PerformLogged(conns: seq<Conn>, lists: Lists, log: seq<Entry>, i: nat, c: Conn)
    requires LogOk(conns, lists, log) && i < |conns| && ConnOk(conns[i]) && ConnOk(c)
    requires c.sent == conns[i].sent && conns[i].done < |c.sent| && c.done == conns[i].done + 1
    ensures var p := PacketOf(c.sent[conns[i].done]);
      LogOk(conns[i := c], Perform(lists, p), log + [Entry(i, p)])
  {
    hide Traffic, Alive, LastTid, Perform;
    var b, p := conns[i], PacketOf(c.sent[conns[i].done]);
    var log' := log + [Entry(i, p)];
    assert log'[..|log|] == log;
    assert c.sent[..c.done][..b.done] == b.sent[..b.done];
    assert LogAt(b, i, log);
    var conns' := conns[i := c];
    forall j | 0 <= j < |conns'|
      ensures LogAt(conns'[j], j, log')
    {
      assert LogAt(conns[j], j, log);
    }
  }

  // ---- Acknowledging ----

  lemma AckKeeps(cfg: Setup, s: State, n: nat)
    requires Inv(s) && Enabled(cfg, s, Monitor.Ack(n))
    ensures Inv(Apply(cfg, s, Monitor.Ack(n)))
  {
    var i := s.pc.id;
    var b := s.conns[i];
    InvConn(s, i);
    assert b.acked < PACKET_HEADER;
    AckTraffic(b, n);
    var c := AckBytes(b, n);
    if c.acked < PACKET_HEADER {
      AckOk(b, n);
      AckProgress(s, i, c);
    } else if c.terminated {
      FreeOk(b, n);
      AckEnds(s, i, Freeing(c));
    } else {
      AckOk(b, n);
      AckEnds(s, i, c);
    }
  }

  lemma AckProgress(s: State, i: nat, c: Conn)
    requires Inv(s) && s.pc == Acking(i) && i < |s.conns| && ConnOk(c) && c.acked < PACKET_HEADER
    requires c == s.conns[i].(outbound := c.outbound, acked := c.acked)
    ensures Inv(WithConn(s, i, c))
  {
    hide Traffic, Alive, LastTid, Fold, Project, PacketsOf, Successor, Sessions.Partial, Sessions.LoopTarget;
    assert LogAt(s.conns[i], i, s.log);
    assert forall e <- s.ready :: Watched(s.conns, e);
    assert WokenUp(s.conns[i], i, s.ready);
  }

  /** The acknowledgement is complete: the session stays linked, or is freed and unlinked. */
  lemma AckEnds(s: State, i: nat, c: Conn)
    requires Inv(s) && s.pc == Acking(i) && i < |s.conns| && ConnOk(c) && c.acked == PACKET_HEADER
    requires s.conns[i].life == Open && c.received == c.inbound == []
    requires c == s.conns[i].(outbound := c.outbound, acked := c.acked, life := c.life, edge := c.edge)
    requires c.life == Open || c.life == Freed
    ensures var s' := WithConn(s, i, c);
      Inv(Return(if c.life == Freed then s'.(ready := Unlink(s.ready, Session(i))) else s'))
  {
    hide Traffic, Alive, LastTid, Fold, Project, PacketsOf, Successor, Position, Return, Unlink;
    hide Sessions.Partial, Sessions.LoopTarget;
    var s' := WithConn(s, i, c);
    assert LogAt(s.conns[i], i, s.log);
    assert LogOk(s'.conns, s'.lists, s'.log);
    assert BacklogOk(s'.conns, s'.backlog);
    assert forall j :: 0 <= j < |s'.conns| && j != i ==> s'.conns[j] == s.conns[j];
    forall j | 0 <= j < |s'.conns|
      ensures WokenUp(s'.conns[j], j, s.ready)
    {
      assert WokenUp(s.conns[j], j, s.ready);
    }
    assert NextOk(s', Session(i));
    SuccessorIn(s.ready, Session(i));
    assert forall e <- s.ready :: Watched(s.conns, e);
    if c.life == Freed {
      FreedAndReturn(s', i);
    } else {
      assert ReadyOk(s'.conns, s'.ready);
      ReturnOk(s');
    }
  }

  lemma FreedAndReturn(s: State, i: nat)
    requires ConnsOk(s.conns) && BacklogOk(s.conns, s.backlog) && LogOk(s.conns, s.lists, s.log)
    requires i < |s.conns| && s.conns[i].life == Freed && NextOk(s, Session(i))
    requires Distinct(s.ready)
    requires forall e <- s.ready :: e != Session(i) ==> Watched(s.conns, e)
    requires s.backlog != [] ==> s.listenerEdge || Listener in s.ready
    requires forall j :: 0 <= j < |s.conns| ==>
      WokenUp(s.conns[j], j, s.ready) && s.conns[j].acked >= PACKET_HEADER
      && (|s.conns[j].received| == PACKET_HEADER ==> s.pausedAtHeader)
    ensures Inv(Return(s.(ready := Unlink(s.ready, Session(i)))))
  {
    hide ConnOk, LogAt, LogOk, BacklogOk, Position, Unlink, Return;
    var s' := s.(ready := Unlink(s.ready, Session(i)));
    SplitAt(s.ready, Session(i));
    SuccessorIn(s.ready, Session(i));
    assert ReadyOk(s'.conns, s'.ready);
    assert WakeOk(s') by {
      forall j | 0 <= j < |s'.conns|
        ensures WokenUp(s'.conns[j], j, s'.ready)
      {
        assert WokenUp(s.conns[j], j, s.ready);
      }
    }
    ReturnOk(s');
  }

  /** With room for eight bytes the acknowledgement never finds its socket full. */
  lemma AckNeverWaits(cfg: Setup, s: State)
    requires Inv(s) && cfg.outbound >= PACKET_HEADER
    ensures !Enabled(cfg, s, AckAgain)
  {
    if s.pc.Acking? && s.pc.id < |s.conns| {
      InvConn(s, s.pc.id);
      assert s.conns[s.pc.id].acked < PACKET_HEADER;
      AckTraffic(s.conns[s.pc.id], 0);
    }
  }

  // ---- All steps, all runs ----

  lemma StepKeepsInv(cfg: Setup, s: State, step: Step)
    requires Inv(s) && cfg.outbound >= PACKET_HEADER && Enabled(cfg, s, step)
    ensures Inv(Apply(cfg, s, step))
  {
    hide Inv, Apply, Enabled;
    match step
    case Connect => ConnectKeeps(cfg, s);
    case Begin(c, r) => BeginKeeps(cfg, s, c, r);
    case Send(c, n) => SendKeeps(cfg, s, c, n);
    case Receive(c, n) => ReceiveKeeps(cfg, s, c, n);
    case Vanish(c) => VanishKeeps(cfg, s, c);
    case Spurious(e) => SpuriousKeeps(cfg, s, e);
    case Deliver(e) => DeliverKeeps(cfg, s, e);
    case Dispatch => DispatchKeeps(cfg, s);
    case Accept(edge) => AcceptKeeps(cfg, s, edge);
    case AcceptAgain => AcceptAgainKeeps(cfg, s);
    case Read(n) => ReadKeeps(cfg, s, n);
    case ReadAgain => ReadAgainKeeps(cfg, s);
    case ReadNothing => ReadNothingKeeps(cfg, s);
    case Ack(n) => AckKeeps(cfg, s, n);
    case AckAgain => AckNeverWaits(cfg, s);
    case AckFails => AckFailsKeeps(cfg, s);
    case Die => DieKeeps(cfg, s);
  }

  lemma DieKeeps(cfg: Setup, s: State)
    requires Inv(s) && Enabled(cfg, s, Die)
    ensures Inv(Apply(cfg, s, Die))
  {
    hide Inv;
    OverKeeps(s, Killed);
  }

  /** The end of the monitor, but for an exit by itself, asks for nothing. */
  lemma OverKeeps(s: State, why: End)
    requires Inv(s) && why != Protocol
    ensures Inv(s.(pc := Over(why)))
  {
    hide ConnOk, LogAt, Successor, Sessions.Partial;
  }

  lemma InitInv()
    ensures Inv(INIT)
  {
  }

  lemma {:induction false} RunKeepsInv(cfg: Setup, s: State, steps: seq<Step>, s': State)
    requires Inv(s) && cfg.outbound >= PACKET_HEADER && Run(cfg, s, steps, s')
    ensures Inv(s')
    decreases |steps|
  {
    hide Inv, Apply, Enabled;
    if steps != [] {
      StepKeepsInv(cfg, s, steps[0]);
      RunKeepsInv(cfg, Apply(cfg, s, steps[0]), steps[1..], s');
    }
  }

  lemma ReachableInv(cfg: Setup, s: State)
    requires Reachable(cfg, s) && cfg.outbound >= PACKET_HEADER
    ensures Inv(s)
  {
    hide Inv;
    var steps :| Run(cfg, INIT, steps, s);
    InitInv();
    RunKeepsInv(cfg, INIT, steps, s);
  }

  // ---- Runs one after the other ----

  lemma {:induction false} RunConcat(cfg: Setup, s: State, steps: seq<Step>, t: State, more: seq<Step>, u: State)
    requires Run(cfg, s, steps, t) && Run(cfg, t, more, u)
    ensures Run(cfg, s, steps + more, u)
    decreases |steps|
  {
    hide Apply, Enabled;
    if steps == [] {
      assert steps + more == more;
    } else {
      RunConcat(cfg, Apply(cfg, s, steps[0]), steps[1..], t, more, u);
      assert (steps + more)[1..] == steps[1..] + more;
    }
  }

  lemma ReachableOn(cfg: Setup, s: State, steps: seq<Step>, s': State)
    requires Reachable(cfg, s) && Run(cfg, s, steps, s')
    ensures Reachable(cfg, s')
  {
    hide Run;
    var before :| Run(cfg, INIT, before, s);
    RunConcat(cfg, INIT, before, s, steps, s');
  }

  lemma Then(cfg: Setup, s: State, step: Step)
    requires Reachable(cfg, s) && Enabled(cfg, s, step)
    ensures Reachable(cfg, Apply(cfg, s, step))
  {
    hide Apply, Enabled, Reachable;
    var s' := Apply(cfg, s, step);
    assert Run(cfg, s', [], s');
    assert [step][1..] == [];
    ReachableOn(cfg, s, [step], s');
  }
}
