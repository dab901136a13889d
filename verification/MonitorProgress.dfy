/** Progress: the monitor and its clients never deadlock, and the work they do between two
    requests is bounded by a potential, so every call returns unless the monitor exits. */
module MonitorProgress {
  import opened Bytes
  import opened Packets
  import opened Sequences
  import opened Monitor
  import opened Connections
  import opened MonitorInv
  import opened MonitorSafety
  import opened MonitorTheorems
  import Argv
  import Sessions
  import Stores

  // ---- The potential ----

  /** What one connection can still cause: bytes to send, to read, to answer and to receive, an
      edge to report, a connection to accept. */
  function Weight(c: Conn): int
  {
    (if c.client.Writing? then 5 * |c.client.rest| else 0) + |c.inbound| + |c.outbound|
    + 24 * (|c.sent| - c.done) + 3 * (PACKET_HEADER - c.acked)
    + (if c.edge then 3 else 0) + (if c.life == Queued then 6 else 0)
  }

  function Load(conns: seq<Conn>): int
  {
    if conns == [] then 0 else Load(conns[..|conns| - 1]) + Weight(conns[|conns| - 1])
  }

  /** The events from a captured successor to the end of the list. */
  function Pending(ready: seq<Event>, next: Option<Event>): int
  {
    if next.None? then 0 else |ready| - Position(ready, next.value)
  }

  /** The ready list costs two per event, less what the present pass has left to do. */
  function ListWeight(s: State): int
  {
    match s.pc
    case Waiting => 2 * |s.ready|
    case Over(_) => 0
    case _ => 2 * |s.ready| - 1 - Pending(s.ready, s.next)
  }

  function Potential(s: State): int
  {
    Load(s.conns) + (if s.listenerEdge then 3 else 0) + ListWeight(s)
  }

  /** What a step may add to the potential: requests and connections bring work, an edge brings a
      little, and every other step uses up at least one unit. */
  function Allowance(step: Step): int
  {
    match step
    case Connect => 9
    case Begin(_, r) => if r.Sendable() then 5 * |Wire(r)| + 24 else 0
    case Vanish(_) => 3
    case Spurious(_) => 3
    case Die => 0
    case _ => -1
  }

  /** The steps by which calls get done; the others start calls, or come from outside. */
  predicate Productive(step: Step)
  {
    !step.Connect? && !step.Begin? && !step.Vanish? && !step.Spurious? && !step.Die?
  }

  lemma {:induction false} LoadUpdate(conns: seq<Conn>, i: nat, c: Conn)
    requires i < |conns|
    ensures Load(conns[i := c]) == Load(conns) - Weight(conns[i]) + Weight(c)
  {
    hide Weight;
    var n := |conns| - 1;
    if i < n {
      LoadUpdate(conns[..n], i, c);
      assert conns[i := c][..n] == conns[..n][i := c];
    } else {
      assert conns[i := c][..n] == conns[..n];
    }
  }

  lemma {:induction false} LoadNat(conns: seq<Conn>)
    requires ConnsOk(conns)
    ensures Load(conns) >= 0
  {
    if conns != [] {
      var n := |conns| - 1;
      LoadNat(conns[..n]);
      WeightNat(conns[n]);
    }
  }

  lemma WeightNat(c: Conn)
    requires ConnOk(c)
    ensures Weight(c) >= 0
  {
    hide EncodePacket, LastTid;
  }

  lemma PotentialNat(s: State)
    requires Inv(s)
    ensures Potential(s) >= 0
    ensures !s.pc.Over? && s.pc != Waiting ==> ListWeight(s) > 0
  {
    hide ConnOk, LogAt, Sessions.Partial, Sessions.LoopTarget, Weight, Load;
    LoadNat(s.conns);
  }

  // ---- The dispatch loop ----

  /** Between two handlers the list weighs two per event, less the events still to be called. */
  lemma ReturnWeight(s: State)
    requires ReadyOk(s.conns, s.ready) && (s.next.Some? ==> s.next.value in s.ready)
    ensures ListWeight(Return(s)) == 2 * |s.ready| - Pending(s.ready, s.next)
    ensures Potential(Return(s)) == Load(s.conns) + (if s.listenerEdge then 3 else 0) + ListWeight(Return(s))
  {
    hide Load, ConnOk;
    if s.next.Some? {
      assert Watched(s.conns, s.next.value);
    }
  }

  /** Unlinking the current event leaves the rest of the pass as it was. */
  lemma UnlinkWeight(s: State, e: Event)
    requires NextOk(s, e) && Distinct(s.ready)
    ensures |Unlink(s.ready, e)| == |s.ready| - 1
    ensures Pending(Unlink(s.ready, e), s.next) == Pending(s.ready, s.next)
    ensures s.next.Some? ==> s.next.value in Unlink(s.ready, e)
  {
    SplitAt(s.ready, e);
    if s.next.Some? {
      var i := Position(s.ready, e);
      assert Position(s.ready, s.next.value) == i + 1;
      assert Unlink(s.ready, e)[i] == s.next.value;
      assert Position(Unlink(s.ready, e), s.next.value) == i;
    }
  }

  /** A handler unlinks the current event and returns: one unit is used up. */
  lemma UnlinkReturnWeight(s: State, e: Event)
    requires NextOk(s, e) && Distinct(s.ready)
    requires forall x <- s.ready :: x != e ==> Watched(s.conns, x)
    requires s.pc.Accepting? || s.pc.Reading? || s.pc.Acking?
    ensures Potential(Return(s.(ready := Unlink(s.ready, e)))) == Potential(s) - 1
  {
    hide Load, Position, Unlink, Successor, Watched, Return;
    UnlinkWeight(s, e);
    SplitAt(s.ready, e);
    ReturnWeight(s.(ready := Unlink(s.ready, e)));
  }

  /** Linking an event costs at most two units. */
  lemma LinkWeight(s: State, e: Event)
    requires s.next.Some? ==> s.next.value in s.ready
    ensures |s.ready| <= |Link(s.ready, e)| <= |s.ready| + 1
    ensures Pending(Link(s.ready, e), s.next)
      == Pending(s.ready, s.next) + (if s.next.Some? then |Link(s.ready, e)| - |s.ready| else 0)
  {
    if s.next.Some? {
      PositionInPrefix(s.ready, [e], s.next.value);
    }
  }

  // ---- Every step against its allowance ----

  /** A step that changes one connection and nothing else. */
  lemma ConnWeight(s: State, i: nat, c: Conn)
    requires i < |s.conns|
    ensures Potential(WithConn(s, i, c)) == Potential(s) - Weight(s.conns[i]) + Weight(c)
  {
    hide Weight, Load, Pending;
    LoadUpdate(s.conns, i, c);
  }

  lemma ClientStepWeight(cfg: Setup, s: State, step: Step)
    requires Enabled(cfg, s, step) && (step.Begin? || step.Send? || step.Receive? || step.Vanish? || step.Spurious?)
    ensures Potential(Apply(cfg, s, step)) <= Potential(s) + Allowance(step)
  {
    hide Weight, EncodePacket, ListWeight, Potential, WithConn, Beginning, SendBytes, ReceiveBytes;
    match step
    case Begin(i, r) =>
      ConnWeight(s, i, Beginning(s.conns[i], r));
      BeginWeight(s.conns[i], r);
    case Send(i, n) =>
      ConnWeight(s, i, SendBytes(s.conns[i], n));
      SendWeight(s.conns[i], n);
    case Receive(i, n) =>
      ConnWeight(s, i, ReceiveBytes(s.conns[i], n));
      ReceiveWeight(s.conns[i], n);
    case Vanish(i) =>
      ConnWeight(s, i, Vanished(s.conns[i]));
      VanishWeight(s.conns[i]);
    case Spurious(e) =>
      if e.Session? {
        ConnWeight(s, e.id, s.conns[e.id].(edge := true));
        EdgeWeight(s.conns[e.id]);
      } else {
        SameListWeight(s, s.(listenerEdge := true));
      }
  }

  lemma BeginWeight(c: Conn, r: Request)
    requires c.client == Idle && r.Sendable()
    ensures Weight(Beginning(c, r)) == Weight(c) + 5 * |Wire(r)| + 24
  {
    hide EncodePacket;
  }

  /** A byte on its way in costs one, and an edge three: sending even one byte loses a unit. */
  lemma SendWeight(c: Conn, n: nat)
    requires c.client.Writing? && 1 <= n <= |c.client.rest|
    ensures Weight(SendBytes(c, n)) <= Weight(c) - 1
  {
  }

  lemma ReceiveWeight(c: Conn, n: nat)
    requires c.client.Awaiting? && 1 <= n <= |c.outbound|
    ensures Weight(ReceiveBytes(c, n)) == Weight(c) - n
  {
    hide U32At;
  }

  lemma VanishWeight(c: Conn)
    ensures Weight(Vanished(c)) <= Weight(c) + 3
  {
  }

  lemma EdgeWeight(c: Conn)
    ensures Weight(c.(edge := true)) <= Weight(c) + 3
  {
  }

  lemma SameListWeight(s: State, s': State)
    requires s'.ready == s.ready && s'.pc == s.pc && s'.next == s.next && s'.conns == s.conns
    ensures Potential(s') == Potential(s) - (if s.listenerEdge then 3 else 0) + (if s'.listenerEdge then 3 else 0)
  {
  }

  lemma ConnectWeight(cfg: Setup, s: State)
    requires Enabled(cfg, s, Connect)
    ensures Potential(Apply(cfg, s, Connect)) <= Potential(s) + 9
  {
    hide Pending;
    assert (s.conns + [NEW_CONN])[..|s.conns|] == s.conns;
  }

  lemma DeliverWeight(cfg: Setup, s: State, e: Event)
    requires Inv(s) && Enabled(cfg, s, Deliver(e))
    ensures Potential(Apply(cfg, s, Deliver(e))) <= Potential(s) - 1
  {
    hide Inv, Load;
    if e.Session? {
      LoadUpdate(s.conns, e.id, s.conns[e.id].(edge := false));
    }
  }

  lemma AcceptWeight(cfg: Setup, s: State, edge: bool)
    requires Inv(s) && Enabled(cfg, s, Accept(edge))
    ensures Potential(Apply(cfg, s, Accept(edge))) <= Potential(s) - 1
  {
    hide ConnOk, LogAt, Load, Link, Pending, Fold, Position;
    var i := s.backlog[0];
    InvConn(s, i);
    AcceptConn(s.conns[i], i, edge, s.log);
    LoadUpdate(s.conns, i, Registered(s.conns[i], edge));
    SuccessorIn(s.ready, Listener);
    LinkWeight(s, Session(i));
    QueuedWeight(s.conns[i], edge);
  }

  lemma QueuedWeight(c: Conn, edge: bool)
    requires ConnOk(c) && c.life == Queued
    ensures Weight(c.(life := Open, edge := edge)) <= Weight(c) - 3
  {
    hide Traffic, Counts;
  }

  lemma DispatchWeight(cfg: Setup, s: State)
    requires Inv(s) && Enabled(cfg, s, Dispatch)
    ensures Potential(Apply(cfg, s, Dispatch)) <= Potential(s) - 1
  {
    hide ConnOk, LogAt, Load, Return, Watched;
    ReturnWeight(s.(next := Some(s.ready[0])));
  }

  lemma AcceptAgainWeight(cfg: Setup, s: State)
    requires Inv(s) && Enabled(cfg, s, AcceptAgain)
    ensures Potential(Apply(cfg, s, AcceptAgain)) <= Potential(s) - 1
  {
    hide ConnOk, LogAt, Load, Return, Unlink, Successor, Potential, Watched;
    UnlinkReturnWeight(s, Listener);
  }

  lemma ReadAgainWeight(cfg: Setup, s: State)
    requires Inv(s) && Enabled(cfg, s, ReadAgain)
    ensures Potential(Apply(cfg, s, ReadAgain)) <= Potential(s) - 1
  {
    hide ConnOk, LogAt, Load, Return, Unlink, Successor, Pending, Watched, Sessions.Partial;
    var s' := s.(pausedAtHeader := s.pausedAtHeader || |s.conns[s.pc.id].received| == PACKET_HEADER);
    assert Apply(cfg, s, ReadAgain) == Return(s'.(ready := Unlink(s'.ready, Session(s.pc.id))));
    UnlinkReturnWeight(s', Session(s.pc.id));
  }

  /** A read uses up the bytes it takes; performing a request turns 24 units owed for it into
      the 24 owed for its acknowledgement. */
  lemma ReadWeight(cfg: Setup, s: State, n: nat)
    requires Inv(s) && Enabled(cfg, s, Read(n))
    ensures Potential(Apply(cfg, s, Read(n))) <= Potential(s) - 1
  {
    hide Inv, Load, Pending, LengthField, Stores.Perform, U32At, ConnOk, Sessions.Partial, Sessions.LoopTarget;
    hide Argv.TraceFits, EndSession, Weight;
    var i := s.pc.id;
    var b, s' := s.conns[i], Apply(cfg, s, Read(n));
    InvReading(s);
    PotentialNat(s);
    ReadBytesWeight(b, n);
    forall p
      ensures Weight(Performed(ReadBytes(b, n), p)) == Weight(ReadBytes(b, n))
    {
      PerformedWeight(ReadBytes(b, n), p);
    }
    LoadUpdate(s.conns, i, s'.conns[i]);
    assert s'.pc == Over(Overrun) || s'.conns == s.conns[i := s'.conns[i]];
  }

  lemma ReadBytesWeight(c: Conn, n: nat)
    requires n <= |c.inbound|
    ensures Weight(ReadBytes(c, n)) == Weight(c) - n
  {
  }

  /** The 24 units owed for a request become the 24 owed for its acknowledgement. */
  lemma PerformedWeight(c: Conn, p: Packet)
    requires c.acked == PACKET_HEADER
    ensures Weight(Performed(c, p)) == Weight(c)
  {
    hide U32At;
  }

  lemma AckWeight(cfg: Setup, s: State, n: nat)
    requires Inv(s) && Enabled(cfg, s, Monitor.Ack(n))
    ensures Potential(Apply(cfg, s, Monitor.Ack(n))) <= Potential(s) - 1
  {
    hide ConnOk, LogAt, Load, Return, Unlink, Successor, Pending, Position, Fold, Sessions.Partial, Sessions.LoopTarget;
    var i := s.pc.id;
    var c := AckBytes(s.conns[i], n);
    LoadUpdate(s.conns, i, c);
    LoadUpdate(s.conns, i, Freeing(c));
    SuccessorIn(s.ready, Session(i));
    assert forall e <- s.ready :: Watched(s.conns, e);
    if c.acked == PACKET_HEADER {
      if c.terminated {
        UnlinkReturnWeight(WithConn(s, i, Freeing(c)), Session(i));
      } else {
        ReturnWeight(WithConn(s, i, c));
      }
    }
  }

  /** Every step uses up the potential it is not allowed to add. */
  lemma StepWeight(cfg: Setup, s: State, step: Step)
    requires Inv(s) && cfg.outbound >= PACKET_HEADER && Enabled(cfg, s, step)
    ensures Potential(Apply(cfg, s, step)) <= Potential(s) + Allowance(step)
  {
    hide Inv, Apply, Potential;
    match step
    case Connect => ConnectWeight(cfg, s);
    case Deliver(e) => DeliverWeight(cfg, s, e);
    case Dispatch => DispatchWeight(cfg, s);
    case Accept(edge) => AcceptWeight(cfg, s, edge);
    case AcceptAgain => AcceptAgainWeight(cfg, s);
    case Read(n) => ReadWeight(cfg, s, n);
    case ReadAgain => ReadAgainWeight(cfg, s);
    case Ack(n) => AckWeight(cfg, s, n);
    case AckAgain => AckNeverWaits(cfg, s);
    case ReadNothing => ExitWeight(cfg, s, step);
    case AckFails => ExitWeight(cfg, s, step);
    case Die => ExitWeight(cfg, s, step);
    case _ => ClientStepWeight(cfg, s, step);
  }

  lemma ExitWeight(cfg: Setup, s: State, step: Step)
    requires Inv(s) && Enabled(cfg, s, step) && (step.ReadNothing? || step.AckFails? || step.Die?)
    ensures Potential(Apply(cfg, s, step)) <= Potential(s) + Allowance(step)
  {
    hide Inv, Load, Pending, EndSession;
    PotentialNat(s);
    if step.ReadNothing? {
      ReadNothingKeeps(cfg, s);
    }
  }

  // ---- Whole runs ----

  function Work(steps: seq<Step>): nat
  {
    if steps == [] then 0 else Work(steps[1..]) + if Productive(steps[0]) then 1 else 0
  }

  /** What the requests, connections, hang-ups and spurious edges of a run bring. */
  function Brought(steps: seq<Step>): nat
  {
    if steps == [] then 0 else Brought(steps[1..]) + if Productive(steps[0]) then 0 else Allowance(steps[0])
  }

  /** The monitor never spins: in any run from any reachable state, the number of system calls
      both sides make is bounded by the potential at the start and by what was brought in. */
  lemma {:induction false} WorkIsBounded(cfg: Setup, s: State, steps: seq<Step>, s': State)
    requires Inv(s) && cfg.outbound >= PACKET_HEADER && Run(cfg, s, steps, s')
    ensures 0 <= Potential(s') <= Potential(s) + Brought(steps) - Work(steps)
    decreases |steps|
  {
    hide Inv, Apply, Enabled, Potential;
    PotentialNat(s);
    if steps != [] {
      StepKeepsInv(cfg, s, steps[0]);
      StepWeight(cfg, s, steps[0]);
      WorkIsBounded(cfg, Apply(cfg, s, steps[0]), steps[1..], s');
    }
  }

  // ---- No deadlock, and every call returns ----

  /** Every call has come back with 0, but for clients that left without waiting. */
  predicate AllReturned(conns: seq<Conn>)
  {
    forall i :: 0 <= i < |conns| && !conns[i].gone ==> conns[i].returned == |conns[i].sent|
  }

  /** Nobody can do anything about the calls in progress. */
  ghost predicate Halted(cfg: Setup, s: State)
  {
    forall step :: Enabled(cfg, s, step) ==> !Productive(step)
  }

  lemma HandlerMoves(cfg: Setup, s: State) returns (step: Step)
    requires Inv(s) && cfg.outbound >= PACKET_HEADER && s.pc != Waiting && !s.pc.Over?
    ensures Enabled(cfg, s, step) && Productive(step)
  {
    hide Inv, ConnOk;
    if s.pc.Accepting? {
      step := if s.backlog == [] then AcceptAgain else Accept(false);
      QueueHead(s);
    } else if s.pc.Reading? {
      InvReading(s);
      step := ReaderMoves(cfg, s);
    } else {
      step := AckerMoves(cfg, s);
    }
  }

  lemma QueueHead(s: State)
    requires Inv(s)
    ensures s.backlog != [] ==> s.backlog[0] < |s.conns|
  {
    hide ConnOk, LogOk, ReadyOk, WakeOk, PcOk, PauseOk;
    assert s.backlog != [] ==> s.backlog[0] in s.backlog;
  }

  lemma ReaderMoves(cfg: Setup, s: State) returns (step: Step)
    requires s.pc.Reading? && s.pc.id < |s.conns|
    requires Stuck(s.conns[s.pc.id], s.pc.target) ||
      (Sessions.Partial(s.conns[s.pc.id].received) && s.pc.target == Sessions.LoopTarget(s.conns[s.pc.id].received))
    ensures Enabled(cfg, s, step) && Productive(step)
  {
    hide Sessions.LoopTarget;
    var c := s.conns[s.pc.id];
    step := if |c.received| == PACKET_HEADER + s.pc.target then ReadNothing
            else if c.inbound != [] then Read(1) else if c.HungUp() then ReadNothing else ReadAgain;
  }

  lemma AckerMoves(cfg: Setup, s: State) returns (step: Step)
    requires Inv(s) && cfg.outbound >= PACKET_HEADER && s.pc.Acking?
    ensures Enabled(cfg, s, step) && Productive(step)
  {
    hide Inv, Counts, Alive, EncodePacket;
    AckerPlace(s);
    InvConn(s, s.pc.id);
    AckTraffic(s.conns[s.pc.id], 0);
    step := if s.conns[s.pc.id].HungUp() then AckFails else Monitor.Ack(1);
  }

  lemma AckerPlace(s: State)
    requires Inv(s) && s.pc.Acking?
    ensures s.pc.id < |s.conns| && s.conns[s.pc.id].acked < PACKET_HEADER
  {
    hide ConnsOk, ReadyOk, BacklogOk, WakeOk, LogOk, PauseOk, NextOk;
  }

  /** In epoll_wait with something linked or to be reported the monitor moves; otherwise a
      client whose call is in progress does. */
  lemma WaitingMoves(cfg: Setup, s: State) returns (step: Step)
    requires Inv(s) && cfg.outbound >= PACKET_HEADER && cfg.inbound > 0
    requires s.pc == Waiting && !(Blocks(s) && AllReturned(s.conns))
    ensures Enabled(cfg, s, step) && Productive(step)
  {
    hide Inv;
    if s.ready != [] {
      step := Dispatch;
    } else if s.listenerEdge {
      step := Deliver(Listener);
    } else if i: nat :| i < |s.conns| && s.conns[i].edge {
      step := Deliver(Session(i));
    } else {
      var i: nat :| i < |s.conns| && !s.conns[i].gone && s.conns[i].returned != |s.conns[i].sent|;
      step := ClientMoves(cfg, s, i);
    }
  }

  /** When epoll_wait blocks, a call that has not returned can go on by itself. */
  lemma ClientMoves(cfg: Setup, s: State, i: nat) returns (step: Step)
    requires Inv(s) && Blocks(s) && cfg.inbound > 0
    requires i < |s.conns| && !s.conns[i].gone && s.conns[i].returned != |s.conns[i].sent|
    ensures Enabled(cfg, s, step) && Productive(step)
  {
    hide ConnsOk, ReadyOk, LogOk, PcOk, PauseOk, WokenUp, EncodePacket, LastTid;
    InvConn(s, i);
    step := if s.conns[i].client.Writing? then Send(i, 1) else Receive(i, 1);
    assert s.backlog == [];
    assert s.conns[i].inbound == [] by { QueuedOrWoken(s.conns[i], i, s.backlog); }
  }

  lemma QueuedOrWoken(c: Conn, i: nat, backlog: seq<nat>)
    requires ConnOk(c) && WokenUp(c, i, []) && !c.edge && backlog == [] && (i in backlog <==> c.life == Queued)
    ensures c.inbound == []
  {
    hide EncodePacket, LastTid;
  }

  /** No deadlock: while the monitor lives, nobody can move if and only if the monitor blocks in
      epoll_wait and every call of a client still there has returned. */
  lemma HaltedIff(cfg: Setup, s: State)
    requires Inv(s) && cfg.outbound >= PACKET_HEADER && cfg.inbound > 0 && !s.pc.Over?
    ensures Halted(cfg, s) <==> Blocks(s) && AllReturned(s.conns)
  {
    hide Inv, Blocks, AllReturned;
    if s.pc != Waiting {
      var step := HandlerMoves(cfg, s);
      assert !Blocks(s) by { assert s.pc != Waiting; NotBlocked(s); }
    } else if Blocks(s) && AllReturned(s.conns) {
      forall step | Enabled(cfg, s, step)
        ensures !Productive(step)
      {
        NothingLeft(cfg, s, step);
      }
    } else {
      var step := WaitingMoves(cfg, s);
    }
  }

  lemma NotBlocked(s: State)
    requires s.pc != Waiting
    ensures !Blocks(s)
  {
  }

  lemma NothingLeft(cfg: Setup, s: State, step: Step)
    requires Inv(s) && Blocks(s) && AllReturned(s.conns) && Enabled(cfg, s, step)
    ensures !Productive(step)
  {
    hide Inv, LastTid, EncodePacket;
    match step
    case Send(i, n) => InvConn(s, i);
    case Receive(i, n) => InvConn(s, i);
    case _ =>
  }
}
