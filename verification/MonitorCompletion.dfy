/** Every call can be completed: from any reachable state in which nothing went wrong yet, clients
    and monitor can go on, without pausing a read at a header, until all calls have returned. */
module MonitorCompletion {
  import opened Bytes
  import opened Packets
  import Stores
  import Argv
  import opened Monitor
  import opened Connections
  import opened MonitorInv
  import opened MonitorSafety
  import opened MonitorTheorems
  import opened MonitorProgress
  import opened MonitorTraces
  import opened MonitorExit
  import Sessions

  // ---- A halted state can always be reached ----

  /** A step to take next that pauses no read at a header: where the monitor would, the client
      whose request is incomplete sends a byte first. */
  lemma CarefulStep(cfg: Setup, s: State) returns (step: Step)
    requires Inv(s) && cfg.outbound >= PACKET_HEADER && cfg.inbound > 0 && !Halted(cfg, s)
    ensures Enabled(cfg, s, step) && Productive(step)
    ensures Apply(cfg, s, step).pausedAtHeader ==> s.pausedAtHeader
  {
    hide Inv, Apply, Enabled, Blocks, AllReturned;
    if s.pc.Over? {
      step :| Enabled(cfg, s, step) && Productive(step);
    } else if s.pc == Waiting {
      HaltedIff(cfg, s);
      step := WaitingMoves(cfg, s);
    } else {
      step := HandlerMoves(cfg, s);
      if step == ReadAgain && PausesAtHeader(s) {
        step := Send(s.pc.id, 1);
        CanSend(cfg, s);
      }
    }
    if step != ReadAgain || !PausesAtHeader(s) {
      NoPause(cfg, s, step);
    }
  }

  predicate PausesAtHeader(s: State)
  {
    s.pc.Reading? && s.pc.id < |s.conns| && |s.conns[s.pc.id].received| == PACKET_HEADER
  }

  lemma NoPause(cfg: Setup, s: State, step: Step)
    requires Enabled(cfg, s, step) && !(step == ReadAgain && PausesAtHeader(s))
    ensures Apply(cfg, s, step).pausedAtHeader ==> s.pausedAtHeader
  {
    hide Successor, Unlink, Link, Stores.Perform, LengthField, U32At, EncodePacket, Argv.TraceFits;
  }

  lemma CanSend(cfg: Setup, s: State)
    requires Inv(s) && cfg.inbound > 0 && Enabled(cfg, s, ReadAgain) && PausesAtHeader(s)
    ensures Enabled(cfg, s, Send(s.pc.id, 1))
  {
    hide Inv, EncodePacket, LastTid;
    InvConn(s, s.pc.id);
    ReceivedIsFront(s.conns[s.pc.id]);
  }

  ghost predicate AllProductive(steps: seq<Step>)
  {
    forall step <- steps :: Productive(step)
  }

  /** From any state the invariant allows, system calls alone lead to a halted one, and pause no
      read at a header. */
  lemma {:induction false} Completion(cfg: Setup, s: State) returns (steps: seq<Step>, s': State)
    requires Inv(s) && cfg.outbound >= PACKET_HEADER && cfg.inbound > 0
    ensures Run(cfg, s, steps, s') && AllProductive(steps) && Halted(cfg, s')
    ensures s'.pausedAtHeader ==> s.pausedAtHeader
    decreases Potential(s)
  {
    hide Inv, Apply, Enabled, Potential, Halted;
    PotentialNat(s);
    if Halted(cfg, s) {
      steps, s' := [], s;
    } else {
      var step := CarefulStep(cfg, s);
      var t := Apply(cfg, s, step);
      StepKeepsInv(cfg, s, step);
      StepWeight(cfg, s, step);
      PotentialNat(t);
      var more;
      more, s' := Completion(cfg, t);
      steps := [step] + more;
      assert steps[1..] == more;
    }
  }

  // ---- What system calls leave alone ----

  /** The same clients with the same calls, none more of them gone. */
  ghost predicate SameCalls(s: State, s': State)
  {
    && |s'.conns| == |s.conns|
    && forall i :: 0 <= i < |s.conns| ==> SameCall(s.conns[i], s'.conns[i])
  }

  predicate SameCall(c: Conn, c': Conn)
  {
    c'.sent == c.sent && c'.gone == c.gone && (c.life == Freed ==> c'.life == Freed)
  }

  lemma ConnSame(s: State, i: nat, c: Conn, s': State)
    requires i < |s.conns| && SameCall(s.conns[i], c) && s'.conns == s.conns[i := c]
    ensures SameCalls(s, s')
  {
  }

  lemma StepSame(cfg: Setup, s: State, step: Step)
    requires Inv(s) && cfg.outbound >= PACKET_HEADER && Enabled(cfg, s, step) && Productive(step)
    ensures SameCalls(s, Apply(cfg, s, step))
  {
    hide Inv, Stores.Perform, LengthField, Unlink, Link, Successor, U32At, EncodePacket, Return, SameCalls;
    hide Argv.TraceFits;
    match step
    case Send(c, n) => ConnSame(s, c, SendBytes(s.conns[c], n), Apply(cfg, s, step));
    case Receive(c, n) => ConnSame(s, c, ReceiveBytes(s.conns[c], n), Apply(cfg, s, step));
    case Accept(edge) => AcceptSame(cfg, s, edge);
    case Read(n) => ReadSame(cfg, s, n);
    case Ack(n) => AckSame(s, n, Apply(cfg, s, step));
    case AckAgain => AckNeverWaits(cfg, s);
    case _ => LoopSame(cfg, s, step);
  }

  lemma LoopSame(cfg: Setup, s: State, step: Step)
    requires Inv(s) && Enabled(cfg, s, step)
    requires step.Deliver? || step.Dispatch? || step.AcceptAgain? || step.ReadAgain?
      || step.ReadNothing? || step.AckFails?
    ensures SameCalls(s, Apply(cfg, s, step))
  {
    hide Inv, Unlink, Link, Successor, Enter, EndSession;
    if step.ReadNothing? {
      ReadNothingKeeps(cfg, s);
    }
  }

  lemma AcceptSame(cfg: Setup, s: State, edge: bool)
    requires Inv(s) && Enabled(cfg, s, Accept(edge))
    ensures SameCalls(s, Apply(cfg, s, Accept(edge)))
  {
    hide Inv, Link, SameCalls;
    var i := s.backlog[0];
    InvConn(s, i);
    ConnSame(s, i, Registered(s.conns[i], edge), Apply(cfg, s, Accept(edge)));
  }

  lemma ReadSame(cfg: Setup, s: State, n: nat)
    requires Inv(s) && Enabled(cfg, s, Read(n))
    ensures SameCalls(s, Apply(cfg, s, Read(n)))
  {
    hide Inv, Stores.Perform, LengthField, U32At, SameCalls, EndSession, Argv.TraceFits, Sessions.Partial;
    InvReading(s);
    var i, s' := s.pc.id, Apply(cfg, s, Read(n));
    ConnSame(s, i, s'.conns[i], s');
  }

  lemma AckSame(s: State, n: nat, s': State)
    requires s.pc.Acking? && s.pc.id < |s.conns| && s.conns[s.pc.id].acked + n <= PACKET_HEADER
    requires var c := AckBytes(s.conns[s.pc.id], n);
      s' == if c.acked < PACKET_HEADER then WithConn(s, s.pc.id, c) else AfterAck(s, s.pc.id, c)
    ensures SameCalls(s, s')
  {
    hide Return, Unlink, SameCalls;
    var i, c := s.pc.id, AckBytes(s.conns[s.pc.id], n);
    ReturnFrame(WithConn(s, i, Freeing(c)).(ready := Unlink(s.ready, Session(i))));
    ReturnFrame(WithConn(s, i, c));
    ConnSame(s, i, s'.conns[i], s');
  }

  lemma {:induction false} RunSame(cfg: Setup, s: State, steps: seq<Step>, s': State)
    requires Inv(s) && cfg.outbound >= PACKET_HEADER && Run(cfg, s, steps, s') && AllProductive(steps)
    ensures SameCalls(s, s')
    decreases |steps|
  {
    hide Inv, Apply, Enabled;
    if steps != [] {
      StepSame(cfg, s, steps[0]);
      StepKeepsInv(cfg, s, steps[0]);
      RunSame(cfg, Apply(cfg, s, steps[0]), steps[1..], s');
    }
  }

  lemma LostBefore(s: State, s': State)
    requires SameCalls(s, s') && LostOne(s'.conns)
    ensures LostOne(s.conns)
  {
    var i: nat :| i < |s'.conns| && s'.conns[i].gone && s'.conns[i].life != Freed;
    assert SameCall(s.conns[i], s'.conns[i]);
  }

  /** Nothing went wrong so far. */
  ghost predicate Sound(s: State)
  {
    !s.pc.Over? && !s.pausedAtHeader && !LostOne(s.conns)
  }

  /** Every call can be completed. From a reachable state in which the monitor lives, no read has
      paused at a header and no client is lost, some run of system calls alone, with no new
      request, ends with every call returned, unless it ends because a client waits for a trace
      whose vector does not fit. */
  lemma EveryCallCanReturn(cfg: Setup, s: State) returns (steps: seq<Step>, s': State)
    requires Reachable(cfg, s) && Sound(s) && cfg.outbound >= PACKET_HEADER && cfg.inbound > 0
    ensures Run(cfg, s, steps, s') && AllProductive(steps) && SameCalls(s, s') && Halted(cfg, s')
    ensures if OneDoomed(cfg, s') then s'.pc == Over(Overrun) else Sound(s') && Blocks(s') && AllReturned(s'.conns)
  {
    hide Inv, Apply, Enabled, Blocks, AllReturned, Halted, OneDoomed, Reachable;
    ReachableInv(cfg, s);
    steps, s' := Completion(cfg, s);
    ReachableOn(cfg, s, steps, s');
    RunSame(cfg, s, steps, s');
    if LostOne(s'.conns) {
      LostBefore(s, s');
    }
    NotKilled(cfg, s, steps, s');
    ExitIff(cfg, s');
    if s'.pc == Over(Protocol) {
      ExitHasCause(cfg, s');
    } else if s'.pc.Over? {
      Ends(s'.pc.why);
    }
  }

  /** In particular clients that between them use at most 27 distinct argument texts can always
      have all their calls completed. */
  lemma FewTextsAllReturn(cfg: Setup, s: State, texts: set<Stores.Text>) returns (steps: seq<Step>, s': State)
    requires Reachable(cfg, s) && Sound(s) && cfg.outbound >= PACKET_HEADER && cfg.inbound > 0
    requires |texts| <= 27 && UseOnly(s.conns, texts)
    ensures Run(cfg, s, steps, s') && AllProductive(steps) && SameCalls(s, s')
    ensures Sound(s') && Blocks(s') && AllReturned(s'.conns)
  {
    hide Apply, Enabled, Blocks, AllReturned, Halted, OneDoomed, Reachable;
    steps, s' := EveryCallCanReturn(cfg, s);
    ReachableOn(cfg, s, steps, s');
    forall i, r | 0 <= i < |s'.conns| && r in s'.conns[i].sent && r.Arg?
      ensures r.text in texts
    {
      assert SameCall(s.conns[i], s'.conns[i]);
    }
    FewTextsNeverOverrun(cfg, s', texts);
    NoneDoomed(cfg, s');
  }
}
