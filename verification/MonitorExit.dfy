/** When the monitor ends, and that every call returns otherwise: a pause at exactly eight bytes is
    fatal, so is a client that closes its end early, and so is a trace whose vector does not fit;
    nothing else is. */
module MonitorExit {
  import opened Bytes
  import opened Packets
  import Stores
  import opened Monitor
  import opened Connections
  import opened MonitorInv
  import opened MonitorSafety
  import opened MonitorTheorems
  import opened MonitorProgress
  import opened MonitorTraces
  import Argv
  import Sessions

  // ---- A pause at exactly eight bytes ----

  /** A session holds exactly a header, and its handler is not in the middle of reading more. */
  ghost predicate Dead(s: State, i: nat)
  {
    && i < |s.conns| && |s.conns[i].received| == PACKET_HEADER
    && (s.pc.Reading? && s.pc.id == i ==> s.pc.target == 0)
  }

  /** Its request is not performed, and its client has nothing to read. */
  lemma DeadFacts(s: State, i: nat)
    requires Inv(s) && Dead(s, i)
    ensures var c := s.conns[i];
      && c.life == Open && c.acked == PACKET_HEADER && c.returned < |c.sent|
      && c.client != Idle && c.client != Closed && c.outbound == []
    ensures i !in s.backlog
  {
    hide Inv, EncodePacket, LastTid;
    InvConn(s, i);
    ReceivedIsFront(s.conns[i]);
  }

  /** A dead session after a step: nothing that concerns it has changed. */
  ghost predicate StillDead(s: State, s': State, i: nat)
    requires i < |s.conns|
  {
    Dead(s', i) && s'.conns[i].returned == s.conns[i].returned && s'.conns[i].sent == s.conns[i].sent
  }

  /** Whatever handler comes next, a session that holds a header is not read any further. */
  lemma ReturnDead(s: State, i: nat)
    requires i < |s.conns| && |s.conns[i].received| == PACKET_HEADER
    ensures Dead(Return(s), i) && Return(s).conns == s.conns
  {
    hide Successor;
  }

  lemma DeadStays(cfg: Setup, s: State, step: Step, i: nat)
    requires Inv(s) && cfg.outbound >= PACKET_HEADER && Enabled(cfg, s, step) && Dead(s, i)
    ensures StillDead(s, Apply(cfg, s, step), i)
  {
    hide Inv, Return, Unlink, Link, EndSession, Dead, Apply, Enabled;
    match step
    case Read(n) => ReadStaysDead(cfg, s, n, i);
    case Ack(n) => AckStaysDead(cfg, s, n, i);
    case AckAgain => AckNeverWaits(cfg, s);
    case Dispatch => LoopStaysDead(cfg, s, step, i);
    case AcceptAgain => LoopStaysDead(cfg, s, step, i);
    case ReadAgain => LoopStaysDead(cfg, s, step, i);
    case ReadNothing => LoopStaysDead(cfg, s, step, i);
    case _ => EventStaysDead(cfg, s, step, i);
  }

  lemma LoopStaysDead(cfg: Setup, s: State, step: Step, i: nat)
    requires Inv(s) && Enabled(cfg, s, step) && Dead(s, i)
    requires step.Dispatch? || step.AcceptAgain? || step.ReadAgain? || step.ReadNothing?
    ensures StillDead(s, Apply(cfg, s, step), i)
  {
    hide Inv, Return, Unlink, EndSession;
    match step
    case Dispatch => ReturnDead(s.(next := Some(s.ready[0])), i);
    case AcceptAgain => ReturnDead(s.(ready := Unlink(s.ready, Listener)), i);
    case ReadAgain =>
      var s' := s.(ready := Unlink(s.ready, Session(s.pc.id)),
                   pausedAtHeader := s.pausedAtHeader || |s.conns[s.pc.id].received| == PACKET_HEADER);
      ReturnDead(s', i);
    case ReadNothing => ReadNothingKeeps(cfg, s);
  }

  lemma EventStaysDead(cfg: Setup, s: State, step: Step, i: nat)
    requires Inv(s) && Enabled(cfg, s, step) && Dead(s, i)
    requires step.Connect? || step.Begin? || step.Send? || step.Receive? || step.Vanish? || step.Spurious?
      || step.Deliver? || step.Accept? || step.AckFails? || step.Die?
    ensures StillDead(s, Apply(cfg, s, step), i)
  {
    hide Inv, Link, EncodePacket, U32At;
    DeadFacts(s, i);
    match step
    case Connect => assert (s.conns + [NEW_CONN])[i] == s.conns[i];
    case Accept(edge) => assert s.backlog[0] in s.backlog;
    case _ =>
  }

  lemma ReadStaysDead(cfg: Setup, s: State, n: nat, i: nat)
    requires Inv(s) && Enabled(cfg, s, Read(n)) && Dead(s, i)
    ensures StillDead(s, Apply(cfg, s, Read(n)), i)
  {
    hide Inv, LengthField, U32At, Stores.Perform, EndSession, Sessions.Partial, Sessions.LoopTarget;
    assert i != s.pc.id;
    InvReading(s);
    assert !ReadBytes(s.conns[s.pc.id], n).terminated;
  }

  lemma AckStaysDead(cfg: Setup, s: State, n: nat, i: nat)
    requires Inv(s) && Enabled(cfg, s, Monitor.Ack(n)) && Dead(s, i)
    ensures StillDead(s, Apply(cfg, s, Monitor.Ack(n)), i)
  {
    hide Inv, Return, Unlink;
    AckerPlace(s);
    DeadFacts(s, i);
    var j, c := s.pc.id, AckBytes(s.conns[s.pc.id], n);
    ReturnDead(WithConn(s, j, Freeing(c)).(ready := Unlink(s.ready, Session(j))), i);
    ReturnDead(WithConn(s, j, c), i);
  }

  /** The flag is raised over a session that then is dead. */
  lemma PauseMakesDead(cfg: Setup, s: State, step: Step) returns (i: nat)
    requires Enabled(cfg, s, step) && !s.pausedAtHeader && Apply(cfg, s, step).pausedAtHeader
    ensures Dead(Apply(cfg, s, step), i)
  {
    hide Successor, Unlink, Link, Stores.Perform, LengthField, U32At, EncodePacket;
    assert step == ReadAgain;
    i := s.pc.id;
    ReturnDead(s.(ready := Unlink(s.ready, Session(i)), pausedAtHeader := true), i);
  }

  ghost predicate PausedOk(s: State)
  {
    s.pausedAtHeader ==> exists i :: Dead(s, i)
  }

  lemma StepKeepsPaused(cfg: Setup, s: State, step: Step)
    requires Inv(s) && cfg.outbound >= PACKET_HEADER && Enabled(cfg, s, step) && PausedOk(s)
    ensures PausedOk(Apply(cfg, s, step))
  {
    hide Inv, Apply, Enabled, Dead;
    if s.pausedAtHeader {
      var i :| Dead(s, i);
      DeadStays(cfg, s, step, i);
    } else if Apply(cfg, s, step).pausedAtHeader {
      var i := PauseMakesDead(cfg, s, step);
    }
  }

  lemma {:induction false} RunKeepsPaused(cfg: Setup, s: State, steps: seq<Step>, s': State)
    requires Inv(s) && cfg.outbound >= PACKET_HEADER && Run(cfg, s, steps, s') && PausedOk(s)
    ensures PausedOk(s')
    decreases |steps|
  {
    hide Inv, Apply, Enabled, PausedOk;
    if steps != [] {
      StepKeepsInv(cfg, s, steps[0]);
      StepKeepsPaused(cfg, s, steps[0]);
      RunKeepsPaused(cfg, Apply(cfg, s, steps[0]), steps[1..], s');
    }
  }

  lemma ReachablePaused(cfg: Setup, s: State)
    requires Reachable(cfg, s) && cfg.outbound >= PACKET_HEADER
    ensures PausedOk(s)
  {
    hide Inv, PausedOk;
    var steps :| Run(cfg, INIT, steps, s);
    InitInv();
    assert PausedOk(INIT) by { assert !INIT.pausedAtHeader; NotPaused(INIT); }
    RunKeepsPaused(cfg, INIT, steps, s);
  }

  lemma NotPaused(s: State)
    requires !s.pausedAtHeader
    ensures PausedOk(s)
  {
  }

  /** While the monitor lives, the flag says exactly that some session is dead. */
  lemma PausedIff(cfg: Setup, s: State)
    requires Reachable(cfg, s) && cfg.outbound >= PACKET_HEADER
    ensures s.pausedAtHeader ==> exists i :: Dead(s, i)
    ensures !s.pc.Over? ==> (s.pausedAtHeader <==> exists i :: Dead(s, i))
  {
    ReachableInv(cfg, s);
    ReachablePaused(cfg, s);
    if !s.pc.Over? && exists i :: Dead(s, i) {
      var i :| Dead(s, i);
      DeadNeedsPause(s, i);
    }
  }

  lemma DeadNeedsPause(s: State, i: nat)
    requires Inv(s) && Dead(s, i) && !s.pc.Over?
    ensures s.pausedAtHeader
  {
    hide ConnsOk, ReadyOk, BacklogOk, WakeOk, LogOk, NextOk;
  }

  /** A pause at exactly eight bytes is fatal to its client: over any continuation the call in
      progress never returns 0, however much of it is still sent. */
  lemma {:induction false} PauseIsFatal(cfg: Setup, s: State, i: nat, steps: seq<Step>, s': State)
    requires Inv(s) && cfg.outbound >= PACKET_HEADER && Run(cfg, s, steps, s') && Dead(s, i)
    ensures Dead(s', i)
    ensures s'.conns[i].returned == s.conns[i].returned < |s'.conns[i].sent| == |s.conns[i].sent|
    decreases |steps|
  {
    hide Inv, Apply, Enabled, Dead;
    DeadInRange(s, i);
    DeadFacts(s, i);
    if steps != [] {
      StepKeepsInv(cfg, s, steps[0]);
      DeadStays(cfg, s, steps[0], i);
      DeadInRange(Apply(cfg, s, steps[0]), i);
      PauseIsFatal(cfg, Apply(cfg, s, steps[0]), i, steps[1..], s');
    }
  }

  /** In particular the call over whose session the flag was raised never returns 0. */
  lemma PausedCallNeverReturns(cfg: Setup, s: State, steps: seq<Step>, s': State)
    requires Reachable(cfg, s) && cfg.outbound >= PACKET_HEADER && s.pausedAtHeader && Run(cfg, s, steps, s')
    ensures |s.conns| <= |s'.conns|
    ensures exists i: nat ::
      Dead(s, i) && s'.conns[i].returned == s.conns[i].returned < |s.conns[i].sent| == |s'.conns[i].sent|
  {
    hide Inv, Dead;
    ReachableInv(cfg, s);
    ReachablePaused(cfg, s);
    var i :| Dead(s, i);
    DeadInRange(s, i);
    PauseIsFatal(cfg, s, i, steps, s');
    RunGrows(cfg, s, steps, s');
  }

  lemma DeadInRange(s: State, i: nat)
    requires Dead(s, i)
    ensures i < |s.conns|
  {
  }

  // ---- The exact condition ----

  /** When nothing more can happen, and nobody killed it, the monitor has come to its end exactly
      when some read paused at exactly eight bytes, some client closed its end before its
      session was freed, or some client asked for a trace whose vector does not fit; otherwise
      it blocks in epoll_wait and every call has returned. */
  lemma ExitIff(cfg: Setup, s: State)
    requires Reachable(cfg, s) && cfg.outbound >= PACKET_HEADER && cfg.inbound > 0
    requires Halted(cfg, s) && s.pc != Over(Killed)
    ensures s.pc.Over? <==> s.pausedAtHeader || LostOne(s.conns) || OneDoomed(cfg, s)
    ensures !s.pc.Over? ==> Blocks(s) && AllReturned(s.conns)
  {
    hide Inv, Halted, Blocks, AllReturned, LostOne, OneDoomed, TraceOk;
    ReachableInv(cfg, s);
    ReachablePaused(cfg, s);
    ReachableTraces(cfg, s);
    HaltedCases(cfg, s);
  }

  lemma HaltedCases(cfg: Setup, s: State)
    requires Inv(s) && PausedOk(s) && TraceOk(cfg, s) && cfg.outbound >= PACKET_HEADER && cfg.inbound > 0
    requires Halted(cfg, s) && s.pc != Over(Killed)
    ensures s.pc.Over? <==> s.pausedAtHeader || LostOne(s.conns) || OneDoomed(cfg, s)
    ensures !s.pc.Over? ==> Blocks(s) && AllReturned(s.conns)
  {
    hide Inv, Halted, Blocks, AllReturned, LostOne, Dead, OneDoomed, TracesFit;
    if s.pc == Over(Protocol) {
      ExitedHasCause(s);
    } else if !s.pc.Over? {
      HaltedIff(cfg, s);
      forall i
        ensures !Dead(s, i)
      {
        BlockedNotDead(s, i);
      }
      BlockedNotLost(s);
      BlockedNotDoomed(cfg, s);
    } else {
      Ends(s.pc.why);
    }
  }

  lemma Ends(why: End)
    ensures why == Killed || why == Protocol || why == Overrun
  {
    match why
    case Killed =>
    case Protocol =>
    case Overrun =>
  }

  lemma BlockedNotDoomed(cfg: Setup, s: State)
    requires Inv(s) && Blocks(s) && AllReturned(s.conns) && !LostOne(s.conns)
    ensures !OneDoomed(cfg, s)
  {
    hide Inv, Argv.TraceFits, PacketOf, LastTid, Traffic;
    forall i: nat | Doomed(cfg, s, i)
      ensures false
    {
      InvConn(s, i);
    }
  }

  lemma ExitedHasCause(s: State)
    requires Inv(s) && s.pc == Over(Protocol)
    ensures s.pausedAtHeader || LostOne(s.conns)
  {
  }

  /** What epoll_wait would report is noticed: a lost client raises an edge or waits in line. */
  lemma BlockedNotLost(s: State)
    requires Inv(s) && Blocks(s)
    ensures !LostOne(s.conns)
  {
    hide Inv, ConnOk;
    if i: nat :| i < |s.conns| && s.conns[i].gone && s.conns[i].life != Freed {
      InvConn(s, i);
      NothingQueued(s);
    }
  }

  lemma NothingQueued(s: State)
    requires Inv(s) && Blocks(s)
    ensures s.backlog == []
  {
    hide ConnOk, LogOk, PcOk, PauseOk, WokenUp;
  }

  lemma BlockedNotDead(s: State, i: nat)
    requires Inv(s) && Blocks(s) && AllReturned(s.conns)
    ensures !Dead(s, i)
  {
    hide Inv, ConnOk;
    if Dead(s, i) {
      DeadFacts(s, i);
      InvConn(s, i);
    }
  }

  /** Every call returns. Take any run from a reachable state, however it is scheduled. It makes
      at most as many system calls as the potential allows; and if it cannot be extended by
      another one, and nobody killed the monitor, then the monitor has ended exactly for one of
      the three causes, and otherwise every call of a client still there has returned. */
  lemma EveryCallReturns(cfg: Setup, s: State, steps: seq<Step>, s': State)
    requires Reachable(cfg, s) && cfg.outbound >= PACKET_HEADER && cfg.inbound > 0 && s.pc != Over(Killed)
    requires Run(cfg, s, steps, s')
    ensures Work(steps) <= Potential(s) + Brought(steps)
    ensures Halted(cfg, s') && Die !in steps ==>
      && (s'.pc.Over? <==> s'.pausedAtHeader || LostOne(s'.conns) || OneDoomed(cfg, s'))
      && (!s'.pc.Over? ==> Blocks(s') && AllReturned(s'.conns))
  {
    hide Inv, Apply, Enabled, Potential, Blocks, AllReturned, Halted, LostOne, OneDoomed, Reachable;
    ReachableInv(cfg, s);
    WorkIsBounded(cfg, s, steps, s');
    ReachableOn(cfg, s, steps, s');
    if Halted(cfg, s') && Die !in steps {
      NotKilled(cfg, s, steps, s');
      ExitIff(cfg, s');
    }
  }

  lemma {:induction false} NotKilled(cfg: Setup, s: State, steps: seq<Step>, s': State)
    requires s.pc != Over(Killed) && Run(cfg, s, steps, s') && Die !in steps
    ensures s'.pc != Over(Killed)
    decreases |steps|
  {
    hide Apply, Enabled;
    if steps != [] {
      NotKilledStep(cfg, s, steps[0]);
      NotKilled(cfg, Apply(cfg, s, steps[0]), steps[1..], s');
    }
  }

  lemma NotKilledStep(cfg: Setup, s: State, step: Step)
    requires Enabled(cfg, s, step) && s.pc != Over(Killed) && step != Die
    ensures Apply(cfg, s, step).pc != Over(Killed)
  {
    hide Stores.Perform, LengthField, U32At, EncodePacket, Unlink, Link, Return, Argv.TraceFits;
    forall t
      ensures !Return(t).pc.Over?
    {
      ReturnLives(t);
    }
  }

  lemma ReturnLives(s: State)
    ensures !Return(s).pc.Over?
  {
    hide Successor;
  }
}
