/** Traces in the monitor machine: every trace performed had a vector that fits, the one that has
    not ends the monitor, and clients that use at most 27 arguments never come to that. */
module MonitorTraces {
  import opened Bytes
  import opened Packets
  import opened Sequences
  import opened Stores
  import Argv
  import opened Monitor
  import opened Connections
  import opened MonitorInv
  import opened MonitorSafety
  import opened MonitorTheorems
  import Sessions

  /** Every packet met, when it was performed, lists for which its vector fits. */
  ghost predicate TracesFit(invoke: Argv.Invoke, log: seq<Entry>)
  {
    forall k :: 0 <= k < |log| ==> EntryFits(invoke, log, k)
  }

  ghost predicate EntryFits(invoke: Argv.Invoke, log: seq<Entry>, k: nat)
    requires k < |log|
  {
    Argv.TraceFits(invoke, Fold(log[..k]), log[k].packet.op)
  }

  /** The client waits for a trace whose vector does not fit the lists as they are. */
  ghost predicate Doomed(cfg: Setup, s: State, i: nat)
  {
    && i < |s.conns| && HasRequest(s.conns[i])
    && !Argv.TraceFits(cfg.invoke, s.lists, PacketOf(Outstanding(s.conns[i])).op)
  }

  ghost predicate OneDoomed(cfg: Setup, s: State)
  {
    exists i :: Doomed(cfg, s, i)
  }

  ghost predicate TraceOk(cfg: Setup, s: State)
  {
    TracesFit(cfg.invoke, s.log) && (s.pc == Over(Overrun) ==> OneDoomed(cfg, s))
  }

  lemma TracesSnoc(invoke: Argv.Invoke, log: seq<Entry>, e: Entry)
    requires TracesFit(invoke, log) && Argv.TraceFits(invoke, Fold(log), e.packet.op)
    ensures TracesFit(invoke, log + [e])
  {
    hide Argv.TraceFits, Fold;
    var log' := log + [e];
    forall k | 0 <= k < |log'|
      ensures EntryFits(invoke, log', k)
    {
      if k < |log| {
        assert EntryFits(invoke, log, k) && log'[..k] == log[..k];
      } else {
        assert log'[..k] == log;
      }
    }
  }

  /** What a step does to the log and the end: only a read adds an entry or overruns. */
  lemma OtherStep(cfg: Setup, s: State, step: Step)
    requires Enabled(cfg, s, step) && !step.Read? && s.pc != Over(Overrun)
    ensures Apply(cfg, s, step).log == s.log && Apply(cfg, s, step).pc != Over(Overrun)
  {
    hide Unlink, Link, U32At, EncodePacket, Return;
    forall t
      ensures Return(t).log == t.log && !Return(t).pc.Over?
    {
      ReturnGoesOn(t);
    }
  }

  lemma ReturnGoesOn(s: State)
    ensures Return(s).log == s.log && !Return(s).pc.Over?
  {
    hide Successor;
  }

  lemma StepKeepsTraces(cfg: Setup, s: State, step: Step)
    requires Inv(s) && Enabled(cfg, s, step) && TraceOk(cfg, s)
    ensures TraceOk(cfg, Apply(cfg, s, step))
  {
    hide Inv, TracesFit, Argv.TraceFits, OneDoomed;
    if s.pc == Over(Overrun) {
      assert step.Receive?;
      DoomedStays(cfg, s, step.c, step.n);
    } else if step.Read? {
      ReadKeepsTraces(cfg, s, step.n);
    } else {
      OtherStep(cfg, s, step);
    }
  }

  lemma ReadKeepsTraces(cfg: Setup, s: State, n: nat)
    requires Inv(s) && Enabled(cfg, s, Read(n)) && TraceOk(cfg, s)
    ensures TraceOk(cfg, Apply(cfg, s, Read(n)))
  {
    hide Inv, TracesFit, Argv.TraceFits, Perform, Sessions.Partial, EncodePacket, PacketOf, Apply, Enabled;
    assert s.pc.Reading? by { ReaderReads(cfg, s, n); }
    ReadOutcomes(cfg, s, n);
    var s' := Apply(cfg, s, Read(n));
    ListsAreFold(s);
    if s'.pc.Over? {
      assert Doomed(cfg, s', s.pc.id);
    } else if !s'.pc.Reading? {
      TracesSnoc(cfg.invoke, s.log, s'.log[|s.log|]);
    }
  }

  lemma ReaderReads(cfg: Setup, s: State, n: nat)
    requires Enabled(cfg, s, Read(n))
    ensures s.pc.Reading? && s.pc.id < |s.conns|
  {
  }

  lemma ListsAreFold(s: State)
    requires Inv(s)
    ensures s.lists == Fold(s.log)
  {
    hide ConnsOk, ReadyOk, BacklogOk, WakeOk, PcOk, PauseOk, LogAt;
  }

  /** Only clients go on after an overrun, and not the one whose trace it was. */
  lemma DoomedStays(cfg: Setup, s: State, c: nat, n: nat)
    requires Inv(s) && Enabled(cfg, s, Receive(c, n)) && OneDoomed(cfg, s)
    ensures OneDoomed(cfg, Apply(cfg, s, Receive(c, n)))
  {
    hide Inv, Argv.TraceFits, PacketOf, EncodePacket, LastTid, U32At;
    var i :| Doomed(cfg, s, i);
    InvConn(s, i);
    assert c != i;
    assert Doomed(cfg, Apply(cfg, s, Receive(c, n)), i);
  }

  lemma {:induction false} RunKeepsTraces(cfg: Setup, s: State, steps: seq<Step>, s': State)
    requires Inv(s) && cfg.outbound >= PACKET_HEADER && Run(cfg, s, steps, s') && TraceOk(cfg, s)
    ensures TraceOk(cfg, s')
    decreases |steps|
  {
    hide Inv, Apply, Enabled, TraceOk;
    if steps != [] {
      StepKeepsInv(cfg, s, steps[0]);
      StepKeepsTraces(cfg, s, steps[0]);
      RunKeepsTraces(cfg, Apply(cfg, s, steps[0]), steps[1..], s');
    }
  }

  /** In every reachable state every trace performed had room for its vector; and if the monitor
      overran, some client waits for a trace that has none. */
  lemma ReachableTraces(cfg: Setup, s: State)
    requires Reachable(cfg, s) && cfg.outbound >= PACKET_HEADER
    ensures TraceOk(cfg, s)
  {
    hide Inv;
    var steps :| Run(cfg, INIT, steps, s);
    InitInv();
    RunKeepsTraces(cfg, INIT, steps, s);
  }

  // ---- Few arguments ----

  /** With at most 27 arguments stored no trace overruns, in any configuration. */
  lemma FewArgumentsFit(invoke: Argv.Invoke, lists: Lists, op: uint32)
    requires |lists.args| <= 27
    ensures Argv.TraceFits(invoke, lists, op)
  {
    if Argv.TargetOf(op, 0).Some? {
      Argv.UpTo27(Argv.TargetOf(op, 0).value, invoke, [], lists.args, lists.kvs);
    }
  }

  lemma {:induction false} DistinctSize<T>(xs: seq<T>, all: set<T>)
    requires Distinct(xs) && forall x <- xs :: x in all
    ensures |xs| <= |all|
  {
    if xs != [] {
      var n := |xs| - 1;
      assert forall x <- xs[..n] :: x in all - {xs[n]};
      DistinctSize(xs[..n], all - {xs[n]});
    }
  }

  lemma {:induction false} ArgsFrom(history: seq<Text>)
    ensures forall t <- ArgsAfter(history) :: t in history
  {
    if history != [] {
      var n := |history| - 1;
      ArgsFrom(history[..n]);
      ExceptKeeps(ArgsAfter(history[..n]), history[n]);
    }
  }

  lemma {:induction false} HistoryFrom(log: seq<Entry>, texts: set<Text>)
    requires forall e <- log :: e.packet.op == OP_ARG && ArgIn(e.packet.payload).Some? ==>
      ArgIn(e.packet.payload).value in texts
    ensures forall t <- ArgHistory(log) :: t in texts
  {
    hide ArgIn;
    if log != [] {
      HistoryFrom(log[..|log| - 1], texts);
      assert log[|log| - 1] in log;
    }
  }

  lemma {:induction false} EntryProjected(log: seq<Entry>, k: nat)
    requires k < |log|
    ensures log[k].packet in Project(log, log[k].id)
  {
    var n := |log| - 1;
    if k < n {
      EntryProjected(log[..n], k);
    }
  }

  /** Every entry of the log is a request of its client. */
  lemma EntryIsRequest(s: State, k: nat) returns (r: Request)
    requires Inv(s) && k < |s.log|
    ensures s.log[k].id < |s.conns| && r in s.conns[s.log[k].id].sent && r.Sendable() && s.log[k].packet == PacketOf(r)
  {
    hide Inv, Traffic, Alive, LastTid, PacketOf;
    EntryInRange(s, k);
    var i := s.log[k].id;
    InvConn(s, i);
    EntryProjected(s.log, k);
    var rs := s.conns[i].sent[..s.conns[i].done];
    PacketsCount(rs);
    var j :| 0 <= j < |rs| && PacketsOf(rs)[j] == s.log[k].packet;
    PacketsIndex(rs, j);
    r := rs[j];
  }

  lemma EntryInRange(s: State, k: nat)
    requires Inv(s) && k < |s.log|
    ensures s.log[k].id < |s.conns|
  {
    hide ConnsOk, ReadyOk, BacklogOk, WakeOk, PcOk, PauseOk, LogAt, Fold;
  }

  /** The argument texts of all calls begun. */
  ghost predicate UseOnly(conns: seq<Conn>, texts: set<Text>)
  {
    forall i, r :: 0 <= i < |conns| && r in conns[i].sent && r.Arg? ==> r.text in texts
  }

  /** Clients that between them use at most 27 distinct argument texts never overrun a vector. */
  lemma FewTextsNeverOverrun(cfg: Setup, s: State, texts: set<Text>)
    requires Reachable(cfg, s) && cfg.outbound >= PACKET_HEADER && |texts| <= 27
    requires UseOnly(s.conns, texts)
    ensures |s.lists.args| <= |texts| && s.pc != Over(Overrun)
  {
    hide Inv, Fold, TracesFit, Argv.TraceFits, PacketOf, ArgIn, EncodePacket;
    ReachableInv(cfg, s);
    ReachableTraces(cfg, s);
    forall e | e in s.log && e.packet.op == OP_ARG && ArgIn(e.packet.payload).Some?
      ensures ArgIn(e.packet.payload).value in texts
    {
      var k :| 0 <= k < |s.log| && s.log[k] == e;
      var r := EntryIsRequest(s, k);
      ArgOfRequest(r);
    }
    HistoryFrom(s.log, texts);
    ListsAreFold(s);
    FoldIsHistory(s.log);
    ArgsFrom(ArgHistory(s.log));
    ArgsAfterDistinct(ArgHistory(s.log));
    DistinctSize(s.lists.args, texts);
    if s.pc == Over(Overrun) {
      NoneDoomed(cfg, s);
    }
  }

  lemma NoneDoomed(cfg: Setup, s: State)
    requires |s.lists.args| <= 27
    ensures !OneDoomed(cfg, s)
  {
    hide Argv.TraceFits, PacketOf;
    forall i: nat | Doomed(cfg, s, i)
      ensures false
    {
      FewArgumentsFit(cfg.invoke, s.lists, PacketOf(Outstanding(s.conns[i])).op);
    }
  }

  lemma ArgOfRequest(r: Request)
    requires r.Sendable() && PacketOf(r).op == OP_ARG
    ensures r.Arg? && (ArgIn(PacketOf(r).payload).Some? ==> ArgIn(PacketOf(r).payload).value == r.text)
  {
    if r.Arg? {
      ArgRoundTrip(r.text);
    }
  }
}
