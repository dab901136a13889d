/** A dispatch pass of the monitor machine: from one epoll_wait to the next it enters the handler
    of every event linked at the start exactly once, in order, and then of the connections it
    accepted, unless the listener stood last. */
module MonitorPasses {
  import opened Bytes
  import opened Packets
  import opened Sequences
  import opened Passes
  import Stores
  import Argv
  import opened Monitor
  import opened Connections
  import opened MonitorInv
  import opened MonitorSafety
  import opened MonitorTheorems
  import Sessions

  /** The event whose handler runs. */
  function Current(s: State): Option<Event>
  {
    match s.pc
    case Accepting => Some(Listener)
    case Reading(i, _) => Some(Session(i))
    case Acking(i) => Some(Session(i))
    case _ => None
  }

  /** The handlers a run enters, in order: whenever the current event changes to another. */
  ghost function Entered(cfg: Setup, s: State, steps: seq<Step>): seq<Event>
    decreases |steps|
  {
    if steps == [] || !Enabled(cfg, s, steps[0]) then []
    else
      var t := Apply(cfg, s, steps[0]);
      EnteredBy(s, t) + Entered(cfg, t, steps[1..])
  }

  function EnteredBy(s: State, t: State): seq<Event>
  {
    if Current(t).Some? && Current(t) != Current(s) then [Current(t).value] else []
  }

  /** The connections a run accepts, in order. */
  ghost function Accepted(cfg: Setup, s: State, steps: seq<Step>): seq<Event>
    decreases |steps|
  {
    if steps == [] || !Enabled(cfg, s, steps[0]) then []
    else AcceptedBy(s, steps[0]) + Accepted(cfg, Apply(cfg, s, steps[0]), steps[1..])
  }

  function AcceptedBy(s: State, step: Step): seq<Event>
  {
    if step.Accept? && s.backlog != [] then [Session(s.backlog[0])] else []
  }

  /** No state but the last is at epoll_wait. */
  ghost predicate Awake(cfg: Setup, s: State, steps: seq<Step>)
    decreases |steps|
  {
    steps != [] ==> s.pc != Waiting && Enabled(cfg, s, steps[0]) && Awake(cfg, Apply(cfg, s, steps[0]), steps[1..])
  }

  // ---- Where a pass stands ----

  /** `calls` were made before the current one, `more` accepted during it. */
  datatype Pass = Pass(start: seq<Event>, kept: seq<Event>, newcomers: seq<Event>, calls: seq<Event>, more: seq<Event>)
  {
    function Queue(): seq<Event> { start + newcomers }
  }

  ghost predicate Known(conns: seq<Conn>, e: Event)
  {
    e.Session? ==> e.id < |conns| && conns[e.id].life != Queued
  }

  ghost predicate PassAt(s: State, p: Pass)
  {
    && Current(s).Some?
    && InPass(p.start, p.kept, p.newcomers, p.calls, p.kept + Rest(p), true, Current(s).value, Listener)
    && s.ready == p.kept + Rest(p) + p.more
    && s.next == NextOf(p.Queue(), |p.calls| + 1)
    && Distinct(p.Queue() + p.more) && (Current(s) != Some(Listener) ==> p.more == [])
    && forall e <- p.Queue() + p.more :: Known(s.conns, e)
  }

  function Rest(p: Pass): seq<Event>
  {
    if |p.calls| <= |p.Queue()| then p.Queue()[|p.calls|..] else []
  }

  function NextOf(queue: seq<Event>, k: nat): Option<Event>
  {
    if k < |queue| then Some(queue[k]) else None
  }

  ghost predicate PassDone(s: State, p: Pass)
  {
    && s.pc == Waiting && p.more == []
    && p.calls == Called(p.start, p.newcomers, Listener) && Distinct(p.Queue()) && p.start != []
  }

  // ---- Steps ----

  /** Nobody goes back into the listen queue. */
  ghost predicate StillKnown(s: State, t: State)
  {
    && |s.conns| <= |t.conns|
    && forall i :: 0 <= i < |s.conns| ==> (s.conns[i].life != Queued ==> t.conns[i].life != Queued)
  }

  lemma ConnKnown(s: State, i: nat, c: Conn, t: State)
    requires i < |s.conns| && (s.conns[i].life != Queued ==> c.life != Queued) && t.conns == s.conns[i := c]
    ensures StillKnown(s, t)
  {
  }

  lemma StepKnown(cfg: Setup, s: State, step: Step)
    requires Enabled(cfg, s, step)
    ensures StillKnown(s, Apply(cfg, s, step))
  {
    hide Stores.Perform, LengthField, Unlink, Link, Successor, U32At, EncodePacket, Return, StillKnown, Argv.TraceFits;
    match step
    case Begin(c, r) => ConnKnown(s, c, Beginning(s.conns[c], r), Apply(cfg, s, step));
    case Send(c, n) => ConnKnown(s, c, SendBytes(s.conns[c], n), Apply(cfg, s, step));
    case Receive(c, n) => ConnKnown(s, c, ReceiveBytes(s.conns[c], n), Apply(cfg, s, step));
    case Vanish(c) => ConnKnown(s, c, Vanished(s.conns[c]), Apply(cfg, s, step));
    case Accept(edge) => ConnKnown(s, s.backlog[0], Registered(s.conns[s.backlog[0]], edge), Apply(cfg, s, step));
    case Read(n) => ReadKnown(cfg.invoke, s, n);
    case ReadNothing =>
      EndKnown(s, s.pc.id, s.conns[s.pc.id]);
      SameKnown(s, s.(pc := Over(Protocol)));
    case Ack(n) => AckKnown(s, n, Apply(cfg, s, step));
    case AckAgain =>
      var c := s.conns[s.pc.id];
      var c' := c.(received := ACK[..c.acked], acked := PACKET_HEADER);
      ReturnFrame(WithConn(s, s.pc.id, c').(ready := Unlink(s.ready, Session(s.pc.id))));
      ConnKnown(s, s.pc.id, c', Apply(cfg, s, step));
    case _ => OtherKnown(cfg, s, step);
  }

  lemma SameKnown(s: State, t: State)
    requires t.conns == s.conns
    ensures StillKnown(s, t)
  {
  }

  lemma OtherKnown(cfg: Setup, s: State, step: Step)
    requires Enabled(cfg, s, step)
    requires step.Connect? || step.Spurious? || step.Deliver? || step.Dispatch? || step.AcceptAgain?
      || step.ReadAgain? || step.AckFails? || step.Die?
    ensures StillKnown(s, Apply(cfg, s, step))
  {
    hide Unlink, Link, Successor, Enter;
  }

  lemma EndKnown(s: State, i: nat, c: Conn)
    requires i < |s.conns|
    ensures StillKnown(s, EndSession(s, i, c))
  {
    hide Return, Unlink, StillKnown;
    ReturnFrame(WithConn(s, i, Freeing(c)).(ready := Unlink(s.ready, Session(i))));
    ConnKnown(s, i, Freeing(c), EndSession(s, i, c));
  }

  lemma ReadKnown(invoke: Argv.Invoke, s: State, n: nat)
    requires s.pc.Reading? && s.pc.id < |s.conns| && n <= |s.conns[s.pc.id].inbound|
    ensures StillKnown(s, AfterRead(invoke, s, s.pc.id, ReadBytes(s.conns[s.pc.id], n), s.pc.target))
  {
    hide Stores.Perform, LengthField, U32At, StillKnown, EndSession, Argv.TraceFits;
    var i, c := s.pc.id, ReadBytes(s.conns[s.pc.id], n);
    EndKnown(s, i, c.(received := []));
    var t := AfterRead(invoke, s, i, c, s.pc.target);
    var target := if |c.received| >= PACKET_HEADER then LengthField(c.received) else s.pc.target;
    if target <= PACKET_LIMIT && |c.received| >= PACKET_HEADER + target && c.terminated {
      assert t == EndSession(s, i, c.(received := []));
    } else {
      ConnKnown(s, i, t.conns[i], t);
    }
  }

  lemma AckKnown(s: State, n: nat, t: State)
    requires s.pc.Acking? && s.pc.id < |s.conns| && s.conns[s.pc.id].acked + n <= PACKET_HEADER
    requires var c := AckBytes(s.conns[s.pc.id], n);
      t == if c.acked < PACKET_HEADER then WithConn(s, s.pc.id, c) else AfterAck(s, s.pc.id, c)
    ensures StillKnown(s, t)
  {
    hide Return, StillKnown, EndSession;
    var i, c := s.pc.id, AckBytes(s.conns[s.pc.id], n);
    EndKnown(s, i, c);
    ReturnFrame(WithConn(s, i, c));
    if c.acked < PACKET_HEADER || !c.terminated {
      ConnKnown(s, i, c, t);
    }
  }

  lemma KnownOn(s: State, t: State, es: seq<Event>)
    requires StillKnown(s, t) && forall e <- es :: Known(s.conns, e)
    ensures forall e <- es :: Known(t.conns, e)
  {
  }

  /** A step inside a handler: the list, the successor and the current event stay. */
  lemma PassWithin(s: State, t: State, p: Pass)
    requires PassAt(s, p) && StillKnown(s, t)
    requires t.ready == s.ready && t.next == s.next && Current(t) == Current(s)
    ensures PassAt(t, p)
  {
    hide InPass, Distinct, Known;
    KnownOn(s, t, p.Queue() + p.more);
  }

  /** The listener accepts one more. */
  lemma PassAccept(s: State, t: State, p: Pass, i: nat)
    requires PassAt(s, p) && StillKnown(s, t) && s.pc == t.pc == Accepting && t.next == s.next
    requires i < |s.conns| && s.conns[i].life == Queued && i < |t.conns| && t.conns[i].life != Queued
    requires t.ready == Link(s.ready, Session(i))
    ensures PassAt(t, p.(more := p.more + [Session(i)]))
  {
    hide InPass, Distinct;
    var all := p.Queue() + p.more;
    assert !Known(s.conns, Session(i));
    KnownOn(s, t, all);
    InPassFacts(p.start, p.kept, p.newcomers, p.calls, p.kept + Rest(p), true, Listener, Listener);
    ListedAreKnown(p, s);
    assert t.ready == p.kept + Rest(p) + (p.more + [Session(i)]);
    DistinctOne(all, Session(i));
    assert p.Queue() + (p.more + [Session(i)]) == all + [Session(i)];
    KnownSnoc(t.conns, all, Session(i));
  }

  lemma KnownSnoc(conns: seq<Conn>, es: seq<Event>, e: Event)
    requires (forall x <- es :: Known(conns, x)) && Known(conns, e)
    ensures forall x <- es + [e] :: Known(conns, x)
  {
  }

  lemma DistinctOne(es: seq<Event>, e: Event)
    requires Distinct(es) && e !in es
    ensures Distinct(es + [e])
  {
  }

  /** What is linked during a pass belongs to it. */
  lemma ListedAreKnown(p: Pass, s: State)
    requires PassAt(s, p)
    ensures forall e <- s.ready :: Known(s.conns, e)
  {
    hide Distinct, Known;
    assert forall e <- p.kept :: e in p.Queue();
    assert forall e <- Rest(p) :: e in p.Queue();
  }

  /** The list after a handler: its event kept or not, and the newcomers at the end. */
  lemma ReturnList(list: seq<Event>, p: Pass, e: Event, stays: bool, ready: seq<Event>)
    requires |p.calls| < |p.Queue()| && list == p.kept + p.Queue()[|p.calls|..] && e == p.Queue()[|p.calls|]
    requires Distinct(list + p.more)
    requires ready == if stays then list + p.more else Unlink(list + p.more, e)
    ensures ready == p.kept + (if stays then [e] else []) + (p.Queue() + p.more)[|p.calls| + 1..]
  {
    hide Distinct, Position, Unlink;
    DistinctFront(list, p.more);
    NextIs(p.kept, p.Queue(), |p.calls|);
    LinkedAt(list, p.more, e);
    LeftForms(list, |p.kept|, p.more);
    QueueStep(p.kept, p.Queue(), |p.calls|, stays, p.more, ready);
  }

  function After(p: Pass, e: Event, stays: bool): Pass
  {
    Pass(p.start, if stays then p.kept + [e] else p.kept, p.newcomers + p.more, p.calls + [e], [])
  }

  /** The pass has moved on by one call. */
  lemma CallMade(s: State, p: Pass, stays: bool, ready: seq<Event>)
    requires PassAt(s, p) && Distinct(s.ready)
    requires ready == if stays then s.ready else Unlink(s.ready, Current(s).value)
    ensures |p.calls| < |p.Queue()| && Current(s) == Some(p.Queue()[|p.calls|])
    ensures var p', queue, k := After(p, Current(s).value, stays), p.Queue(), |p.calls|;
      && InPass(p'.start, p'.kept, p'.newcomers, p'.calls, ready, k + 1 < |queue|,
                if k + 1 < |queue| then queue[k + 1] else queue[k], Listener)
      && p'.Queue() == queue + p.more
  {
    hide InPass, Distinct, Known, Unlink;
    var e, list := Current(s).value, p.kept + Rest(p);
    InPassFacts(p.start, p.kept, p.newcomers, p.calls, list, true, e, Listener);
    ReturnList(list, p, e, stays, ready);
    var queue, k := p.Queue(), |p.calls|;
    InPassStep(p.start, p.kept, p.newcomers, p.calls, e, Listener, list, stays, p.more, ready, k + 1 == |queue|,
               if k + 1 < |queue| then queue[k + 1] else e);
    assert p.start + (p.newcomers + p.more) == queue + p.more;
  }

  /** A handler returns, its event still linked or not. */
  lemma PassReturn(s: State, t: State, p: Pass, stays: bool)
    requires PassAt(s, p) && StillKnown(s, t) && t.next == s.next && Distinct(s.ready) && Distinct(t.ready)
    requires t.ready == if stays then s.ready else Unlink(s.ready, Current(s).value)
    requires t.next.Some? ==> Watched(t.conns, t.next.value)
    ensures var u, p' := Return(t), After(p, Current(s).value, stays);
      if t.next.Some? then PassAt(u, p') && Current(u) != Current(s) else PassDone(u, p')
  {
    hide InPass, Distinct, Known, Unlink, Return, StillKnown;
    CallMade(s, p, stays, t.ready);
    var p', queue, k := After(p, Current(s).value, stays), p.Queue(), |p.calls|;
    if k + 1 < |queue| {
      InPassFacts(p'.start, p'.kept, p'.newcomers, p'.calls, t.ready, true, queue[k + 1], Listener);
      KnownOn(s, t, queue + p.more);
      PassGoesOn(t, p', queue[k + 1]);
      NotAgain(p'.Queue(), k);
    } else {
      InPassFacts(p'.start, p'.kept, p'.newcomers, p'.calls, t.ready, false, queue[k], Listener);
      PassEnds(t, p');
    }
  }

  lemma NotAgain(queue: seq<Event>, k: nat)
    requires Distinct(queue) && k + 1 < |queue|
    ensures queue[k + 1] != queue[k]
  {
  }

  lemma DistinctFront(xs: seq<Event>, ys: seq<Event>)
    requires Distinct(xs + ys)
    ensures Distinct(xs)
  {
    assert forall i :: 0 <= i < |xs| ==> (xs + ys)[i] == xs[i];
  }

  lemma LinkedAt(list: seq<Event>, more: seq<Event>, e: Event)
    requires e in list
    ensures var i := Position(list, e);
      i < |list| && Unlink(list + more, e) == (list + more)[..i] + (list + more)[i + 1..]
  {
    PositionInPrefix(list, more, e);
  }

  lemma PassEnds(t: State, p: Pass)
    requires t.next == None && p.more == [] && p.start != [] && Distinct(p.Queue())
    requires p.calls == Called(p.start, p.newcomers, Listener)
    ensures PassDone(Return(t), p)
  {
  }

  lemma PassGoesOn(t: State, p: Pass, next: Event)
    requires t.next == Some(next) && Watched(t.conns, next) && p.more == []
    requires InPass(p.start, p.kept, p.newcomers, p.calls, t.ready, true, next, Listener)
    requires forall e <- p.Queue() :: Known(t.conns, e)
    requires Distinct(t.ready)
    ensures PassAt(Return(t), p) && Current(Return(t)) == Some(next)
  {
    hide InPass, Distinct, Known;
    InPassFacts(p.start, p.kept, p.newcomers, p.calls, t.ready, true, next, Listener);
    NextIs(p.kept, p.Queue(), |p.calls|);
    assert t.ready == p.kept + Rest(p) && p.kept + Rest(p) + [] == p.kept + Rest(p);
    assert p.Queue() + [] == p.Queue();
  }

  // ---- Every step of a pass ----

  /** How a pass stands after a step: ended with the monitor, still in the same handler, in the
      next one, or done. */
  ghost predicate PassAfter(s: State, t: State, p: Pass, p': Pass, step: Step)
    requires Current(s).Some?
  {
    && p'.start == p.start && p'.newcomers + p'.more == p.newcomers + p.more + AcceptedBy(s, step)
    && if t.pc.Over? then p' == p
       else if Current(t) == Current(s) then PassAt(t, p') && p'.calls == p.calls
       else p'.calls == p.calls + [Current(s).value] && if t.pc == Waiting then PassDone(t, p') else PassAt(t, p')
  }

  lemma PassStep(cfg: Setup, s: State, step: Step, p: Pass) returns (p': Pass)
    requires Inv(s) && cfg.outbound >= PACKET_HEADER && Enabled(cfg, s, step) && PassAt(s, p)
    ensures PassAfter(s, Apply(cfg, s, step), p, p', step)
  {
    hide Inv, PassAt, PassDone, Return, Unlink, Link, EndSession, StillKnown, AfterRead;
    p' := p;
    var t := Apply(cfg, s, step);
    NothingMore(p);
    StepKnown(cfg, s, step);
    match step
    case Accept(edge) =>
      InvConn(s, s.backlog[0]);
      AcceptStep(cfg, s, edge, p);
      p' := p.(more := p.more + [Session(s.backlog[0])]);
      assert p.newcomers + p'.more == p.newcomers + p.more + [Session(s.backlog[0])];
    case AcceptAgain => p' := UnlinkStep(s, s, t, p);
    case ReadAgain =>
      var s' := s.(pausedAtHeader := s.pausedAtHeader || |s.conns[s.pc.id].received| == PACKET_HEADER);
      p' := UnlinkStep(s, s', t, p);
    case Read(n) =>
      ReadQuiet(cfg, s, n);
      if !t.pc.Over? { PassWithin(s, t, p); }
    case ReadNothing => ReadNothingKeeps(cfg, s);
    case Ack(n) => p' := AckStep(cfg, s, n, p);
    case AckAgain => AckNeverWaits(cfg, s);
    case AckFails =>
    case Die =>
    case _ =>
      OutsideQuiet(cfg, s, step, p);
      PassWithin(s, t, p);
  }

  lemma NothingMore(p: Pass)
    ensures p.newcomers + p.more + [] == p.newcomers + p.more
  {
  }

  /** Clients and the kernel leave a pass alone. */
  lemma OutsideQuiet(cfg: Setup, s: State, step: Step, p: Pass)
    requires Enabled(cfg, s, step) && PassAt(s, p)
    requires step.Connect? || step.Begin? || step.Send? || step.Receive? || step.Vanish? || step.Spurious?
      || step.Deliver? || step.Dispatch?
    ensures var t := Apply(cfg, s, step); t.ready == s.ready && t.next == s.next && t.pc == s.pc
  {
    hide InPass, Distinct, Known, EncodePacket, U32At;
  }

  lemma ReadQuiet(cfg: Setup, s: State, n: nat)
    requires Inv(s) && Enabled(cfg, s, Read(n))
    ensures var t := Apply(cfg, s, Read(n));
      t.pc.Over? || (t.ready == s.ready && t.next == s.next && Current(t) == Current(s))
  {
    hide Inv, LengthField, U32At, Stores.Perform, EndSession, Argv.TraceFits, Sessions.Partial;
    InvReading(s);
  }

  lemma AcceptStep(cfg: Setup, s: State, edge: bool, p: Pass)
    requires Inv(s) && Enabled(cfg, s, Accept(edge)) && PassAt(s, p) && s.conns[s.backlog[0]].life == Queued
    requires StillKnown(s, Apply(cfg, s, Accept(edge)))
    ensures PassAt(Apply(cfg, s, Accept(edge)), p.(more := p.more + [Session(s.backlog[0])]))
  {
    hide Inv, PassAt, Link, StillKnown;
    PassAccept(s, Apply(cfg, s, Accept(edge)), p, s.backlog[0]);
  }

  /** The event captured as the successor is another one, and watched. */
  lemma NextWatched(s: State, p: Pass)
    requires Inv(s) && PassAt(s, p)
    ensures Distinct(s.ready) && (s.next.Some? ==> s.next != Current(s) && Watched(s.conns, s.next.value))
    ensures Current(s).value in s.ready
  {
    hide ConnOk, LogAt, Known, Position, WakeOk, LogOk, PcOk, PauseOk, BacklogOk;
    var list, k := p.kept + Rest(p), |p.calls|;
    InPassFacts(p.start, p.kept, p.newcomers, p.calls, list, true, Current(s).value, Listener);
    assert s.ready[|p.kept|] == p.Queue()[k];
    if k + 1 < |p.Queue()| {
      assert s.ready[|p.kept| + 1] == p.Queue()[k + 1];
    }
  }

  /** The current event is unlinked and its handler returns. */
  lemma UnlinkStep(s: State, s': State, t: State, p: Pass) returns (p': Pass)
    requires Inv(s) && PassAt(s, p) && s' == s.(pausedAtHeader := s'.pausedAtHeader) && StillKnown(s, t)
    requires t == Return(s'.(ready := Unlink(s'.ready, Current(s).value)))
    ensures p'.start == p.start && p'.newcomers + p'.more == p.newcomers + p.more
    ensures !t.pc.Over? && Current(t) != Current(s) && p'.calls == p.calls + [Current(s).value]
    ensures if t.pc == Waiting then PassDone(t, p') else PassAt(t, p')
  {
    hide Inv, PassAt, Return, Unlink, StillKnown;
    SoFar(s, p);
    var u := s'.(ready := Unlink(s'.ready, Current(s).value));
    NextWatched(s, p);
    SplitAt(s.ready, Current(s).value);
    SameKnown(s, u);
    PassReturn(s, u, p, false);
    Where(s, u, p, After(p, Current(s).value, false));
    p' := After(p, Current(s).value, false);
    assert p.newcomers + p.more + [] == p.newcomers + p.more;
  }

  lemma Where(s: State, u: State, p: Pass, p': Pass)
    requires PassAt(s, p)
    requires var t := Return(u);
      if u.next.Some? then PassAt(t, p') && Current(t) != Current(s) else PassDone(t, p')
    ensures var t := Return(u);
      && !t.pc.Over? && Current(t) != Current(s)
      && if t.pc == Waiting then PassDone(t, p') else PassAt(t, p')
  {
    hide InPass, Distinct, Known, Return;
  }

  lemma AckStep(cfg: Setup, s: State, n: nat, p: Pass) returns (p': Pass)
    requires Inv(s) && Enabled(cfg, s, Monitor.Ack(n)) && PassAt(s, p)
    requires StillKnown(s, Apply(cfg, s, Monitor.Ack(n)))
    ensures PassAfter(s, Apply(cfg, s, Monitor.Ack(n)), p, p', Monitor.Ack(n))
  {
    hide Inv, PassAt, PassDone, Return, Unlink, StillKnown;
    var i, c := s.pc.id, AckBytes(s.conns[s.pc.id], n);
    var t := Apply(cfg, s, Monitor.Ack(n));
    NothingMore(p);
    p' := p;
    if c.acked < PACKET_HEADER {
      PassWithin(s, t, p);
    } else {
      NextWatched(s, p);
      SplitAt(s.ready, Session(i));
      var u := if c.terminated then WithConn(s, i, Freeing(c)).(ready := Unlink(s.ready, Session(i)))
               else WithConn(s, i, c);
      ReturnFrame(u);
      SameEnd(s, u, t);
      PassReturn(s, u, p, !c.terminated);
      Where(s, u, p, After(p, Session(i), !c.terminated));
      p' := After(p, Session(i), !c.terminated);
      assert p.newcomers + p.more + [] == p.newcomers + p.more;
    }
  }

  lemma SameEnd(s: State, u: State, t: State)
    requires StillKnown(s, t) && t.conns == u.conns
    ensures StillKnown(s, u)
  {
  }

  // ---- Whole passes ----

  /** After the end of the monitor no handler runs. */
  lemma {:induction false} OverEntersNothing(cfg: Setup, s: State, steps: seq<Step>)
    requires s.pc.Over?
    ensures Entered(cfg, s, steps) == [] && Accepted(cfg, s, steps) == []
    decreases |steps|
  {
    if steps != [] && Enabled(cfg, s, steps[0]) {
      assert steps[0].Receive?;
      OverEntersNothing(cfg, Apply(cfg, s, steps[0]), steps[1..]);
    }
  }

  lemma {:induction false} OverStays(cfg: Setup, s: State, steps: seq<Step>, s': State)
    requires s.pc.Over? && Run(cfg, s, steps, s')
    ensures s'.pc.Over?
    decreases |steps|
  {
    if steps != [] {
      assert steps[0].Receive?;
      OverStays(cfg, Apply(cfg, s, steps[0]), steps[1..], s');
    }
  }

  /** Handlers entered so far against the list at the start and the connections accepted. */
  ghost predicate InOrder(entered: seq<Event>, start: seq<Event>, accepted: seq<Event>, done: bool)
  {
    && entered <= start + accepted && Distinct(start + accepted)
    && (done ==> entered == Called(start, accepted, Listener))
  }

  lemma {:induction false} RunPass(cfg: Setup, s: State, steps: seq<Step>, s': State, p: Pass)
    requires Inv(s) && cfg.outbound >= PACKET_HEADER && PassAt(s, p)
    requires Run(cfg, s, steps, s') && Awake(cfg, s, steps)
    ensures InOrder(p.calls + [Current(s).value] + Entered(cfg, s, steps), p.start,
                    p.newcomers + p.more + Accepted(cfg, s, steps), s'.pc == Waiting)
    decreases |steps|
  {
    hide Inv, Apply, Enabled, PassAt, PassDone, InOrder;
    SoFar(s, p);
    if steps == [] {
      SoFarEnds(s, p);
    } else {
      var t := Apply(cfg, s, steps[0]);
      var p' := PassStep(cfg, s, steps[0], p);
      StepKeepsInv(cfg, s, steps[0]);
      var e := p.calls + [Current(s).value];
      assert p.newcomers + p.more + Accepted(cfg, s, steps)
          == p.newcomers + p.more + AcceptedBy(s, steps[0]) + Accepted(cfg, t, steps[1..]);
      if t.pc.Over? {
        OverEntersNothing(cfg, t, steps[1..]);
        OverStays(cfg, t, steps[1..], s');
        assert p.newcomers + p.more == p.newcomers + p.more + AcceptedBy(s, steps[0]);
        SoFarEnds(s, p);
      } else if t.pc == Waiting {
        assert steps[1..] == [] && s' == t;
        DoneEnds(t, p');
      } else {
        RunPass(cfg, t, steps[1..], s', p');
        if Current(t) == Current(s) {
          assert Entered(cfg, s, steps) == [] + Entered(cfg, t, steps[1..]) == Entered(cfg, t, steps[1..]);
          assert p'.calls + [Current(t).value] == e;
        } else {
          SoFar(t, p');
          assert e + [Current(t).value] + Entered(cfg, t, steps[1..])
              == e + ([Current(t).value] + Entered(cfg, t, steps[1..]));
        }
      }
    }
  }

  lemma SoFar(s: State, p: Pass)
    requires PassAt(s, p)
    ensures Current(s).Some? && s.pc != Waiting && !s.pc.Over?
  {
    hide InPass, Distinct, Known;
  }

  lemma SoFarEnds(s: State, p: Pass)
    requires PassAt(s, p)
    ensures InOrder(p.calls + [Current(s).value] + [], p.start, p.newcomers + p.more + [], false)
    ensures InOrder(p.calls + [Current(s).value], p.start, p.newcomers + p.more, false)
  {
    hide InPass, Distinct, Known;
    InPassFacts(p.start, p.kept, p.newcomers, p.calls, p.kept + Rest(p), true, Current(s).value, Listener);
    var e := p.calls + [Current(s).value];
    assert e + [] == e && p.newcomers + p.more + [] == p.newcomers + p.more;
    assert p.start + (p.newcomers + p.more) == p.Queue() + p.more;
    assert e <= p.Queue();
  }

  lemma DoneEnds(t: State, p: Pass)
    requires PassDone(t, p)
    ensures InOrder(p.calls, p.start, p.newcomers + p.more, true)
    ensures p.newcomers + p.more == p.newcomers && p.calls + [] == p.calls
  {
    hide Distinct;
    assert p.newcomers + [] == p.newcomers;
    assert p.start <= p.start + p.newcomers;
  }

  /** A pass of the dispatch loop enters first the handler of the first event linked, and then
      those of the others linked at its start and of the connections it accepts, once each and
      in order; when it is back at epoll_wait it has entered them all, but for the connections
      accepted by a listener that stood last. */
  lemma PassEntersAll(cfg: Setup, s: State, steps: seq<Step>, s': State)
    requires Reachable(cfg, s) && cfg.outbound >= PACKET_HEADER
    requires steps != [] && steps[0] == Dispatch && Run(cfg, s, steps, s')
    requires Awake(cfg, Apply(cfg, s, Dispatch), steps[1..])
    ensures s.ready != [] && Entered(cfg, s, steps) != [] && Entered(cfg, s, steps)[0] == s.ready[0]
    ensures InOrder(Entered(cfg, s, steps), s.ready, Accepted(cfg, s, steps), s'.pc == Waiting)
  {
    hide Inv, Reachable, PassAt, InOrder, Awake, Apply, Entered, Accepted;
    ReachableInv(cfg, s);
    var t := Apply(cfg, s, Dispatch);
    StepKeepsInv(cfg, s, Dispatch);
    var p := Pass(s.ready, [], [], [], []);
    Dispatched(cfg, s, steps);
    Starts(s, p);
    RunPass(cfg, t, steps[1..], s', p);
    assert [] + [s.ready[0]] + Entered(cfg, t, steps[1..]) == [s.ready[0]] + Entered(cfg, t, steps[1..]);
    assert [] + [] + Accepted(cfg, t, steps[1..]) == Accepted(cfg, t, steps[1..]);
  }

  lemma Dispatched(cfg: Setup, s: State, steps: seq<Step>)
    requires Inv(s) && steps != [] && steps[0] == Dispatch && Enabled(cfg, s, Dispatch)
    ensures s.pc == Waiting && s.ready != []
    ensures var t := Apply(cfg, s, Dispatch);
      && t == Return(s.(next := Some(s.ready[0])))
      && Entered(cfg, s, steps) == EnteredBy(s, t) + Entered(cfg, t, steps[1..])
      && Accepted(cfg, s, steps) == Accepted(cfg, t, steps[1..])
  {
    hide Inv, Return;
    var t := Apply(cfg, s, Dispatch);
    assert [] + Accepted(cfg, t, steps[1..]) == Accepted(cfg, t, steps[1..]);
  }

  lemma Starts(s: State, p: Pass)
    requires Inv(s) && s.pc == Waiting && s.ready != [] && p == Pass(s.ready, [], [], [], [])
    ensures var t := Return(s.(next := Some(s.ready[0]))); PassAt(t, p) && Current(t) == Some(s.ready[0])
  {
    hide ConnOk, LogAt, Position, WakeOk, LogOk, PcOk, PauseOk, BacklogOk, InPass, Return;
    InPassStart(s.ready, Listener);
    assert s.ready + [] == s.ready;
    forall e | e in s.ready
      ensures Known(s.conns, e)
    {
      assert Watched(s.conns, e);
    }
    PassGoesOn(s.(next := Some(s.ready[0])), p, s.ready[0]);
  }
}
