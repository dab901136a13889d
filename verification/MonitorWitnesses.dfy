/** Runs that show the conditions of the monitor's theorems cannot be dropped: room for a whole
    acknowledgement, no read that pauses at exactly eight bytes, and no trace that does not fit. */
module MonitorWitnesses {
  import opened Bytes
  import opened Packets
  import Stores
  import opened Monitor
  import opened Connections
  import opened MonitorInv
  import opened MonitorSafety
  import opened MonitorTheorems
  import opened MonitorProgress
  import opened MonitorTraces
  import opened MonitorExit
  import opened MonitorCompletion
  import Argv

  lemma InitReachable(cfg: Setup)
    ensures Reachable(cfg, INIT)
  {
    assert Run(cfg, INIT, [], INIT);
  }

  // ---- One client, one byte at a time ----

  function OneSession(c: Conn, ready: seq<Event>, pc: Pc, paused: bool): State
  {
    State([c], [], true, ready, pc, None, Stores.Lists([], []), [], paused)
  }

  function Connected(c: Conn): State
  {
    INIT.(conns := [c], backlog := [0], listenerEdge := true)
  }

  /** The session has read k bytes of a request, of which the client sent no more so far. */
  function AfterBytes(r: Request, k: nat): Conn
    requires r.Sendable() && k <= |Wire(r)|
  {
    NEW_CONN.(client := Writing(Wire(r)[k..]), sent := [r], received := Wire(r)[..k], life := Open, edge := k > 0)
  }

  function ReadingOn(r: Request, k: nat): State
    requires r.Sendable() && k <= PACKET_HEADER
  {
    var target := if k == PACKET_HEADER then |Wire(r)| - PACKET_HEADER else 0;
    OneSession(AfterBytes(r, k), [Session(0)], Reading(0, target), false)
  }

  lemma ReachAccepted(cfg: Setup, r: Request)
    requires r.Sendable()
    ensures Reachable(cfg, ReadingOn(r, 0))
  {
    hide Reachable, EncodePacket;
    InitReachable(cfg);
    Then(cfg, INIT, Connect);
    assert Apply(cfg, INIT, Connect) == Connected(NEW_CONN);
    Then(cfg, Connected(NEW_CONN), Begin(0, r));
    var c := Beginning(NEW_CONN, r);
    assert Apply(cfg, Connected(NEW_CONN), Begin(0, r)) == Connected(c);
    ReachReading(cfg, c);
    assert Wire(r)[0..] == Wire(r) && Wire(r)[..0] == [];
    assert c.(life := Open) == AfterBytes(r, 0);
  }

  lemma ReachReading(cfg: Setup, c: Conn)
    requires Reachable(cfg, Connected(c)) && c == NEW_CONN.(client := c.client, sent := c.sent)
    ensures Reachable(cfg, OneSession(c.(life := Open), [Session(0)], Reading(0, 0), false))
  {
    hide Reachable;
    var s, c' := Connected(c), c.(life := Open);
    Then(cfg, s, Dispatch);
    var s1 := s.(pc := Accepting);
    assert Apply(cfg, s, Dispatch) == s1;
    Then(cfg, s1, Accept(false));
    var s2 := OneSession(c', [Listener, Session(0)], Accepting, false);
    assert Apply(cfg, s1, Accept(false)) == s2;
    Then(cfg, s2, AcceptAgain);
    var s3 := OneSession(c', [Session(0)], Waiting, false);
    assert Apply(cfg, s2, AcceptAgain) == s3;
    Then(cfg, s3, Dispatch);
  }

  /** The client sends one more byte, not its last, and the handler reads it at once. */
  lemma NextByte(cfg: Setup, r: Request, k: nat)
    requires cfg.inbound > 0 && r.Sendable() && k < PACKET_HEADER && k + 1 < |Wire(r)|
    requires Reachable(cfg, ReadingOn(r, k))
    ensures Reachable(cfg, ReadingOn(r, k + 1))
  {
    hide Reachable, EncodePacket, Wire, LengthField;
    var c := AfterBytes(r, k);
    WireLength(r);
    Then(cfg, ReadingOn(r, k), Send(0, 1));
    var c1 := SendBytes(c, 1);
    var s1 := OneSession(c1, [Session(0)], Reading(0, 0), false);
    assert Apply(cfg, ReadingOn(r, k), Send(0, 1)) == s1;
    Then(cfg, s1, Read(1));
    OneMore(r, k);
    assert ReadBytes(c1, 1) == AfterBytes(r, k + 1);
    assert AfterRead(cfg.invoke, s1, 0, AfterBytes(r, k + 1), 0) == ReadingOn(r, k + 1);
  }

  lemma OneMore(r: Request, k: nat)
    requires r.Sendable() && k < |Wire(r)|
    ensures var wire := Wire(r);
      && wire[k..][1..] == wire[k + 1..]
      && wire[..k] + ([] + wire[k..][..1])[..1] == wire[..k + 1] && ([] + wire[k..][..1])[1..] == []
  {
    hide EncodePacket;
  }

  lemma WireLength(r: Request)
    requires r.Sendable()
    ensures |Wire(r)| == PACKET_HEADER + |PacketOf(r).payload| <= PACKET_HEADER + PACKET_LIMIT
    ensures LengthField(Wire(r)[..PACKET_HEADER]) == LengthField(Wire(r)) == |Wire(r)| - PACKET_HEADER
    ensures U32At(Wire(r), 0) == PacketOf(r).op
  {
    hide Le, U32At, LengthField;
    HeaderReads(PacketOf(r), Wire(r)[..PACKET_HEADER]);
    HeaderReads(PacketOf(r), Wire(r));
  }

  lemma {:induction false} ReachByte(cfg: Setup, r: Request, k: nat)
    requires cfg.inbound > 0 && r.Sendable() && k <= PACKET_HEADER && k < |Wire(r)|
    ensures Reachable(cfg, ReadingOn(r, k))
  {
    hide Reachable, Wire;
    if k == 0 {
      ReachAccepted(cfg, r);
    } else {
      ReachByte(cfg, r, k - 1);
      NextByte(cfg, r, k - 1);
    }
  }

  // ---- A request split after its header ----

  /** Any request with a payload, split after its header, kills the monitor: the next byte wakes
      the session again, whose handler then reads nothing and exits. The client is still there. */
  lemma SplitHeaderKills(cfg: Setup, r: Request)
    requires cfg.inbound > 0 && r.Sendable() && PacketOf(r).payload != []
    ensures exists s :: Reachable(cfg, s) && KilledBy(s, r)
  {
    hide Reachable, EncodePacket, Wire;
    WireLength(r);
    ReachByte(cfg, r, PACKET_HEADER);
    var c := AfterBytes(r, PACKET_HEADER);
    PauseAndSend(cfg, c, |Wire(r)| - PACKET_HEADER);
    WakeKills(cfg, SendBytes(c, 1), r);
  }

  lemma PauseAndSend(cfg: Setup, c: Conn, n: nat)
    requires Reachable(cfg, OneSession(c, [Session(0)], Reading(0, n), false)) && cfg.inbound > 0
    requires |c.received| == PACKET_HEADER && n > 0 && c.inbound == [] && !c.gone
    requires c.client.Writing? && c.client.rest != []
    ensures Reachable(cfg, OneSession(SendBytes(c, 1), [], Waiting, true))
  {
    hide Reachable;
    var s := OneSession(c, [Session(0)], Reading(0, n), false);
    Then(cfg, s, ReadAgain);
    var s1 := OneSession(c, [], Waiting, true);
    assert Apply(cfg, s, ReadAgain) == s1;
    Then(cfg, s1, Send(0, 1));
    assert Apply(cfg, s1, Send(0, 1)) == OneSession(SendBytes(c, 1), [], Waiting, true);
  }

  /** The monitor has exited with part of its one client's only request unread. */
  predicate KilledBy(s: State, r: Request)
  {
    && s.pc == Over(Protocol) && |s.conns| == 1
    && s.conns[0].sent == [r] && !s.conns[0].gone && s.conns[0].inbound != []
  }

  lemma WakeKills(cfg: Setup, c: Conn, r: Request)
    requires Reachable(cfg, OneSession(c, [], Waiting, true))
    requires |c.received| == PACKET_HEADER && c.inbound != [] && c.life == Open && c.edge && !c.terminated
    requires c.sent == [r] && !c.gone
    ensures exists s :: Reachable(cfg, s) && KilledBy(s, r)
  {
    hide Reachable;
    var s, c' := OneSession(c, [], Waiting, true), c.(edge := false);
    Then(cfg, s, Deliver(Session(0)));
    var s1 := OneSession(c', [Session(0)], Waiting, true);
    assert Apply(cfg, s, Deliver(Session(0))) == s1;
    Then(cfg, s1, Dispatch);
    var s2 := OneSession(c', [Session(0)], Reading(0, 0), true);
    assert Apply(cfg, s1, Dispatch) == s2;
    Then(cfg, s2, ReadNothing);
    assert KilledBy(Apply(cfg, s2, ReadNothing), r);
  }

  // ---- A socket without room for an acknowledgement ----

  /** With room for fewer than eight bytes an acknowledgement can find its socket full, and the
      session then forgets that it was writing; with room for eight it never does. */
  lemma AckWaitsIff(cfg: Setup)
    requires cfg.inbound > 0
    ensures (exists s :: Reachable(cfg, s) && Enabled(cfg, s, AckAgain)) <==> cfg.outbound < PACKET_HEADER
  {
    hide Reachable, Enabled, EncodePacket;
    if cfg.outbound < PACKET_HEADER {
      FullSocket(cfg);
    } else {
      forall s | Reachable(cfg, s)
        ensures !Enabled(cfg, s, AckAgain)
      {
        ReachableInv(cfg, s);
        AckNeverWaits(cfg, s);
      }
    }
  }

  lemma FullSocket(cfg: Setup)
    requires cfg.inbound > 0 && cfg.outbound < PACKET_HEADER
    ensures exists s :: Reachable(cfg, s) && Enabled(cfg, s, AckAgain)
  {
    hide Reachable, EncodePacket, Wire, LengthField, U32At;
    DetachWire();
    WireLength(Detach);
    ReachByte(cfg, Detach, 7);
    Then(cfg, ReadingOn(Detach, 7), Send(0, 1));
    var c := SendBytes(AfterBytes(Detach, 7), 1);
    var s := OneSession(c, [Session(0)], Reading(0, 0), false);
    assert Apply(cfg, ReadingOn(Detach, 7), Send(0, 1)) == s;
    OneMore(Detach, 7);
    assert ReadBytes(c, 1).received == Wire(Detach)[..8] == Wire(Detach);
    Then(cfg, s, Read(1));
    FillSocket(cfg, AfterRead(cfg.invoke, s, 0, ReadBytes(c, 1), 0));
  }

  lemma FillSocket(cfg: Setup, s: State)
    requires Reachable(cfg, s) && s.pc == Acking(0) && s.conns != [] && cfg.outbound < PACKET_HEADER
    requires s.conns[0].acked == 0 && s.conns[0].outbound == [] && !s.conns[0].HungUp()
    ensures exists s :: Reachable(cfg, s) && Enabled(cfg, s, AckAgain)
  {
    hide Reachable;
    if cfg.outbound > 0 {
      Then(cfg, s, Monitor.Ack(cfg.outbound));
    } else {
      assert Enabled(cfg, s, AckAgain);
    }
  }

  lemma DetachWire()
    ensures PacketOf(Detach) == Packet(OP_DETACH, [])
  {
  }

  // ---- A client that leaves ----

  /** A client that closes its end without a detach ends the monitor, with no read paused. */
  lemma LeavingClientEnds(cfg: Setup)
    requires cfg.outbound >= PACKET_HEADER && cfg.inbound > 0
    ensures exists s :: Reachable(cfg, s) && s.pc == Over(Protocol) && !s.pausedAtHeader
  {
    hide Reachable, Halted, Inv;
    InitReachable(cfg);
    Then(cfg, INIT, Connect);
    var s := Apply(cfg, INIT, Connect);
    Then(cfg, s, Vanish(0));
    var t := Apply(cfg, s, Vanish(0));
    ReachableInv(cfg, t);
    var steps, u := Completion(cfg, t);
    ReachableOn(cfg, t, steps, u);
    RunSame(cfg, t, steps, u);
    NotKilled(cfg, t, steps, u);
    NoRequests(cfg, u);
    assert SameCall(t.conns[0], u.conns[0]);
    NotFreed(cfg, u);
    assert u.conns[0].gone && u.conns[0].life != Freed;
    ExitIff(cfg, u);
    Ends(u.pc.why);
    ReachableTraces(cfg, u);
  }

  lemma NoRequests(cfg: Setup, s: State)
    requires |s.conns| == 1 ==> s.conns[0].sent == []
    ensures |s.conns| == 1 ==> !OneDoomed(cfg, s)
  {
  }

  /** A session whose client never asked for anything is not freed. */
  lemma NotFreed(cfg: Setup, s: State)
    requires Reachable(cfg, s) && cfg.outbound >= PACKET_HEADER && |s.conns| == 1 && s.conns[0].sent == []
    ensures s.conns[0].life != Freed
  {
    hide Inv;
    ReachableInv(cfg, s);
    InvConn(s, 0);
  }

  // ---- A trace with too many arguments ----

  /** One client has set n distinct arguments, one call after the other, and nothing went wrong. */
  ghost predicate HasSet(cfg: Setup, s: State, n: nat)
  {
    && Reachable(cfg, s) && Sound(s) && Blocks(s) && AllReturned(s.conns)
    && |s.conns| == 1 && !s.conns[0].gone && s.conns[0].sent == Settings(n)
  }

  function Settings(n: nat): seq<Request>
  {
    seq(n, k requires 0 <= k < n => Arg(Name(k)))
  }

  function Name(k: nat): Stores.Text
  {
    [1 + k % 255]
  }

  /** A client whose calls have all returned can begin another one, unless it detached. */
  lemma CanBegin(cfg: Setup, s: State, n: nat, r: Request)
    requires HasSet(cfg, s, n) && cfg.outbound >= PACKET_HEADER && r.Sendable()
    ensures Enabled(cfg, s, Begin(0, r))
  {
    hide Inv, Reachable, LastTid;
    ReachableInv(cfg, s);
    InvConn(s, 0);
  }

  /** Another call is begun and completed. */
  lemma OneCall(cfg: Setup, s: State, n: nat, r: Request) returns (s': State)
    requires HasSet(cfg, s, n) && cfg.outbound >= PACKET_HEADER && cfg.inbound > 0 && r.Sendable()
    ensures Reachable(cfg, s') && |s'.conns| == 1 && !s'.conns[0].gone && s'.conns[0].sent == Settings(n) + [r]
    ensures if OneDoomed(cfg, s') then s'.pc == Over(Overrun) else Sound(s') && Blocks(s') && AllReturned(s'.conns)
  {
    hide Reachable, EncodePacket, OneDoomed, AllReturned;
    CanBegin(cfg, s, n, r);
    Then(cfg, s, Begin(0, r));
    var t := Apply(cfg, s, Begin(0, r));
    BeginSound(s, t);
    var steps;
    steps, s' := EveryCallCanReturn(cfg, t);
    ReachableOn(cfg, t, steps, s');
    assert SameCall(t.conns[0], s'.conns[0]);
  }

  lemma BeginSound(s: State, t: State)
    requires Sound(s) && |s.conns| == 1 && !s.conns[0].gone && |t.conns| == 1 && !t.conns[0].gone
    requires t.pc == s.pc && t.pausedAtHeader == s.pausedAtHeader
    ensures Sound(t)
  {
  }

  lemma {:induction false} ReachSettings(cfg: Setup, n: nat) returns (s: State)
    requires cfg.outbound >= PACKET_HEADER && cfg.inbound > 0
    ensures HasSet(cfg, s, n)
  {
    hide Reachable, EncodePacket, Blocks, AllReturned, OneDoomed;
    if n == 0 {
      InitReachable(cfg);
      Then(cfg, INIT, Connect);
      var t := Apply(cfg, INIT, Connect);
      var steps;
      steps, s := EveryCallCanReturn(cfg, t);
      ReachableOn(cfg, t, steps, s);
      assert SameCall(t.conns[0], s.conns[0]);
      NothingDoomed(cfg, s);
    } else {
      var before := ReachSettings(cfg, n - 1);
      var r := Arg(Name(n - 1));
      s := OneCall(cfg, before, n - 1, r);
      assert Settings(n) == Settings(n - 1) + [r];
      NothingDoomed(cfg, s);
    }
  }

  lemma NothingDoomed(cfg: Setup, s: State)
    requires |s.conns| == 1 && forall r <- s.conns[0].sent :: r.Arg?
    ensures !OneDoomed(cfg, s)
  {
    forall i: nat
      ensures !Doomed(cfg, s, i)
    {
      if i == 0 && HasRequest(s.conns[0]) {
        assert Outstanding(s.conns[0]) in s.conns[0].sent;
      }
    }
  }

  /** In any configuration, thirty distinct arguments and a trace of the process overrun the
      argument vector. */
  lemma ThirtyArgumentsOverrun(cfg: Setup)
    requires cfg.outbound >= PACKET_HEADER && cfg.inbound > 0
    ensures exists s :: Reachable(cfg, s) && s.pc == Over(Overrun)
  {
    hide Reachable, OneDoomed, Blocks, AllReturned, HasSet;
    var before := ReachSettings(cfg, 30);
    var s := OneCall(cfg, before, 30, TraceProcess);
    if !OneDoomed(cfg, s) {
      NotAllServed(cfg, s);
    }
  }

  lemma NotAllServed(cfg: Setup, s: State)
    requires Reachable(cfg, s) && cfg.outbound >= PACKET_HEADER
    requires |s.conns| == 1 && !s.conns[0].gone && s.conns[0].sent == Settings(30) + [TraceProcess]
    ensures !AllReturned(s.conns)
  {
    hide Inv, Reachable, Fold, LastTid, PacketOf, Argv.TraceFits;
    ReachableInv(cfg, s);
    ReachableTraces(cfg, s);
    if AllReturned(s.conns) {
      var sent := s.conns[0].sent;
      LinearizableStores(cfg, s, 0);
      assert sent[..s.conns[0].done] == sent;
      PacketsCount(sent);
      OneClientLog(s);
      forall k | 0 <= k < 30
        ensures s.log[..30][k].packet == PacketOf(Arg(Name(k)))
      {
        PacketsIndex(sent, k);
      }
      PacketsIndex(sent, 30);
      ArgsFolded(s.log[..30]);
      assert EntryFits(cfg.invoke, s.log, 30);
      NoRoom(cfg.invoke, Fold(s.log[..30]));
    }
  }

  lemma NoRoom(invoke: Argv.Invoke, lists: Stores.Lists)
    requires |lists.args| >= 30
    ensures !Argv.TraceFits(invoke, lists, PacketOf(TraceProcess).op)
  {
  }

  lemma OneClientLog(s: State)
    requires Inv(s) && |s.conns| == 1
    ensures |Project(s.log, 0)| == |s.log|
    ensures forall k :: 0 <= k < |s.log| ==> Project(s.log, 0)[k] == s.log[k].packet
  {
    hide ConnsOk, ReadyOk, BacklogOk, WakeOk, PcOk, PauseOk, LogAt, Fold, Project;
    ProjectAll(s.log, 0);
  }

  lemma {:induction false} ProjectAll(log: seq<Entry>, i: nat)
    requires forall e <- log :: e.id == i
    ensures |Project(log, i)| == |log|
    ensures forall k :: 0 <= k < |log| ==> Project(log, i)[k] == log[k].packet
  {
    if log != [] {
      ProjectAll(log[..|log| - 1], i);
    }
  }

  /** Distinct arguments pile up. */
  lemma {:induction false} ArgsFolded(log: seq<Entry>)
    requires |log| <= 255
    requires forall k :: 0 <= k < |log| ==> log[k].packet == PacketOf(Arg(Name(k)))
    ensures |Fold(log).args| == |log| && forall k :: 0 <= k < |log| ==> Fold(log).args[k] == Name(k)
  {
    if log == [] {
      assert Fold(log) == Stores.Lists([], []);
    } else {
      hide PacketOf, Name, Fold;
      var n := |log| - 1;
      var front := log[..n];
      ArgsFolded(front);
      NewName(Fold(front).args, n);
      FoldedArg(log, Name(n));
    }
  }

  lemma FoldedArg(log: seq<Entry>, text: Stores.Text)
    requires log != [] && text != [] && Arg(text).Sendable() && log[|log| - 1].packet == PacketOf(Arg(text))
    requires text !in Fold(log[..|log| - 1]).args
    ensures Fold(log).args == Fold(log[..|log| - 1]).args + [text]
  {
    hide PacketOf, Stores.Perform, Stores.Except;
    var lists := Fold(log[..|log| - 1]);
    Stores.PerformRequest(lists, Arg(text));
    Stores.ExceptNone(lists.args, text);
  }

  lemma NewName(args: seq<Stores.Text>, n: nat)
    requires |args| == n < 255 && forall k :: 0 <= k < n ==> args[k] == Name(k)
    ensures Name(n) !in args && Name(n) != [] && Arg(Name(n)).Sendable()
  {
  }
}
