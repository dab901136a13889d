/** The invariant of the whole monitor machine, and that every step keeps it. */
module MonitorInv {
  import opened Bytes
  import opened Packets
  import opened Sequences
  import opened Stores
  import opened Monitor
  import opened Connections
  import Sessions

  // ---- The parts of the invariant ----

  ghost predicate ConnsOk(conns: seq<Conn>)
  {
    forall i :: 0 <= i < |conns| ==> ConnOk(conns[i])
  }

  ghost predicate Watched(conns: seq<Conn>, e: Event)
  {
    e.Session? ==> e.id < |conns| && conns[e.id].life == Open
  }

  /** Events are linked at most once, and only live ones are. */
  ghost predicate ReadyOk(conns: seq<Conn>, ready: seq<Event>)
  {
    && Distinct(ready)
    && (forall e <- ready :: Watched(conns, e))
  }

  ghost predicate BacklogOk(conns: seq<Conn>, backlog: seq<nat>)
  {
    && Distinct(backlog)
    && (forall i :: i in backlog <==> 0 <= i < |conns| && conns[i].life == Queued)
  }

  /** Whatever waits to be read or accepted, the end of a stream included, is linked or has an
      edge to be reported. */
  ghost predicate WakeOk(s: State)
  {
    && (s.backlog != [] ==> s.listenerEdge || Listener in s.ready)
    && (forall i :: 0 <= i < |s.conns| ==> WokenUp(s.conns[i], i, s.ready))
  }

  ghost predicate WokenUp(c: Conn, i: nat, ready: seq<Event>)
  {
    c.life == Open && (c.inbound != [] || c.gone) ==> c.edge || Session(i) in ready
  }

  function Fold(log: seq<Entry>): Lists
  {
    if log == [] then Lists([], []) else Perform(Fold(log[..|log| - 1]), log[|log| - 1].packet)
  }

  /** The packets of one connection in the log. */
  function Project(log: seq<Entry>, i: nat): seq<Packet>
  {
    if log == [] then []
    else Project(log[..|log| - 1], i) + if log[|log| - 1].id == i then [log[|log| - 1].packet] else []
  }

  function PacketsOf(rs: seq<Request>): seq<Packet>
    requires forall r <- rs :: r.Sendable()
  {
    if rs == [] then [] else PacketsOf(rs[..|rs| - 1]) + [PacketOf(rs[|rs| - 1])]
  }

  ghost predicate LogAt(c: Conn, i: nat, log: seq<Entry>)
  {
    Counts(c) && Project(log, i) == PacketsOf(c.sent[..c.done])
  }

  ghost predicate LogOk(conns: seq<Conn>, lists: Lists, log: seq<Entry>)
  {
    && lists == Fold(log)
    && (forall i :: 0 <= i < |conns| ==> LogAt(conns[i], i, log))
    && (forall e <- log :: e.id < |conns|)
  }

  /** The captured successor is the current event's neighbour. */
  ghost predicate NextOk(s: State, current: Event)
  {
    current in s.ready && (s.next.Some? ==> Successor(s.ready, current) == s.next)
  }

  /** A read for nothing is about to happen. */
  predicate Stuck(c: Conn, target: nat)
  {
    |c.received| == PACKET_HEADER && target == 0
  }

  ghost predicate PcOk(s: State)
  {
    && (forall i :: 0 <= i < |s.conns| && s.conns[i].acked < PACKET_HEADER ==> s.pc == Acking(i) || s.pc.Over?)
    && match s.pc
       case Waiting => s.next == None
       case Accepting => NextOk(s, Listener)
       case Reading(i, target) =>
         && i < |s.conns| && NextOk(s, Session(i))
         && (Stuck(s.conns[i], target)
             || (Sessions.Partial(s.conns[i].received) && target == Sessions.LoopTarget(s.conns[i].received)))
       case Acking(i) => i < |s.conns| && NextOk(s, Session(i)) && s.conns[i].acked < PACKET_HEADER
       case Over(_) => true
  }

  /** Some client closed its end while its session was not freed yet. */
  ghost predicate LostOne(conns: seq<Conn>)
  {
    exists i :: 0 <= i < |conns| && conns[i].gone && conns[i].life != Freed
  }

  /** The monitor exits only over a lost client or a pause at exactly eight bytes, and a handler
      is entered with exactly a header's worth of bytes only after such a pause. */
  ghost predicate PauseOk(s: State)
  {
    && (s.pc == Over(Protocol) ==> s.pausedAtHeader || LostOne(s.conns))
    && (s.pc.Reading? && s.pc.id < |s.conns| && Stuck(s.conns[s.pc.id], s.pc.target) ==> s.pausedAtHeader)
    && (!s.pc.Over? ==> forall i :: 0 <= i < |s.conns| && |s.conns[i].received| == PACKET_HEADER ==>
          s.pausedAtHeader || (s.pc.Reading? && s.pc.id == i))
  }

  ghost predicate Inv(s: State)
  {
    && ConnsOk(s.conns) && ReadyOk(s.conns, s.ready) && BacklogOk(s.conns, s.backlog) && WakeOk(s)
    && LogOk(s.conns, s.lists, s.log) && PcOk(s) && PauseOk(s)
  }

  /** The invariant between two handlers. */
  ghost predicate Quiet(s: State)
  {
    && ConnsOk(s.conns) && ReadyOk(s.conns, s.ready) && BacklogOk(s.conns, s.backlog) && WakeOk(s)
    && LogOk(s.conns, s.lists, s.log)
    && (s.next.Some? ==> s.next.value in s.ready)
    && (forall i :: 0 <= i < |s.conns| ==> s.conns[i].acked >= PACKET_HEADER)
    && (forall i :: 0 <= i < |s.conns| && |s.conns[i].received| == PACKET_HEADER ==> s.pausedAtHeader)
  }

  // ---- Ready-list facts ----

  lemma SuccessorIn(ready: seq<Event>, e: Event)
    ensures Successor(ready, e).Some? ==> Successor(ready, e).value in ready
  {
  }

  /** A distinct list splits at any of its events. */
  lemma SplitAt(ready: seq<Event>, e: Event)
    requires e in ready && Distinct(ready)
    ensures var i := Position(ready, e);
      && Unlink(ready, e) == ready[..i] + ready[i + 1..]
      && (forall x :: x in Unlink(ready, e) <==> x in ready && x != e)
      && Distinct(Unlink(ready, e))
      && (Successor(ready, e).Some? ==> Successor(ready, e).value != e)
  {
    Unlinked(ready, Position(ready, e));
  }

  /** Linking a newcomer at the tail does not disturb a captured successor. */
  lemma LinkNext(ready: seq<Event>, e: Event, x: Event)
    requires e in ready
    ensures Successor(ready, e).Some? ==> Successor(Link(ready, x), e) == Successor(ready, e)
    ensures e in Link(ready, x)
  {
    PositionInPrefix(ready, [x], e);
  }

  lemma LinkOk(conns: seq<Conn>, ready: seq<Event>, e: Event)
    requires ReadyOk(conns, ready) && Watched(conns, e)
    ensures ReadyOk(conns, Link(ready, e))
  {
  }

  lemma UnlinkOk(conns: seq<Conn>, ready: seq<Event>, e: Event)
    requires ReadyOk(conns, ready) && e in ready
    ensures ReadyOk(conns, Unlink(ready, e))
  {
    SplitAt(ready, e);
  }

  // ---- Between two handlers ----

  lemma ReturnOk(s: State)
    requires Quiet(s)
    ensures Inv(Return(s))
  {
    hide ConnOk, Counts, Traffic, LogAt, Sessions.Partial;
    var s' := Return(s);
    if s.next.Some? {
      SuccessorIn(s.ready, s.next.value);
      if s.next.value.Session? {
        EnterOk(s, s.next.value.id);
      }
    }
  }

  lemma EnterOk(s: State, i: nat)
    requires ConnsOk(s.conns) && ReadyOk(s.conns, s.ready) && Session(i) in s.ready
    requires forall j :: 0 <= j < |s.conns| ==> s.conns[j].acked >= PACKET_HEADER
    ensures i < |s.conns|
    ensures var target := Sessions.EntryTarget(s.conns[i].received);
      || Stuck(s.conns[i], target)
      || (Sessions.Partial(s.conns[i].received) && target == Sessions.LoopTarget(s.conns[i].received))
  {
    assert Watched(s.conns, Session(i));
    var c := s.conns[i];
    assert ConnOk(c);
    if |c.received| != PACKET_HEADER {
      ReceivedPartial(c);
    }
  }

  /** What a paused session holds is a proper part of a packet. */
  lemma ReceivedPartial(c: Conn)
    requires ConnOk(c)
    ensures Sessions.Partial(c.received)
    ensures (c.received != [] || c.inbound != []) ==>
      c.sent != [] && Sessions.LoopTarget(c.received) <= |PacketOf(Outstanding(c)).payload|
  {
    hide EncodePacket, LastTid, LengthField;
    if c.received != [] || c.inbound != [] {
      ReceivedIsFront(c);
      assert c.received <= c.received + c.inbound;
      if |c.received| >= PACKET_HEADER {
        HeaderReads(PacketOf(Outstanding(c)), c.received);
      }
    }
  }
}
