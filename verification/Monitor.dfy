/** The monitor and its clients as one step machine (external/bcd/bcd-amalgamated.c): any
    number of connections, every system call of either side a step, and between them the
    kernel, which moves any nonempty part of what it is asked to move.

    One monitor thread runs the edge-triggered loop of bcd_io_enter. The calls that read,
    write or accept are steps; what the code does between two of them is part of the former.
    Interrupted calls are retried by the code and change nothing, so they are not steps. */
module Monitor {
  import opened Bytes
  import opened Packets
  import opened Sequences
  import opened Stores
  import Argv
  import Sessions

  /** How many bytes the kernel buffers on a connection, towards the monitor and back, and the
      tracer's configuration. */
  datatype Setup = Setup(inbound: nat, outbound: nat, invoke: Argv.Invoke)

  /** A client between calls, inside bcd_io_fd_write, inside bcd_channel_read_ack, or detached. */
  datatype Client = Idle | Writing(rest: seq<byte>) | Awaiting(got: seq<byte>) | Closed

  /** The monitor's end: waiting in the listen queue, registered, or closed and freed. */
  datatype Life = Queued | Open | Freed

  /** One connection. `sent` lists the requests begun, of which `returned` calls came back with
      0 and `done` were performed; `received` is the session's packet buffer up to its offset,
      `acked` how much of an acknowledgement in progress was written (8 when none is), and
      `edge` an edge the kernel has not yet reported. A client that is `gone` closed its end in
      the middle: it died, or a write of its timed out and the call closed the channel. */
  datatype Conn = Conn(client: Client, sent: seq<Request>, returned: nat, inbound: seq<byte>, outbound: seq<byte>,
                       life: Life, edge: bool, received: seq<byte>, done: nat, acked: nat,
                       tid: uint32, terminated: bool, gone: bool)
  {
    /** The client's end is closed. */
    predicate HungUp() { gone || client == Closed }
  }

  datatype Event = Listener | Session(id: nat)

  /** Where the monitor is: at epoll_wait, or about to call accept, read or write in the
      handler of the current event, or at its end. */
  datatype Pc = Waiting | Accepting | Reading(id: nat, target: nat) | Acking(id: nat) | Over(why: End)

  /** Killed from outside, exited by itself, or gone on after a store past the argument vector,
      of which nothing is known any more. */
  datatype End = Killed | Protocol | Overrun

  datatype Entry = Entry(id: nat, packet: Packet)

  /** `next` is the successor the dispatch loop captured; `log` the packets performed so far. */
  datatype State = State(conns: seq<Conn>, backlog: seq<nat>, listenerEdge: bool,
                         ready: seq<Event>, pc: Pc, next: Option<Event>,
                         lists: Lists, log: seq<Entry>, pausedAtHeader: bool)

  const INIT := State([], [], false, [Listener], Waiting, None, Lists([], []), [], false)

  const NEW_CONN := Conn(Idle, [], 0, [], [], Queued, false, [], 0, PACKET_HEADER, 0, false, false)

  datatype Step =
    // clients
    | Connect
    | Begin(c: nat, r: Request)
    | Send(c: nat, n: nat)
    | Receive(c: nat, n: nat)
    | Vanish(c: nat)
    // the kernel: an edge without cause, and the events one epoll_wait returns, one by one
    | Spurious(e: Event)
    | Deliver(e: Event)
    // the monitor
    | Dispatch
    | Accept(edge: bool)
    | AcceptAgain
    | Read(n: nat)
    | ReadAgain
    | ReadNothing
    | Ack(n: nat)
    | AckAgain
    | AckFails
    | Die

  predicate EdgeOf(s: State, e: Event)
  {
    match e
    case Listener => s.listenerEdge
    case Session(i) => i < |s.conns| && s.conns[i].edge
  }

  predicate Enabled(cfg: Setup, s: State, step: Step)
  {
    match step
    case Connect => !s.pc.Over?
    case Begin(c, r) => !s.pc.Over? && c < |s.conns| && s.conns[c].client == Idle && !s.conns[c].gone && r.Sendable()
    case Send(c, n) =>
      && !s.pc.Over? && c < |s.conns| && s.conns[c].client.Writing? && !s.conns[c].gone
      && 1 <= n <= |s.conns[c].client.rest| && |s.conns[c].inbound| + n <= cfg.inbound
    case Receive(c, n) =>
      && c < |s.conns| && s.conns[c].client.Awaiting? && !s.conns[c].gone
      && 1 <= n <= |s.conns[c].outbound| && |s.conns[c].client.got| + n <= PACKET_HEADER
    case Vanish(c) => !s.pc.Over? && c < |s.conns| && !s.conns[c].HungUp()
    case Spurious(e) => !s.pc.Over? && (e.Session? ==> e.id < |s.conns| && s.conns[e.id].life == Open)
    case Deliver(e) => s.pc == Waiting && EdgeOf(s, e)
    // epoll_wait blocks when nothing is ready and it has nothing to report
    case Dispatch => s.pc == Waiting && s.ready != []
    case Accept(_) => s.pc == Accepting && s.backlog != [] && s.backlog[0] < |s.conns|
    case AcceptAgain => s.pc == Accepting && s.backlog == []
    case Read(n) =>
      && s.pc.Reading? && s.pc.id < |s.conns|
      && 1 <= n <= |s.conns[s.pc.id].inbound| && |s.conns[s.pc.id].received| + n <= PACKET_HEADER + s.pc.target
    case ReadAgain =>
      && s.pc.Reading? && s.pc.id < |s.conns|
      && s.conns[s.pc.id].inbound == [] && !s.conns[s.pc.id].HungUp()
      && |s.conns[s.pc.id].received| != PACKET_HEADER + s.pc.target
    // a read of no bytes, or the end of the stream
    case ReadNothing =>
      && s.pc.Reading? && s.pc.id < |s.conns|
      && (|| |s.conns[s.pc.id].received| == PACKET_HEADER + s.pc.target
          || (s.conns[s.pc.id].inbound == [] && s.conns[s.pc.id].HungUp()))
    case Ack(n) =>
      && s.pc.Acking? && s.pc.id < |s.conns| && !s.conns[s.pc.id].HungUp()
      && 1 <= n && s.conns[s.pc.id].acked + n <= PACKET_HEADER && |s.conns[s.pc.id].outbound| + n <= cfg.outbound
    case AckAgain =>
      && s.pc.Acking? && s.pc.id < |s.conns| && !s.conns[s.pc.id].HungUp() && s.conns[s.pc.id].acked <= PACKET_HEADER
      && |s.conns[s.pc.id].outbound| >= cfg.outbound
    // EPIPE
    case AckFails => s.pc.Acking? && s.pc.id < |s.conns| && s.conns[s.pc.id].HungUp()
    case Die => !s.pc.Over?
  }

  /** What the environment is free to do while the monitor lives: connect, kill it, raise an edge
      without cause; a client may leave, and between calls begin any call; and each system call
      moves any nonempty part of what it is asked for and the buffers allow. */
  lemma EnvironmentIsFree(cfg: Setup, s: State, i: nat, n: nat, r: Request)
    requires !s.pc.Over? && i < |s.conns|
    ensures Enabled(cfg, s, Connect) && Enabled(cfg, s, Die) && Enabled(cfg, s, Spurious(Listener))
    ensures s.conns[i].life == Open ==> Enabled(cfg, s, Spurious(Session(i)))
    ensures !s.conns[i].HungUp() ==> Enabled(cfg, s, Vanish(i))
    ensures s.conns[i].client == Idle && !s.conns[i].gone && r.Sendable() ==> Enabled(cfg, s, Begin(i, r))
    ensures var c := s.conns[i];
      && (c.client.Writing? && !c.gone && 0 < n <= |c.client.rest| && |c.inbound| + n <= cfg.inbound ==>
            Enabled(cfg, s, Send(i, n)))
      && (c.client.Awaiting? && !c.gone && 0 < n <= |c.outbound| && |c.client.got| + n <= PACKET_HEADER ==>
            Enabled(cfg, s, Receive(i, n)))
      && (s.pc.Reading? && s.pc.id == i && 0 < n <= |c.inbound| && |c.received| + n <= PACKET_HEADER + s.pc.target ==>
            Enabled(cfg, s, Read(n)))
      && (s.pc == Acking(i) && !c.HungUp() && 0 < n <= PACKET_HEADER - c.acked && |c.outbound| + n <= cfg.outbound ==>
            Enabled(cfg, s, Ack(n)))
  {
  }

  // ---- The ready list ----

  function Link(ready: seq<Event>, e: Event): seq<Event>
  {
    if e in ready then ready else ready + [e]
  }

  function Unlink(ready: seq<Event>, e: Event): seq<Event>
  {
    var i := Position(ready, e);
    if i < |ready| then ready[..i] + ready[i + 1..] else ready
  }

  /** TAILQ_NEXT. */
  function Successor(ready: seq<Event>, e: Event): Option<Event>
  {
    var i := Position(ready, e);
    if i + 1 < |ready| then Some(ready[i + 1]) else None
  }

  /** Calling an event's handler. */
  function Enter(conns: seq<Conn>, e: Event): Pc
  {
    match e
    case Listener => Accepting
    case Session(i) => if i < |conns| then Reading(i, Sessions.EntryTarget(conns[i].received)) else Waiting
  }

  /** A handler returns: the dispatch loop goes on with the event it captured before. */
  function Return(s: State): State
  {
    match s.next
    case None => s.(pc := Waiting)
    case Some(e) => s.(pc := Enter(s.conns, e), next := Successor(s.ready, e))
  }

  // ---- The steps ----

  function WithConn(s: State, i: nat, c: Conn): State
    requires i < |s.conns|
  {
    s.(conns := s.conns[i := c])
  }

  function Beginning(c: Conn, r: Request): Conn
    requires r.Sendable()
  {
    c.(sent := c.sent + [r], client := Writing(EncodePacket(PacketOf(r))))
  }

  function SendBytes(c: Conn, n: nat): Conn
    requires c.client.Writing? && n <= |c.client.rest|
  {
    var rest := c.client.rest;
    c.(inbound := c.inbound + rest[..n], edge := c.edge || c.life == Open,
       client := if n == |rest| then Awaiting([]) else Writing(rest[n..]))
  }

  /** bcd_channel_read_ack returns 0 when the eight bytes say OK; bcd_detach then closes. */
  function ReceiveBytes(c: Conn, n: nat): Conn
    requires c.client.Awaiting? && n <= |c.outbound|
  {
    var got := c.client.got + c.outbound[..n];
    var c' := c.(outbound := c.outbound[n..]);
    if |got| < PACKET_HEADER then c'.(client := Awaiting(got))
    else if U32At(got, 0) != OP_OK then c'.(client := Closed)
    else c'.(client := if c.sent != [] && c.sent[|c.sent| - 1].Detach? then Closed else Idle,
             returned := c.returned + 1)
  }

  /** The kernel tells whoever watches the connection. */
  function Vanished(c: Conn): Conn
  {
    c.(gone := true, edge := c.edge || c.life == Open)
  }

  function ReadBytes(c: Conn, n: nat): Conn
    requires n <= |c.inbound|
  {
    c.(received := c.received + c.inbound[..n], inbound := c.inbound[n..])
  }

  /** The session's side of bcd_perform_request, after which the offset is 0. */
  function Performed(c: Conn, p: Packet): Conn
  {
    c.(received := [], done := c.done + 1, acked := 0,
       tid := if p.op == OP_TID && |p.payload| >= 4 then U32At(p.payload, 0) else c.tid,
       terminated := c.terminated || p.op == OP_DETACH)
  }

  function AckBytes(c: Conn, n: nat): Conn
    requires c.acked + n <= PACKET_HEADER
  {
    c.(outbound := c.outbound + ACK[c.acked..c.acked + n], acked := c.acked + n)
  }

  /** close(2), EPOLL_CTL_DEL and free(3). */
  function Freeing(c: Conn): Conn
  {
    c.(life := Freed, edge := false)
  }

  /** bcd_handler_accept: a cleared session, watched from now on. */
  function Registered(c: Conn, edge: bool): Conn
  {
    c.(life := Open, edge := edge, received := [], done := 0, acked := PACKET_HEADER, tid := 0, terminated := false)
  }

  /** The session is closed, unlinked and freed, and its handler returns. */
  function EndSession(s: State, i: nat, c: Conn): State
    requires i < |s.conns|
  {
    Return(WithConn(s, i, Freeing(c)).(ready := Unlink(s.ready, Session(i))))
  }

  /** After a read: ask for more, or perform the request and start acknowledging it; or, when
      the session was to end, end it. Performing the trace of a fatal error exits, and
      performing a trace whose vector does not fit overruns it. */
  function AfterRead(invoke: Argv.Invoke, s: State, i: nat, c: Conn, target: nat): State
    requires i < |s.conns|
  {
    var target' := if |c.received| >= PACKET_HEADER then LengthField(c.received) else target;
    if target' > PACKET_LIMIT then WithConn(s, i, c).(pc := Over(Protocol))
    else if |c.received| < PACKET_HEADER + target' then WithConn(s, i, c).(pc := Reading(i, target'))
    else if c.terminated then EndSession(s, i, c.(received := []))
    else
      var p := Packet(U32At(c.received, 0), c.received[PACKET_HEADER..PACKET_HEADER + target']);
      if !Argv.TraceFits(invoke, s.lists, p.op) then s.(pc := Over(Overrun))
      else if p.op == OP_TR_FATAL then s.(pc := Over(Protocol))
      else Performing(s, i, Performed(c, p), p)
  }

  /** The state in which a request was performed and its acknowledgement is to be written. */
  function Performing(s: State, i: nat, c: Conn, p: Packet): State
    requires i < |s.conns|
  {
    s.(conns := s.conns[i := c], pc := Acking(i), lists := Perform(s.lists, p), log := s.log + [Entry(i, p)])
  }

  /** After the last byte of an acknowledgement. */
  function AfterAck(s: State, i: nat, c: Conn): State
    requires i < |s.conns|
  {
    if c.terminated then EndSession(s, i, c) else Return(WithConn(s, i, c))
  }

  function Apply(cfg: Setup, s: State, step: Step): State
    requires Enabled(cfg, s, step)
  {
    match step
    case Connect => s.(conns := s.conns + [NEW_CONN], backlog := s.backlog + [|s.conns|], listenerEdge := true)
    case Begin(c, r) =>
      WithConn(s, c, Beginning(s.conns[c], r))
    case Send(c, n) => WithConn(s, c, SendBytes(s.conns[c], n))
    case Receive(c, n) => WithConn(s, c, ReceiveBytes(s.conns[c], n))
    case Vanish(c) => WithConn(s, c, Vanished(s.conns[c]))
    case Spurious(e) =>
      if e.Session? then WithConn(s, e.id, s.conns[e.id].(edge := true)) else s.(listenerEdge := true)
    case Deliver(e) =>
      var s' := if e.Session? then WithConn(s, e.id, s.conns[e.id].(edge := false)) else s.(listenerEdge := false);
      s'.(ready := Link(s.ready, e))
    case Dispatch => Return(s.(next := Some(s.ready[0])))
    case Accept(edge) =>
      var i := s.backlog[0];
      WithConn(s, i, Registered(s.conns[i], edge)).(backlog := s.backlog[1..], ready := Link(s.ready, Session(i)))
    case AcceptAgain => Return(s.(ready := Unlink(s.ready, Listener)))
    case Read(n) =>
      AfterRead(cfg.invoke, s, s.pc.id, ReadBytes(s.conns[s.pc.id], n), s.pc.target)
    case ReadAgain =>
      Return(s.(ready := Unlink(s.ready, Session(s.pc.id)),
                pausedAtHeader := s.pausedAtHeader || |s.conns[s.pc.id].received| == PACKET_HEADER))
    case ReadNothing =>
      if s.conns[s.pc.id].terminated then EndSession(s, s.pc.id, s.conns[s.pc.id]) else s.(pc := Over(Protocol))
    case Ack(n) =>
      var conn := AckBytes(s.conns[s.pc.id], n);
      if conn.acked < PACKET_HEADER then WithConn(s, s.pc.id, conn) else AfterAck(s, s.pc.id, conn)
    case AckAgain =>
      var conn := s.conns[s.pc.id];
      // the offset is kept, but the session will resume by reading
      Return(WithConn(s, s.pc.id, conn.(received := ACK[..conn.acked], acked := PACKET_HEADER))
               .(ready := Unlink(s.ready, Session(s.pc.id))))
    case AckFails => s.(pc := Over(Protocol))
    case Die => s.(pc := Over(Killed))
  }

  // ---- Runs ----

  ghost predicate Run(cfg: Setup, s: State, steps: seq<Step>, s': State)
    decreases |steps|
  {
    if steps == [] then s == s'
    else Enabled(cfg, s, steps[0]) && Run(cfg, Apply(cfg, s, steps[0]), steps[1..], s')
  }

  ghost predicate Reachable(cfg: Setup, s: State)
  {
    exists steps :: Run(cfg, INIT, steps, s)
  }
}
