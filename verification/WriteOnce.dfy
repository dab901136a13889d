/** The write-once gate of bun_writer_init (src/bun_stream.c) under concurrency: any number of
    calls that pass one WRITE_ONCE handle race on a freshly initialised buffer, and every
    access to shared memory is a step of its own. */
module WriteOnce {
  import opened Bytes

  /** How far a call has come: it has read the owner field, owns the buffer, has drawn a
      number from the counter, or has returned. Tickets count the draws without wrapping. */
  datatype Phase = Entered | SawNoOwner | Owned | Counted(before: uint32, ticket: nat) | Returned(ok: bool, ticket: nat)
  {
    predicate Drew() { Counted? || Returned? }
  }

  /** `order` remembers which call drew which ticket, and `publishers` who stored a header. */
  datatype State = State(ownerSet: bool, count: uint32, calls: seq<Phase>,
                         order: seq<nat>, publishers: seq<nat>)

  ghost predicate Init(s: State)
  {
    !s.ownerSet && s.count == 0 && s.order == [] && s.publishers == [] && AllEntered(s.calls)
  }

  ghost predicate AllEntered(calls: seq<Phase>)
  {
    forall t :: 0 <= t < |calls| ==> calls[t].Entered?
  }

  const INT_RANGE := 0x8000_0000

  /** The gate lets a call pass unless the count before its own, read as an int, is positive. */
  predicate Passes(before: uint32)
  {
    var last := if before < INT_RANGE then before else before - U32_RANGE;
    !(last > 0)
  }

  function Wrapped(ticket: nat): uint32
  {
    ticket % U32_RANGE
  }

  /** One atomic step of call t. */
  function Step(s: State, t: nat): State
    requires t < |s.calls| && !s.calls[t].Returned?
  {
    match s.calls[t]
    case Entered => s.(calls := s.calls[t := if s.ownerSet then Owned else SawNoOwner])
    case SawNoOwner => s.(ownerSet := true, calls := s.calls[t := Owned])
    case Owned =>
      s.(count := if s.count + 1 == U32_RANGE then 0 else s.count + 1,
         calls := s.calls[t := Counted(s.count, |s.order|)], order := s.order + [t])
    case Counted(before, ticket) =>
      if Passes(before) then s.(calls := s.calls[t := Returned(true, ticket)], publishers := s.publishers + [t])
      else s.(calls := s.calls[t := Returned(false, ticket)])
  }

  ghost predicate Schedule(s: State, ts: seq<nat>, s': State)
    decreases |ts|
  {
    if ts == [] then s == s'
    else ts[0] < |s.calls| && !s.calls[ts[0]].Returned? && Schedule(Step(s, ts[0]), ts[1..], s')
  }

  ghost predicate Reachable(n: nat, s: State)
  {
    exists start: State, ts :: Init(start) && |start.calls| == n && Schedule(start, ts, s)
  }

  /** The calls that have drawn a number. */
  function Draws(calls: seq<Phase>): nat
  {
    if calls == [] then 0
    else Draws(calls[..|calls| - 1]) + if calls[|calls| - 1].Drew() then 1 else 0
  }

  lemma {:induction false} DrawsUpdate(calls: seq<Phase>, t: nat, p: Phase)
    requires t < |calls|
    ensures Draws(calls[t := p]) == Draws(calls) + (if p.Drew() then 1 else 0) - (if calls[t].Drew() then 1 else 0)
  {
    var n := |calls| - 1;
    if t < n {
      DrawsUpdate(calls[..n], t, p);
      assert calls[t := p][..n] == calls[..n][t := p];
    } else {
      assert calls[t := p][..n] == calls[..n];
    }
  }

  lemma {:induction false} DrawsNone(calls: seq<Phase>)
    requires AllEntered(calls)
    ensures Draws(calls) == 0
  {
    if calls != [] {
      DrawsNone(calls[..|calls| - 1]);
    }
  }

  lemma {:induction false} DrawsAll(calls: seq<Phase>)
    requires forall p <- calls :: p.Returned?
    ensures Draws(calls) == |calls|
  {
    if calls != [] {
      DrawsAll(calls[..|calls| - 1]);
    }
  }

  /** What a call's ticket says about it. */
  ghost predicate CallOk(s: State, t: nat)
    requires t < |s.calls|
  {
    match s.calls[t]
    case Counted(before, ticket) => ticket < |s.order| && s.order[ticket] == t && before == Wrapped(ticket)
    case Returned(ok, ticket) => ticket < |s.order| && s.order[ticket] == t && ok == Passes(Wrapped(ticket))
    case _ => true
  }

  ghost predicate TicketOk(s: State, j: nat)
    requires j < |s.order|
  {
    s.order[j] < |s.calls| && s.calls[s.order[j]].Drew() && s.calls[s.order[j]].ticket == j
  }

  ghost predicate Published(s: State)
  {
    && (forall t :: t in s.publishers <==> 0 <= t < |s.calls| && s.calls[t].Returned? && s.calls[t].ok)
    && (forall i, j :: 0 <= i < j < |s.publishers| ==> s.publishers[i] != s.publishers[j])
  }

  ghost predicate Inv(s: State)
  {
    && s.count == Wrapped(|s.order|) && |s.order| == Draws(s.calls)
    && (forall t :: 0 <= t < |s.calls| ==> CallOk(s, t))
    && (forall j :: 0 <= j < |s.order| ==> TicketOk(s, j))
    && Published(s)
  }

  lemma StepKeepsInv(s: State, t: nat)
    requires Inv(s) && t < |s.calls| && !s.calls[t].Returned?
    ensures Inv(Step(s, t)) && |Step(s, t).calls| == |s.calls|
  {
    hide Published, Wrapped, Passes, CallOk, TicketOk;
    var s' := Step(s, t);
    DrawsUpdate(s.calls, t, s'.calls[t]);
    WrappedNext(|s.order|);
    StepKeepsPublished(s, t);
    forall u | 0 <= u < |s'.calls|
      ensures CallOk(s', u)
    {
      StepKeepsCall(s, t, u);
    }
    forall j | 0 <= j < |s'.order|
      ensures TicketOk(s', j)
    {
      StepKeepsTicket(s, t, j);
    }
  }

  lemma WrappedNext(n: nat)
    ensures Wrapped(n + 1) == if Wrapped(n) + 1 == U32_RANGE then 0 else Wrapped(n) + 1
  {
  }

  lemma StepKeepsCall(s: State, t: nat, u: nat)
    requires t < |s.calls| && !s.calls[t].Returned? && u < |s.calls|
    requires s.count == Wrapped(|s.order|) && CallOk(s, t) && CallOk(s, u)
    ensures CallOk(Step(s, t), u)
  {
    hide Wrapped, Passes;
  }

  lemma StepKeepsTicket(s: State, t: nat, j: nat)
    requires t < |s.calls| && !s.calls[t].Returned? && j < |Step(s, t).order|
    requires CallOk(s, t) && (j < |s.order| ==> TicketOk(s, j))
    ensures TicketOk(Step(s, t), j)
  {
    hide Wrapped, Passes;
  }

  lemma StepKeepsPublished(s: State, t: nat)
    requires Published(s) && t < |s.calls| && !s.calls[t].Returned?
    ensures Published(Step(s, t))
  {
    var s' := Step(s, t);
    assert forall u :: u in s'.publishers <==>
      u in s.publishers || (u == t && s'.calls[t].Returned? && s'.calls[t].ok);
  }

  lemma {:induction false} ScheduleKeepsInv(s: State, ts: seq<nat>, s': State)
    requires Inv(s) && Schedule(s, ts, s')
    ensures Inv(s') && |s'.calls| == |s.calls|
    decreases |ts|
  {
    if ts != [] {
      StepKeepsInv(s, ts[0]);
      ScheduleKeepsInv(Step(s, ts[0]), ts[1..], s');
    }
  }

  lemma ReachableInv(n: nat, s: State)
    requires Reachable(n, s)
    ensures Inv(s) && |s.calls| == n
  {
    var start: State, ts :| Init(start) && |start.calls| == n && Schedule(start, ts, s);
    DrawsNone(start.calls);
    ScheduleKeepsInv(start, ts, s);
  }

  ghost predicate Complete(s: State)
  {
    forall p <- s.calls :: p.Returned?
  }

  /** Call t alone succeeded and alone stored a header. */
  ghost predicate SoleWriter(s: State, t: nat)
  {
    && s.publishers == [t]
    && forall u :: 0 <= u < |s.calls| ==> s.calls[u].Returned? && (s.calls[u].ok <==> u == t)
  }

  /** Once all of at least one call returned, exactly one succeeded, if and only if there were
      at most 2^31 calls: the next one reads a negative number and passes too. */
  lemma ExactlyOnePasses(n: nat, s: State)
    requires Reachable(n, s) && Complete(s) && n > 0
    ensures n <= INT_RANGE <==> exists t :: SoleWriter(s, t)
  {
    ReachableInv(n, s);
    DrawsAll(s.calls);
    assert TicketOk(s, 0) && CallOk(s, s.order[0]);
    if n <= INT_RANGE {
      OnlyFirst(s);
    } else {
      assert TicketOk(s, INT_RANGE) && CallOk(s, s.order[INT_RANGE]);
      assert s.calls[s.order[0]].ok && s.calls[s.order[INT_RANGE]].ok;
    }
  }

  lemma OnlyFirst(s: State)
    requires Inv(s) && Complete(s) && 0 < |s.order| == |s.calls| <= INT_RANGE
    ensures SoleWriter(s, s.order[0])
  {
    var first := s.order[0];
    assert TicketOk(s, 0);
    forall u | 0 <= u < |s.calls|
      ensures s.calls[u].Returned? && (s.calls[u].ok <==> u == first)
    {
      assert CallOk(s, u);
      assert s.calls[u] in s.calls;
    }
    assert first in s.publishers;
    var second := s.publishers[if |s.publishers| > 1 then 1 else 0];
    assert second in s.publishers && s.publishers[0] in s.publishers;
  }

  /** Before that many calls, at no moment have two calls succeeded. */
  lemma NeverTwo(n: nat, s: State, t: nat, u: nat)
    requires Reachable(n, s) && n <= INT_RANGE && t < |s.calls| && u < |s.calls|
    requires s.calls[t].Returned? && s.calls[t].ok && s.calls[u].Returned? && s.calls[u].ok
    ensures t == u
  {
    ReachableInv(n, s);
    DrawsBound(s.calls);
    assert CallOk(s, t) && CallOk(s, u);
  }

  lemma {:induction false} DrawsBound(calls: seq<Phase>)
    ensures Draws(calls) <= |calls|
  {
    if calls != [] {
      DrawsBound(calls[..|calls| - 1]);
    }
  }
}
