/** The event loop's ready list (external/bcd/bcd-amalgamated.c): events that may have work,
    linked at most once each, and the dispatch pass over them while handlers unlink and free
    themselves and the listener links newcomers. */
module ReadyLists {
  import opened Sequences
  import opened Passes
  import Sessions

  /** struct bcd_io_event; `inReadyList` is the flag BCD_IO_EVENT_IN_READY_LIST. */
  class Event {
    const isListener: bool
    var inReadyList: bool

    constructor (isListener: bool)
      ensures this.isListener == isListener && !inReadyList
    {
      this.isListener, inReadyList := isListener, false;
    }
  }

  class ReadyList {
    /** TAILQ readyevents. */
    var list: seq<Event>
    /** Every event that exists and is not freed. */
    ghost var events: set<Event>

    ghost predicate Valid()
      reads this, events
    {
      && Distinct(list)
      && (forall e <- list :: e in events)
      && (forall e <- events :: e.inReadyList <==> e in list)
    }

    constructor ()
      ensures Valid() && list == [] && events == {}
    {
      list, events := [], {};
    }

    /** bcd_io_event_add_to_ready_list, for an event of the loop or a new one. */
    method Add(e: Event)
      requires Valid() && (e !in events ==> !e.inReadyList)
      modifies this, e`inReadyList
      ensures Valid() && events == old(events) + {e}
      ensures list == old(list) + if e in old(list) then [] else [e]
    {
      events := events + {e};
      if !e.inReadyList {
        list := list + [e];
        e.inReadyList := true;
      }
    }

    /** bcd_io_event_remove_from_ready_list. */
    method Remove(e: Event)
      requires Valid() && e in events
      modifies this`list, e`inReadyList
      ensures Valid()
      ensures if e in old(list)
        then list == old(list)[..Position(old(list), e)] + old(list)[Position(old(list), e) + 1..]
        else list == old(list)
      ensures e !in list
    {
      if e.inReadyList {
        var i := Position(list, e);
        Unlinked(list, i);
        list := list[..i] + list[i + 1..];
        e.inReadyList := false;
      }
    }

    /** bcd_io_event_destroy, after the event was unlinked. */
    ghost method Free(e: Event)
      requires Valid() && e in events && e !in list
      modifies this`events
      ensures Valid() && events == old(events) - {e}
    {
      events := events - {e};
    }

    /** A handler's effect on the list, from what its system calls came to. A session goes the way
        of its HandleRequest: it stays linked, parks or blocks and is unlinked, is unlinked and
        freed, or the monitor exits. The listener links the connections that arrived and then,
        unless accept failed for another reason than an empty queue, unlinks itself. */
    method CallHandler(e: Event, fate: Sessions.Fate, arrivals: seq<Arrival>, failed: bool)
      returns (ghost newcomers: seq<Event>)
      requires Valid() && e in list
      modifies this, events
      ensures Valid() && fresh(events - old(events))
      ensures |newcomers| == if e.isListener then Watches(arrivals) else 0
      ensures Distinct(newcomers) && (forall n <- newcomers :: fresh(n) && !n.isListener)
      ensures list == Left(old(list), Position(old(list), e), Stays(e, fate, failed), newcomers)
      ensures events == old(events) + Elements(newcomers) - (if Frees(e, fate) then {e} else {})
    {
      hide Position, Left, Watches;
      if e.isListener {
        newcomers := ListenerAccept(e, arrivals, failed);
      } else {
        newcomers := [];
        Finish(e, fate);
        AfterHandler(old(list), newcomers, e);
        assert old(list) + newcomers == old(list);
      }
    }

    /** The end of bcd_handler_request_response. */
    method Finish(e: Event, fate: Sessions.Fate)
      requires Valid() && e in list
      modifies this, events
      ensures Valid() && events == if fate.Freed? then old(events) - {e} else old(events)
      ensures list == if fate.Open? || fate.Exited? then old(list)
        else old(list)[..Position(old(list), e)] + old(list)[Position(old(list), e) + 1..]
    {
      if fate.Parked? || fate.Blocked? || fate.Freed? {
        Remove(e);
      }
      if fate.Freed? {
        Free(e);
      }
    }

    /** bcd_io_listener_accept, which unlinks the listener when its queue is empty. */
    method ListenerAccept(e: Event, arrivals: seq<Arrival>, failed: bool) returns (ghost newcomers: seq<Event>)
      requires Valid() && e in list
      modifies this, events
      ensures Valid() && events == old(events) + Elements(newcomers) && fresh(events - old(events))
      ensures |newcomers| == Watches(arrivals)
      ensures Distinct(newcomers) && (forall n <- newcomers :: fresh(n) && !n.isListener)
      ensures list == Left(old(list), Position(old(list), e), failed, newcomers)
    {
      hide Position, Left, Watches, Elements;
      newcomers := Accept(arrivals);
      AfterHandler(old(list), newcomers, e);
      if !failed {
        Remove(e);
      }
    }

    /** The accept loop of bcd_io_listener_accept: a connection for which an event can be
        created and watched is linked at the tail; any other is closed, or its event freed. */
    method Accept(arrivals: seq<Arrival>) returns (ghost newcomers: seq<Event>)
      requires Valid()
      modifies this
      ensures Valid() && events == old(events) + Elements(newcomers) && fresh(events - old(events))
      ensures |newcomers| == Watches(arrivals) && list == old(list) + newcomers
      ensures Distinct(newcomers) && (forall n <- newcomers :: fresh(n) && !n.isListener)
    {
      newcomers := [];
      assert arrivals[..0] == [];
      for k := 0 to |arrivals|
        invariant Valid() && events == old(events) + Elements(newcomers) && fresh(events - old(events))
        invariant |newcomers| == Watches(arrivals[..k]) && list == old(list) + newcomers
        invariant Distinct(newcomers) && (forall n <- newcomers :: fresh(n) && !n.isListener)
      {
        assert arrivals[..k + 1][..k] == arrivals[..k];
        if !arrivals[k].NoEvent? {
          var client := new Event(false);
          if arrivals[k].Watched? {
            Add(client);
            newcomers := newcomers + [client];
          }
        }
      }
      assert arrivals[..|arrivals|] == arrivals;
    }

    /** bcd_io_event_dispatch_ready_list: TAILQ_NEXT is taken before the handler runs. What the
        k-th call comes to is fates(k), or for the listener `arrivals` and `failed`. Every event
        linked at the start is called exactly once and in order; the newcomers are called after
        them, once each and in order, unless the listener was the last in the list, when the
        pass ends before reaching them; the pass breaks off at a call that exits. Linked
        afterwards are the called events that stay, in order, and then those not called. */
    method Dispatch(listener: Event, fates: nat -> Sessions.Fate, arrivals: seq<Arrival>, failed: bool)
      returns (calls: seq<Event>, exited: bool, ghost newcomers: seq<Event>)
      requires Valid() && listener.isListener
      requires forall e <- list :: e.isListener ==> e == listener
      modifies this, events
      ensures Valid()
      ensures Distinct(old(list) + newcomers) && (forall n <- newcomers :: fresh(n) && !n.isListener)
      ensures |newcomers| == if listener in calls then Watches(arrivals) else 0
      ensures calls <= old(list) + newcomers
      ensures !exited ==> calls == Called(old(list), newcomers, listener)
      ensures ExitsLast(calls, fates, exited)
      ensures list == Linked(calls, fates, failed) + (old(list) + newcomers)[|calls|..]
      ensures events == old(events) + Elements(newcomers) - AllFreed(calls, fates)
    {
      hide Distinct, Position, Left, InPass, Linked, AllFreed, Elements;
      calls, exited, newcomers := [], false, [];
      NothingCalled(fates, failed);
      if list == [] {
        assert list + newcomers == list;
        return;
      }
      hide Called, Watches, Stays, Frees, Exits, ExitsLast;
      ghost var start := list;
      var current, live := list[0], true;
      InPassStart(list, listener);
      while live && !exited
        invariant Valid() && fresh(events - old(events))
        invariant forall n <- newcomers :: fresh(n) && !n.isListener
        invariant |newcomers| == if listener in calls then Watches(arrivals) else 0
        invariant InPass(start, Linked(calls, fates, failed), newcomers, calls, list, live, current, listener)
        invariant current.isListener ==> current == listener
        invariant ExitsLast(calls, fates, exited)
        invariant events == old(events) + Elements(newcomers) - AllFreed(calls, fates)
        decreases live, !exited, listener !in calls, |start| + |newcomers| - |calls|
      {
        var next, last;
        ghost var more;
        FreedCalled(calls, fates);
        next, last, more := Turn(current, listener, fates(|calls|), arrivals, failed, start,
                                 Linked(calls, fates, failed), newcomers, calls);
        CallsSnoc(calls, current, fates, failed);
        ExitsSnoc(calls, current, fates);
        ElementsConcat(newcomers, more);
        assert Elements(more) !! AllFreed(calls, fates) by { ElementsAre(more); }
        FreedStep(old(events), Elements(newcomers), AllFreed(calls, fates), Elements(more),
                  if Frees(current, fates(|calls|)) then {current} else {});
        exited := Exits(current, fates(|calls|));
        calls, newcomers := calls + [current], newcomers + more;
        current, live := next, !last;
      }
      InPassFacts(start, Linked(calls, fates, failed), newcomers, calls, list, live, current, listener);
    }

    /** One round of the dispatch loop: the successor is looked up, then the handler runs. */
    method Turn(current: Event, listener: Event, fate: Sessions.Fate, arrivals: seq<Arrival>, failed: bool,
                ghost start: seq<Event>, ghost kept: seq<Event>, ghost newcomers: seq<Event>, ghost calls: seq<Event>)
      returns (next: Event, last: bool, ghost more: seq<Event>)
      requires Valid() && listener.isListener && (current.isListener ==> current == listener)
      requires InPass(start, kept, newcomers, calls, list, true, current, listener)
      requires forall e <- start + newcomers :: e.isListener ==> e == listener
      modifies this, events
      ensures Valid() && fresh(events - old(events))
      ensures forall n <- more :: fresh(n) && !n.isListener
      ensures |more| == if current == listener then Watches(arrivals) else 0
      ensures InPass(start, kept + (if Stays(current, fate, failed) then [current] else []), newcomers + more,
                     calls + [current], list, !last, next, listener)
      ensures |calls| < |start| + |newcomers| && current !in calls
      ensures next.isListener ==> next == listener
      ensures events == old(events) + Elements(more) - (if Frees(current, fate) then {current} else {})
    {
      hide Position, Left, InPass, Distinct, Watches, Elements;
      ghost var queue, before := start + newcomers, list;
      InPassFacts(start, kept, newcomers, calls, list, true, current, listener);
      NextIs(kept, queue, |calls|);
      var i := Position(list, current);
      last := i + 1 == |list|;
      next := if last then current else list[i + 1];
      more := CallHandler(current, fate, arrivals, failed);
      QueueStep(kept, queue, |calls|, Stays(current, fate, failed), more, list);
      DistinctConcat(queue, more);
      InPassStep(start, kept, newcomers, calls, current, listener, before, Stays(current, fate, failed), more, list,
                 last, next);
      assert kept + [] == kept;
    }
  }

  /** What becomes of an accepted connection: no event for it, an event that cannot be watched, or
      a new session. */
  datatype Arrival = NoEvent | NotWatched | Watched

  function Watches(arrivals: seq<Arrival>): nat
  {
    if arrivals == [] then 0
    else Watches(arrivals[..|arrivals| - 1]) + if arrivals[|arrivals| - 1].Watched? then 1 else 0
  }

  /** A call leaves its event linked; an exit leaves everything. */
  predicate Stays(e: Event, fate: Sessions.Fate, failed: bool)
  {
    if e.isListener then failed else fate.Open? || fate.Exited?
  }

  predicate Exits(e: Event, fate: Sessions.Fate)
  {
    !e.isListener && fate.Exited?
  }

  predicate Frees(e: Event, fate: Sessions.Fate)
  {
    !e.isListener && fate.Freed?
  }

  function AllStay(calls: seq<Event>, fates: nat -> Sessions.Fate, failed: bool): (stays: seq<bool>)
    ensures |stays| == |calls|
  {
    seq(|calls|, k requires 0 <= k < |calls| => Stays(calls[k], fates(k), failed))
  }

  /** The called events that are still linked, in order. */
  function Linked(calls: seq<Event>, fates: nat -> Sessions.Fate, failed: bool): seq<Event>
  {
    Staying(calls, AllStay(calls, fates, failed))
  }

  /** At most the last call exits. */
  predicate ExitsLast(calls: seq<Event>, fates: nat -> Sessions.Fate, exited: bool)
  {
    && (exited ==> calls != [] && Exits(calls[|calls| - 1], fates(|calls| - 1)))
    && forall k :: 0 <= k < |calls| - (if exited then 1 else 0) ==> !Exits(calls[k], fates(k))
  }

  lemma ExitsSnoc(calls: seq<Event>, e: Event, fates: nat -> Sessions.Fate)
    requires ExitsLast(calls, fates, false)
    ensures ExitsLast(calls + [e], fates, Exits(e, fates(|calls|)))
  {
  }

  ghost function AllFreed(calls: seq<Event>, fates: nat -> Sessions.Fate): set<Event>
  {
    set k | 0 <= k < |calls| && Frees(calls[k], fates(k)) :: calls[k]
  }

  ghost function Elements(es: seq<Event>): set<Event>
  {
    set e | e in es
  }

  lemma NothingCalled(fates: nat -> Sessions.Fate, failed: bool)
    ensures var none: seq<Event> := [];
      && Linked(none, fates, failed) == [] && ExitsLast(none, fates, false)
      && AllFreed(none, fates) == {} && Elements(none) == {}
  {
  }

  lemma ElementsConcat(xs: seq<Event>, ys: seq<Event>)
    ensures Elements(xs + ys) == Elements(xs) + Elements(ys)
  {
  }

  lemma ElementsAre(es: seq<Event>)
    ensures forall e :: e in Elements(es) <==> e in es
  {
  }

  lemma FreedCalled(calls: seq<Event>, fates: nat -> Sessions.Fate)
    ensures forall e <- AllFreed(calls, fates) :: e in calls
  {
  }

  lemma FreedStep(before: set<Event>, newcomers: set<Event>, freed: set<Event>, more: set<Event>, gone: set<Event>)
    requires more !! freed
    ensures before + newcomers - freed + more - gone == before + (newcomers + more) - (freed + gone)
  {
  }

  /** One more call, with what it came to. */
  lemma CallsSnoc(calls: seq<Event>, e: Event, fates: nat -> Sessions.Fate, failed: bool)
    ensures var stays := Stays(e, fates(|calls|), failed);
      Linked(calls + [e], fates, failed) == Linked(calls, fates, failed) + if stays then [e] else []
    ensures AllFreed(calls + [e], fates) == AllFreed(calls, fates) + if Frees(e, fates(|calls|)) then {e} else {}
  {
    hide Staying, AllStay, AllFreed, Stays, Frees;
    StaySnoc(calls, e, fates, failed);
    StayingSnoc(calls, AllStay(calls, fates, failed), e, Stays(e, fates(|calls|), failed));
    FreedSnoc(calls, e, fates);
  }

  lemma StaySnoc(calls: seq<Event>, e: Event, fates: nat -> Sessions.Fate, failed: bool)
    ensures AllStay(calls + [e], fates, failed) == AllStay(calls, fates, failed) + [Stays(e, fates(|calls|), failed)]
  {
    hide Stays;
  }

  lemma FreedSnoc(calls: seq<Event>, e: Event, fates: nat -> Sessions.Fate)
    ensures AllFreed(calls + [e], fates) == AllFreed(calls, fates) + if Frees(e, fates(|calls|)) then {e} else {}
  {
    var calls' := calls + [e];
    forall x | x in AllFreed(calls, fates)
      ensures x in AllFreed(calls', fates)
    {
      var k :| 0 <= k < |calls| && Frees(calls[k], fates(k)) && calls[k] == x;
      assert calls'[k] == x;
    }
    assert calls'[|calls|] == e;
    forall x | x in AllFreed(calls', fates)
      ensures x in AllFreed(calls, fates) || (x == e && Frees(e, fates(|calls|)))
    {
      var k :| 0 <= k < |calls'| && Frees(calls'[k], fates(k)) && calls'[k] == x;
      if k < |calls| {
        assert calls[k] == x;
      }
    }
  }
}
