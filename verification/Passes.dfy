/** One pass over a list that changes under it: every element linked at the start is called once,
    in order, its successor captured before the call; a call may unlink its own element, and the
    call of one distinguished element, the listener, may link newcomers at the tail. Shared by
    the ready list's code and by the monitor machine. */
module Passes {
  import opened Sequences

  /** The calls of a whole pass that began with the list `start`. */
  function Called<T(==)>(start: seq<T>, newcomers: seq<T>, listener: T): seq<T>
  {
    if start != [] && start[|start| - 1] == listener then start else start + newcomers
  }

  /** The called elements that are still linked. */
  function Staying<T>(calls: seq<T>, stays: seq<bool>): (kept: seq<T>)
    requires |stays| == |calls|
    ensures forall e <- kept :: e in calls
  {
    if calls == [] then []
    else
      var n := |calls| - 1;
      Staying(calls[..n], stays[..n]) + if stays[n] then [calls[n]] else []
  }

  lemma StayingSnoc<T>(calls: seq<T>, stays: seq<bool>, e: T, b: bool)
    requires |stays| == |calls|
    ensures Staying(calls + [e], stays + [b]) == Staying(calls, stays) + if b then [e] else []
  {
    var n := |calls|;
    assert (calls + [e])[..n] == calls && (stays + [b])[..n] == stays;
  }

  /** Where a pass stands: the queue is the starting list and the newcomers, who exist only
      once the listener was called; a prefix of it was called, of which `kept` is still linked.
      The pass stops at the end of the queue, or at the end of the starting list when the
      listener stood there. */
  ghost predicate InPass<T>(start: seq<T>, kept: seq<T>, newcomers: seq<T>, calls: seq<T>,
                            list: seq<T>, live: bool, current: T, listener: T)
  {
    var queue := start + newcomers;
    && start != [] && Distinct(queue)
    && calls <= queue && list == kept + queue[|calls|..]
    && (forall e <- kept :: e in queue)
    && (newcomers != [] ==> listener in start && listener in calls)
    && if live then |calls| < |queue| && current == queue[|calls|]
                    && (|start| <= |calls| ==> start[|start| - 1] != listener)
       else |calls| == if start[|start| - 1] == listener then |start| else |queue|
  }

  lemma InPassStart<T>(list: seq<T>, listener: T)
    requires list != [] && Distinct(list)
    ensures InPass(list, [], [], [], list, true, list[0], listener)
  {
    assert list + [] == list && [] + list[0..] == list;
  }

  lemma InPassFacts<T>(start: seq<T>, kept: seq<T>, newcomers: seq<T>, calls: seq<T>,
                       list: seq<T>, live: bool, current: T, listener: T)
    requires InPass(start, kept, newcomers, calls, list, live, current, listener)
    ensures var queue := start + newcomers;
      && start != [] && Distinct(queue) && calls <= queue && |calls| <= |queue| && list == kept + queue[|calls|..]
      && (live ==> |calls| < |queue| && current == queue[|calls|])
      && (!live ==> calls == Called(start, newcomers, listener))
      && (newcomers != [] ==> listener in start && listener in calls)
      && (forall e <- list :: e in start || e in newcomers)
  {
    var queue := start + newcomers;
    assert queue[..|start|] == start && queue[..|queue|] == queue;
  }

  lemma InPassStep<T>(start: seq<T>, kept: seq<T>, newcomers: seq<T>, calls: seq<T>, current: T,
                      listener: T, before: seq<T>, stays: bool, more: seq<T>,
                      list: seq<T>, last: bool, next: T)
    requires InPass(start, kept, newcomers, calls, before, true, current, listener)
    requires var queue, k := start + newcomers, |calls|;
      && k < |queue| && list == kept + (if stays then [current] else []) + (queue + more)[k + 1..]
      && (last <==> k + 1 == |queue|) && (!last ==> next == queue[k + 1])
      && (current != listener ==> more == [])
      && Distinct(queue + more)
    ensures InPass(start, if stays then kept + [current] else kept, newcomers + more, calls + [current],
                   list, !last, next, listener)
    ensures current !in calls && (more != [] ==> current == listener)
  {
    hide Distinct;
    var queue, k := start + newcomers, |calls|;
    NewCall(queue, calls, more);
    CurrentListener(start, newcomers, k, listener);
    assert start + (newcomers + more) == queue + more;
    StillLinked(kept, queue, more, k, if stays then [current] else []);
    if start[|start| - 1] == listener && listener in calls {
      LastListener(start, newcomers, calls);
    }
  }

  lemma StillLinked<T>(kept: seq<T>, queue: seq<T>, more: seq<T>, k: nat, stays: seq<T>)
    requires k < |queue| && (forall e <- kept :: e in queue) && (forall e <- stays :: e == queue[k])
    ensures forall e <- kept + stays :: e in queue + more
    ensures forall i :: 0 <= i < |queue| ==> (queue + more)[i] == queue[i]
  {
  }

  lemma NewCall<T>(queue: seq<T>, calls: seq<T>, more: seq<T>)
    requires Distinct(queue) && calls <= queue && |calls| < |queue|
    ensures queue[|calls|] !in calls && calls + [queue[|calls|]] <= queue + more
  {
  }

  /** The listener is called from the starting list, and newcomers are there only afterwards. */
  lemma CurrentListener<T>(start: seq<T>, newcomers: seq<T>, k: nat, listener: T)
    requires k < |start + newcomers| && Distinct(start + newcomers)
    requires newcomers != [] ==> listener in start
    ensures (start + newcomers)[k] == listener ==> k < |start| && start[k] == listener
  {
    if k >= |start| {
      var i :| 0 <= i < |start| && start[i] == listener;
      assert (start + newcomers)[i] == listener;
    }
  }

  lemma LastListener<T>(start: seq<T>, newcomers: seq<T>, calls: seq<T>)
    requires start != [] && Distinct(start + newcomers) && calls <= start + newcomers
    requires start[|start| - 1] in calls
    ensures |start| <= |calls|
  {
    var i :| 0 <= i < |calls| && calls[i] == start[|start| - 1];
    assert (start + newcomers)[i] == (start + newcomers)[|start| - 1];
  }

  lemma DistinctConcat<T>(xs: seq<T>, ys: seq<T>)
    requires Distinct(xs) && Distinct(ys) && forall y <- ys :: y !in xs
    ensures Distinct(xs + ys)
  {
    var zs := xs + ys;
    forall i, j | 0 <= i < j < |zs|
      ensures zs[i] != zs[j]
    {
      assert i >= |xs| ==> zs[i] == ys[i - |xs|];
      assert j >= |xs| ==> zs[j] == ys[j - |xs|] && ys[j - |xs|] in ys;
    }
  }

  /** The list a call leaves behind. */
  function Left<T>(xs: seq<T>, i: nat, stays: bool, more: seq<T>): seq<T>
    requires i < |xs|
  {
    xs[..i] + (if stays then [xs[i]] else []) + xs[i + 1..] + more
  }

  lemma AfterHandler<T>(xs: seq<T>, more: seq<T>, e: T)
    requires e in xs
    ensures var i := Position(xs, e);
      && e in xs + more && Position(xs + more, e) == i
      && Left(xs, i, true, more) == xs + more
      && Left(xs, i, false, more) == (xs + more)[..i] + (xs + more)[i + 1..]
  {
    hide Position, Left;
    PositionInPrefix(xs, more, e);
    LeftForms(xs, Position(xs, e), more);
  }

  lemma LeftForms<T>(xs: seq<T>, i: nat, more: seq<T>)
    requires i < |xs|
    ensures Left(xs, i, true, more) == xs + more
    ensures Left(xs, i, false, more) == (xs + more)[..i] + (xs + more)[i + 1..]
  {
    assert (xs + more)[i + 1..] == xs[i + 1..] + more;
    assert xs == xs[..i] + [xs[i]] + xs[i + 1..];
  }

  lemma NextIs<T>(kept: seq<T>, queue: seq<T>, k: nat)
    requires k < |queue| && Distinct(kept + queue[k..])
    ensures var list := kept + queue[k..];
      && queue[k] in list && Position(list, queue[k]) == |kept|
      && (|kept| + 1 == |list| <==> k + 1 == |queue|)
      && (k + 1 < |queue| ==> list[|kept| + 1] == queue[k + 1])
  {
    PositionUnique(kept + queue[k..], |kept|);
  }

  /** One call moves the front of the queue to the elements kept, or drops it, and the newcomers
      join the end. */
  lemma QueueStep<T>(kept: seq<T>, queue: seq<T>, k: nat, stays: bool, more: seq<T>, list: seq<T>)
    requires k < |queue| && list == Left(kept + queue[k..], |kept|, stays, more)
    ensures list == kept + (if stays then [queue[k]] else []) + (queue + more)[k + 1..]
  {
    assert (kept + queue[k..])[|kept| + 1..] == queue[k + 1..];
    assert (queue + more)[k + 1..] == queue[k + 1..] + more;
  }
}
