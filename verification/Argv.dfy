/** Flattening the stores into the tracer's argument vector (external/bcd/bcd-amalgamated.c):
    bcd_arg_get, bcd_kv_get and the two bcd_backtrace_* functions, whose vector has 32 slots. */
module Argv {
  import opened Bytes
  import opened Packets
  import opened Stores

  /** BCD_ARGC_LIMIT. */
  const ARGC_LIMIT := 32
  const SIZE_RANGE := 0x1_0000_0000_0000_0000

  /** The tracer's configuration: kp and tp may be null, separator 0 repeats kp per pair. */
  datatype Invoke = Invoke(path: Text, kp: Option<Text>, separator: byte, ks: byte, tp: Option<Text>)

  /** One slot of the vector. */
  datatype Slot = Unset | Null | Str(text: Text)

  datatype Target = Process | Thread(tid: nat)

  function Min(a: nat, b: nat): nat
  {
    if a <= b then a else b
  }

  function Strs(texts: seq<Text>): (slots: seq<Slot>)
    ensures |slots| == |texts|
    ensures forall i :: 0 <= i < |texts| ==> slots[i] == Str(texts[i])
  {
    seq(|texts|, i requires 0 <= i < |texts| => Str(texts[i]))
  }

  // ---- Key-value options ----

  function Entry(p: Pair, ks: byte): Text
  {
    p.0 + [ks] + p.1
  }

  /** The pairs in list order with a separator between neighbours. */
  function Join(list: seq<Pair>, s: byte, ks: byte): Text
  {
    if list == [] then []
    else if |list| == 1 then Entry(list[0], ks)
    else Join(list[..|list| - 1], s, ks) + [s] + Entry(list[|list| - 1], ks)
  }

  lemma {:induction false} JoinLength(list: seq<Pair>, s: byte, ks: byte)
    requires list != []
    ensures |Join(list, s, ks)| + 1 == KvLength(list) + |list|
  {
    if |list| == 1 {
      KvLengthOne(list[0]);
      assert list == [list[0]];
    } else {
      var front, last := list[..|list| - 1], list[|list| - 1];
      JoinLength(front, s, ks);
      KvLengthConcat(front, [last]);
      KvLengthOne(last);
      assert list == front + [last];
    }
  }

  function Entries(list: seq<Pair>, prefix: Text, ks: byte, n: nat): (texts: seq<Text>)
    requires n <= |list|
    ensures |texts| == n
  {
    seq(n, i requires 0 <= i < n => prefix + Entry(list[i], ks))
  }

  /** The strings bcd_kv_get puts into an output that claims `room` slots. In separator mode
      the claim is not looked at. */
  function KvStrings(list: seq<Pair>, invoke: Invoke, room: nat): seq<Text>
  {
    if list == [] || invoke.kp == None then []
    else if invoke.separator == 0 then
      Entries(list, invoke.kp.value, invoke.ks, Min(Min(room, |list|), ARGC_LIMIT))
    else [invoke.kp.value + Join(list, invoke.separator, invoke.ks)]
  }

  /** The separator branch: one malloc'd string, of which the last byte is never used, unless
      there is no memory. */
  method JoinedString(store: KvStore, prefix: Text, s: byte, ks: byte, memory: bool) returns (r: Option<array<byte>>)
    requires store.Valid() && store.list != []
    ensures r.Some? <==> memory
    ensures r.Some? ==> fresh(r.value)
    ensures r.Some? ==>
      var written := |prefix| + store.length + store.count;
      && r.value.Length == written + 1
      && r.value[..written] == prefix + Join(store.list, s, ks) + [0]
  {
    if !memory {
      return None;
    }
    hide KvLength, KvAfter, Join;
    var buffer := new byte[|prefix| + store.count + store.length + 1];
    WriteJoined(store, prefix, s, ks, buffer);
    r := Some(buffer);
  }

  method WriteJoined(store: KvStore, prefix: Text, s: byte, ks: byte, buffer: array<byte>)
    requires store.Valid() && store.list != []
    requires buffer.Length == |prefix| + store.length + store.count + 1
    modifies buffer
    ensures buffer[..buffer.Length - 1] == prefix + Join(store.list, s, ks) + [0]
  {
    hide KvLength, KvAfter, Join, Joined;
    var list := store.list;
    JoinLength(list, s, ks);
    JoinedEnds(list, s, ks);
    var p: nat := Extend(buffer, 0, prefix);
    for i := 0 to |list|
      invariant p <= buffer.Length
      invariant buffer[..p] == prefix + Joined(list, i, s, ks)
    {
      JoinedStep(list, i, s, ks);
      JoinedFits(list, i + 1, s, ks);
      p := ExtendPair(buffer, p, list[i], ks, if i + 1 < |list| then Some(s) else None);
    }
    p := Extend(buffer, p, [0]);
  }

  /** One round of the join loop: key, ks, value, and the separator unless it is the last. */
  method ExtendPair(buffer: array<byte>, p: nat, pair: Pair, ks: byte, s: Option<byte>) returns (end: nat)
    requires p + |Entry(pair, ks)| + (if s.Some? then 1 else 0) <= buffer.Length
    modifies buffer
    ensures end == p + |Entry(pair, ks)| + if s.Some? then 1 else 0
    ensures buffer[..end] == old(buffer[..p]) + (Entry(pair, ks) + if s.Some? then [s.value] else [])
  {
    end := Extend(buffer, p, pair.0);
    end := Extend(buffer, end, [ks]);
    end := Extend(buffer, end, pair.1);
    if s.Some? {
      end := Extend(buffer, end, [s.value]);
    }
  }

  /** memcpy at the end of what is written so far. */
  method Extend(buffer: array<byte>, p: nat, text: Text) returns (end: nat)
    requires p + |text| <= buffer.Length
    modifies buffer
    ensures end == p + |text| && buffer[..end] == old(buffer[..p]) + text
  {
    ghost var before := buffer[..];
    Store(buffer, p, text);
    StoredFront(before, p, text);
    assert buffer[..][..p + |text|] == buffer[..p + |text|];
    return p + |text|;
  }

  lemma StoredFront(b: seq<byte>, p: nat, text: Text)
    requires p + |text| <= |b|
    ensures Splice(b, p, text)[..p + |text|] == b[..p] + text
  {
  }

  /** What the join loop has written after i pairs. */
  function Joined(list: seq<Pair>, i: nat, s: byte, ks: byte): Text
    requires i <= |list|
  {
    Join(list[..i], s, ks) + if 0 < i < |list| then [s] else []
  }

  lemma JoinedStep(list: seq<Pair>, i: nat, s: byte, ks: byte)
    requires i < |list|
    ensures Joined(list, i + 1, s, ks)
      == Joined(list, i, s, ks) + (Entry(list[i], ks) + if i + 1 < |list| then [s] else [])
  {
    assert list[..i + 1][..i] == list[..i];
  }

  lemma JoinedEnds(list: seq<Pair>, s: byte, ks: byte)
    ensures Joined(list, 0, s, ks) == [] && Joined(list, |list|, s, ks) == Join(list, s, ks)
  {
    assert list[..|list|] == list;
  }

  lemma JoinedFits(list: seq<Pair>, i: nat, s: byte, ks: byte)
    requires 0 < i <= |list|
    ensures |Joined(list, i, s, ks)| <= KvLength(list) + |list|
  {
    JoinLength(list[..i], s, ks);
    KvLengthConcat(list[..i], list[i..]);
    assert list == list[..i] + list[i..];
  }

  /** bcd_kv_get into `argv` from slot `at` on; `memory` allocations succeed before one fails,
      and a failure is -1. */
  method KvGet(store: KvStore, invoke: Invoke, argv: array<Slot>, at: nat, room: nat, memory: nat) returns (n: int)
    requires store.Valid()
    requires at + |KvStrings(store.list, invoke, room)| <= argv.Length
    modifies argv
    ensures n == if memory < |KvStrings(store.list, invoke, room)| then -1 else |KvStrings(store.list, invoke, room)|
    ensures n != -1 ==>
      && argv[..at + n] == old(argv[..at]) + Strs(KvStrings(store.list, invoke, room))
      && (forall k :: at + n <= k < argv.Length ==> argv[k] == old(argv[k]))
  {
    hide KvAfter, KvLength, Join, Strs, Entries;
    StrsConcat([], []);
    if store.count == 0 || invoke.kp == None {
      return 0;
    }
    var limit := room;
    if room > store.count {
      limit := store.count;
    }
    if limit > ARGC_LIMIT {
      limit := ARGC_LIMIT;
    }
    if invoke.separator == 0 {
      n := KvGetEach(store.list, invoke.kp.value, invoke.ks, argv, at, limit, memory);
    } else {
      var r := JoinedString(store, invoke.kp.value, invoke.separator, invoke.ks, memory > 0);
      if r == None {
        return -1;
      }
      var buffer := r.value;
      var text := invoke.kp.value + Join(store.list, invoke.separator, invoke.ks);
      assert buffer[..buffer.Length - 2] == buffer[..buffer.Length - 1][..buffer.Length - 2] == text;
      StrsConcat([text], []);
      n := Push(argv, at, Str(buffer[..buffer.Length - 2]));
      n := 1;
    }
  }

  /** The branch of bcd_kv_get that gives every pair its own string. */
  method KvGetEach(list: seq<Pair>, prefix: Text, ks: byte, argv: array<Slot>, at: nat, limit: nat, memory: nat)
    returns (n: int)
    requires limit <= |list| && at + limit <= argv.Length
    modifies argv
    ensures n == if memory < limit then -1 else limit
    ensures n != -1 ==>
      && argv[..at + n] == old(argv[..at]) + Strs(Entries(list, prefix, ks, limit))
      && (forall k :: at + n <= k < argv.Length ==> argv[k] == old(argv[k]))
  {
    n := 0;
    while n < |list| && n != limit
      invariant 0 <= n <= limit && n <= memory
      invariant argv[..at + n] == old(argv[..at]) + Strs(Entries(list, prefix, ks, n))
      invariant forall k :: at + n <= k < argv.Length ==> argv[k] == old(argv[k])
    {
      if n == memory {
        return -1;
      }
      ghost var before := argv[..at + n];
      var slot := Str(prefix + list[n].0 + [ks] + list[n].1);
      assert prefix + list[n].0 + [ks] + list[n].1 == prefix + Entry(list[n], ks);
      assert Strs(Entries(list, prefix, ks, n + 1)) == Strs(Entries(list, prefix, ks, n)) + [slot];
      n := Push(argv, at + n, slot);
      n := n - at;
    }
  }

  // ---- Arguments ----

  /** How many arguments bcd_arg_get puts into an output that claims `room` slots. */
  function ArgsTaken(args: seq<Text>, room: nat): (n: nat)
    ensures n <= |args|
  {
    Min(Min(room, |args|), ARGC_LIMIT)
  }

  /** bcd_arg_get into `argv` from slot `at` on. */
  method ArgGet(store: ArgStore, argv: array<Slot>, at: nat, room: nat, memory: nat) returns (n: int)
    requires store.Valid() && at + ArgsTaken(store.list, room) <= argv.Length
    modifies argv
    ensures n == if memory < ArgsTaken(store.list, room) then -1 else ArgsTaken(store.list, room)
    ensures n != -1 ==>
      && argv[..at + n] == old(argv[..at]) + Strs(store.list[..n])
      && (forall k :: at + n <= k < argv.Length ==> argv[k] == old(argv[k]))
  {
    hide ArgsAfter, ArgLength;
    n := 0;
    if store.count == 0 {
      return;
    }
    var limit := room;
    if room > store.count {
      limit := store.count;
    }
    if limit > ARGC_LIMIT {
      limit := ARGC_LIMIT;
    }
    while n < |store.list| && n != limit
      invariant 0 <= n <= limit && n <= |store.list| && n <= memory
      invariant argv[..at + n] == old(argv[..at]) + Strs(store.list[..n])
      invariant forall k :: at + n <= k < argv.Length ==> argv[k] == old(argv[k])
    {
      if n == memory {
        return -1;
      }
      argv[at + n] := Str(store.list[n]);
      assert Strs(store.list[..n + 1]) == Strs(store.list[..n]) + [Str(store.list[n])];
      n := n + 1;
    }
  }

  // ---- The vector ----

  function Decimal(n: nat): Text
  {
    if n < 10 then [48 + n] else Decimal(n / 10) + [48 + n % 10]
  }

  /** The slots before the key-value options: path, at most 30 arguments, process, thread. */
  function Head(target: Target, invoke: Invoke, pid: Text, args: seq<Text>): seq<Text>
  {
    [invoke.path] + args[..ArgsTaken(args, ARGC_LIMIT - 2)] + [pid]
    + if target.Thread? && invoke.tp.Some? then [invoke.tp.value + Decimal(target.tid)] else []
  }

  /** The slots the code says are left for options once delta are used: a size_t, so that with all
      32 used it claims nearly 2^64. */
  function Room(delta: nat): nat
  {
    (ARGC_LIMIT - (delta + 1)) % SIZE_RANGE
  }

  /** Everything the code stores, slot by slot, were the vector long enough. */
  function Layout(target: Target, invoke: Invoke, pid: Text, args: seq<Text>, kvs: seq<Pair>): (slots: seq<Slot>)
    ensures |slots| > 0
  {
    var head := Head(target, invoke, pid, args);
    Strs(head + KvStrings(kvs, invoke, Room(|head|))) + [Null]
  }

  /** The caller-side condition for the vector to hold it all. */
  predicate Fits(target: Target, invoke: Invoke, args: seq<Text>, kvs: seq<Pair>)
  {
    var fixed := if target.Thread? && invoke.tp.Some? then 3 else 2;
    var joined := if kvs != [] && invoke.kp.Some? && invoke.separator != 0 then 1 else 0;
    Min(|args|, 30) + fixed + joined <= 31
  }

  /** Every store is inside the 32 slots exactly under that condition. */
  lemma FitsIsExact(target: Target, invoke: Invoke, pid: Text, args: seq<Text>, kvs: seq<Pair>)
    ensures |Layout(target, invoke, pid, args, kvs)| <= ARGC_LIMIT <==> Fits(target, invoke, args, kvs)
  {
    hide Join, Decimal;
  }

  /** With at most 27 arguments it fits in every mode and the vector is complete up to the
      key-value options: all arguments, in order, and as many options as slots remain. */
  lemma UpTo27(target: Target, invoke: Invoke, pid: Text, args: seq<Text>, kvs: seq<Pair>)
    requires |args| <= 27
    ensures Fits(target, invoke, args, kvs)
    ensures var thread := if target.Thread? && invoke.tp.Some? then [invoke.tp.value + Decimal(target.tid)] else [];
      var options := KvStrings(kvs, invoke, 29 - |args| - |thread|);
      Layout(target, invoke, pid, args, kvs)
        == [Str(invoke.path)] + Strs(args) + [Str(pid)] + Strs(thread) + Strs(options) + [Null]
  {
    hide Join, Decimal;
    var head := Head(target, invoke, pid, args);
    assert args[..|args|] == args;
    var thread := if target.Thread? && invoke.tp.Some? then [invoke.tp.value + Decimal(target.tid)] else [];
    assert Room(|head|) == 29 - |args| - |thread|;
    var options := KvStrings(kvs, invoke, Room(|head|));
    assert Strs(head + options)
        == [Str(invoke.path)] + Strs(args) + [Str(pid)] + Strs(thread) + Strs(options);
  }

  /** The thread option is there: one more slot and one more allocation. */
  function ThreadOptions(target: Target, invoke: Invoke): nat
  {
    if target.Thread? && invoke.tp.Some? then 1 else 0
  }

  /** The vector slot by slot: a first slot, the arguments, the process, perhaps the thread, the
      options, and NULL. */
  predicate IsVector(v: seq<Slot>, first: Slot, args: seq<Text>, pid: Text, thread: Option<Text>, options: seq<Text>)
  {
    var t := if thread.Some? then 1 else 0;
    && |v| == 3 + |args| + t + |options|
    && v[0] == first
    && (forall i :: 0 <= i < |args| ==> v[1 + i] == Str(args[i]))
    && v[1 + |args|] == Str(pid)
    && (thread.Some? ==> v[2 + |args|] == Str(thread.value))
    && (forall j :: 0 <= j < |options| ==> v[2 + |args| + t + j] == Str(options[j]))
    && v[|v| - 1] == Null
  }

  /** Whether it fits or not: at most thirty arguments, in order, and as many options as the code
      takes to be left, which is all of them, up to 32, once none is. */
  lemma EveryVector(target: Target, invoke: Invoke, pid: Text, args: seq<Text>, kvs: seq<Pair>)
    ensures var n, t := Min(|args|, 30), ThreadOptions(target, invoke);
      IsVector(Layout(target, invoke, pid, args, kvs), Str(invoke.path), args[..n], pid,
               if target.Thread? && invoke.tp.Some? then Some(invoke.tp.value + Decimal(target.tid)) else None,
               KvStrings(kvs, invoke, if n + t <= 29 then 29 - n - t else SIZE_RANGE + 29 - n - t))
  {
    hide Join, Decimal, KvStrings, Strs;
    var n, t := Min(|args|, 30), ThreadOptions(target, invoke);
    var thread := if target.Thread? && invoke.tp.Some? then Some(invoke.tp.value + Decimal(target.tid)) else None;
    var options := KvStrings(kvs, invoke, if n + t <= 29 then 29 - n - t else SIZE_RANGE + 29 - n - t);
    VectorParts(invoke.path, args[..n], pid, thread, options);
  }

  /** A vector that fits holds every argument, in order, and as many options as slots remain. */
  lemma FittingVector(target: Target, invoke: Invoke, pid: Text, args: seq<Text>, kvs: seq<Pair>)
    requires Fits(target, invoke, args, kvs)
    ensures |args| + ThreadOptions(target, invoke) <= 29
    ensures IsVector(Layout(target, invoke, pid, args, kvs), Str(invoke.path), args, pid,
                     if target.Thread? && invoke.tp.Some? then Some(invoke.tp.value + Decimal(target.tid)) else None,
                     KvStrings(kvs, invoke, 29 - |args| - ThreadOptions(target, invoke)))
  {
    hide Layout, Decimal, KvStrings, IsVector;
    EveryVector(target, invoke, pid, args, kvs);
    assert args[..|args|] == args;
  }

  lemma VectorParts(path: Text, args: seq<Text>, pid: Text, thread: Option<Text>, options: seq<Text>)
    ensures IsVector(Strs([path] + args + [pid] + (if thread.Some? then [thread.value] else []) + options) + [Null],
                     Str(path), args, pid, thread, options)
  {
    hide Strs;
    var t := if thread.Some? then [thread.value] else [];
    var head := [path] + args + [pid] + t;
    var slots := Strs(head + options);
    assert forall i :: 0 <= i < |head| ==> slots[i] == Str(head[i]);
    assert forall i :: 0 <= i < |args| ==> head[1 + i] == args[i];
    assert head[0] == path && head[1 + |args|] == pid && |head| == 2 + |args| + |t|;
    assert thread.Some? ==> head[2 + |args|] == thread.value;
    assert forall j :: 0 <= j < |options| ==> slots[|head| + j] == Str((head + options)[|head| + j]) == Str(options[j]);
  }

  /** Twenty-eight are one too many for a thread trace with joined key-value options. */
  lemma TwentyEightDoNotFit(invoke: Invoke, pid: Text, tid: nat, args: seq<Text>, kvs: seq<Pair>)
    requires |args| == 28 && kvs != [] && invoke.kp.Some? && invoke.separator != 0 && invoke.tp.Some?
    ensures |Layout(Thread(tid), invoke, pid, args, kvs)| == ARGC_LIMIT + 1
  {
    hide Join, Decimal;
  }

  /** What a packet asks to be traced, for a session that speaks for thread `tid`. */
  function TargetOf(op: uint32, tid: uint32): Option<Target>
  {
    if op == OP_TR_THREAD then Some(Thread(tid))
    else if op == OP_TR_PROCESS || op == OP_TR_FATAL then Some(Process)
    else None
  }

  /** If the packet asks for a trace, the vector built from the lists stays inside its 32 slots. */
  predicate TraceFits(invoke: Invoke, lists: Lists, op: uint32)
  {
    var target := TargetOf(op, 0);
    target.Some? ==> Fits(target.value, invoke, lists.args, lists.kvs)
  }

  /** What a trace meets: its process as text, whether the request handler admits it, whether the
      path could be copied, and how many checked allocations succeed. */
  datatype Surroundings = Surroundings(pid: Text, admitted: bool, pathCopied: bool, memory: nat)

  /** What a trace hands to the tracer: the vector, or nothing when the handler refuses or an
      allocation fails. */
  predicate Hands(handed: Option<seq<Slot>>, env: Surroundings, invoke: Invoke, args: seq<Text>, kvs: seq<Pair>,
                  first: Slot, thread: Option<Text>)
  {
    var t := if thread.Some? then 1 else 0;
    && |args| + t <= 29
    && var options := KvStrings(kvs, invoke, 29 - |args| - t);
      && (handed.Some? <==> env.admitted && |args| + t + |options| <= env.memory)
      && (handed.Some? ==> IsVector(handed.value, first, args, env.pid, thread, options))
  }

  /** The checked allocations behind a vector: every string of it but the path and the pid. */
  function Allocations(target: Target, invoke: Invoke, pid: Text, args: seq<Text>, kvs: seq<Pair>): nat
  {
    ArgsTaken(args, ARGC_LIMIT - 2) + ThreadOptions(target, invoke)
    + |KvStrings(kvs, invoke, Room(|Head(target, invoke, pid, args)|))|
  }

  lemma FittingAllocations(target: Target, invoke: Invoke, pid: Text, args: seq<Text>, kvs: seq<Pair>)
    requires Fits(target, invoke, args, kvs)
    ensures var t := ThreadOptions(target, invoke);
      Allocations(target, invoke, pid, args, kvs) == |args| + t + |KvStrings(kvs, invoke, 29 - |args| - t)|
  {
    hide KvStrings, Decimal;
  }

  /** bcd_backtrace_thread and bcd_backtrace_process up to their call of bcd_execve, which they
      reach unless the request handler refuses or a checked allocation fails. The vector is the
      first 32 slots of a stack of `size` slots; every slot stored is one of the layout's, so the
      stores stay inside the vector exactly when FitsIsExact says. The process form copies the
      path without looking at the result. */
  method BuildArgv(target: Target, invoke: Invoke, pid: Text, args: ArgStore, kvs: KvStore,
                   admitted: bool, pathCopied: bool, memory: nat, size: nat)
    returns (r: Option<array<Slot>>, end: nat)
    requires args.Valid() && kvs.Valid() && |Layout(target, invoke, pid, args.list, kvs.list)| <= size
    ensures r.Some? <==> admitted && Allocations(target, invoke, pid, args.list, kvs.list) <= memory
    ensures r.Some? ==> fresh(r.value) && r.value.Length == size
    ensures r.Some? ==> end == |Layout(target, invoke, pid, args.list, kvs.list)|
    ensures r.Some? ==>
      var layout := Layout(target, invoke, pid, args.list, kvs.list);
      && (if target.Thread? || pathCopied then layout else layout[0 := Null]) <= r.value[..]
      && forall k :: |layout| <= k < size ==> r.value[k] == Unset
  {
    hide Allocations, Layout, KvAfter, KvLength, ArgsAfter, ArgLength;
    r, end := None, 0;
    if !admitted {
      return;
    }
    var argv := new Slot[size](_ => Unset);
    var complete;
    complete, end := FillArgv(target, invoke, pid, args, kvs, argv, memory);
    if !complete {
      return;
    }
    if target.Process? && !pathCopied {
      ghost var whole := argv[..];
      argv[0] := Null;
      assert argv[..] == whole[0 := Null];
    }
    r := Some(argv);
  }

  method FillArgv(target: Target, invoke: Invoke, pid: Text, args: ArgStore, kvs: KvStore,
                  argv: array<Slot>, memory: nat)
    returns (complete: bool, end: nat)
    requires args.Valid() && kvs.Valid() && |Layout(target, invoke, pid, args.list, kvs.list)| <= argv.Length
    modifies argv
    ensures complete <==> Allocations(target, invoke, pid, args.list, kvs.list) <= memory
    ensures complete ==>
      var layout := Layout(target, invoke, pid, args.list, kvs.list);
      end == |layout| && layout <= argv[..] && (forall k :: |layout| <= k < argv.Length ==> argv[k] == old(argv[k]))
  {
    hide Join, Decimal, KvAfter, KvLength, ArgsAfter, ArgLength, Strs, KvStrings, Head;
    complete, end := false, 0;
    HeadLength(target, invoke, pid, args.list);
    var delta := BuildHead(target, invoke, pid, args, argv, memory);
    if delta == -1 {
      return;
    }
    StrsConcat(Head(target, invoke, pid, args.list), KvStrings(kvs.list, invoke, Room(delta)));
    var left := memory - ArgsTaken(args.list, ARGC_LIMIT - 2) - ThreadOptions(target, invoke);
    var n := KvGet(kvs, invoke, argv, delta, (ARGC_LIMIT - (delta + 1)) % SIZE_RANGE, left);
    if n == -1 {
      return;
    }
    end := Push(argv, n + delta, Null);
    complete := true;
  }

  /** The part before the key-value options, or -1 when an allocation fails. */
  method BuildHead(target: Target, invoke: Invoke, pid: Text, args: ArgStore, argv: array<Slot>, memory: nat)
    returns (delta: int)
    requires args.Valid() && |Head(target, invoke, pid, args.list)| <= argv.Length
    modifies argv
    ensures delta == if memory < ArgsTaken(args.list, ARGC_LIMIT - 2) + ThreadOptions(target, invoke) then -1
      else |Head(target, invoke, pid, args.list)|
    ensures delta != -1 ==>
      && argv[..delta] == Strs(Head(target, invoke, pid, args.list))
      && (forall k :: delta <= k < argv.Length ==> argv[k] == old(argv[k]))
  {
    hide Decimal, ArgsAfter, ArgLength, Strs, Head;
    StrsConcat([], []);
    HeadLength(target, invoke, pid, args.list);
    delta := PushText(argv, 0, invoke.path, []);
    assert [] + [invoke.path] == [invoke.path];
    var r := ArgGet(args, argv, delta, ARGC_LIMIT - 2, memory);
    if r == -1 {
      return -1;
    }
    StrsConcat([invoke.path], args.list[..r]);
    delta := PushText(argv, delta + r, pid, [invoke.path] + args.list[..r]);
    ghost var texts := [invoke.path] + args.list[..r] + [pid];
    if target.Thread? && invoke.tp.Some? {
      if memory == r {
        return -1;
      }
      delta := PushText(argv, delta, invoke.tp.value + Decimal(target.tid), texts);
    }
    HeadParts(target, invoke, pid, args.list, r, texts);
  }

  lemma HeadLength(target: Target, invoke: Invoke, pid: Text, args: seq<Text>)
    ensures |Head(target, invoke, pid, args)| == ArgsTaken(args, ARGC_LIMIT - 2) + 2 + ThreadOptions(target, invoke)
  {
    hide Decimal;
  }

  lemma HeadParts(target: Target, invoke: Invoke, pid: Text, args: seq<Text>, n: nat, texts: seq<Text>)
    requires n == ArgsTaken(args, ARGC_LIMIT - 2) && texts == [invoke.path] + args[..n] + [pid]
    ensures Head(target, invoke, pid, args)
      == if target.Thread? && invoke.tp.Some? then texts + [invoke.tp.value + Decimal(target.tid)] else texts
  {
    hide Decimal;
    assert texts + [] == texts;
  }

  method PushText(argv: array<Slot>, at: nat, text: Text, ghost texts: seq<Text>) returns (next: nat)
    requires at < argv.Length && argv[..at] == Strs(texts)
    modifies argv
    ensures next == at + 1 && argv[..next] == Strs(texts + [text])
    ensures forall k :: next <= k < argv.Length ==> argv[k] == old(argv[k])
  {
    StrsConcat(texts, [text]);
    next := Push(argv, at, Str(text));
  }

  method Push(argv: array<Slot>, at: nat, slot: Slot) returns (next: nat)
    requires at < argv.Length
    modifies argv
    ensures next == at + 1 && argv[..next] == old(argv[..at]) + [slot]
    ensures forall k :: next <= k < argv.Length ==> argv[k] == old(argv[k])
  {
    argv[at] := slot;
    next := at + 1;
  }

  lemma StrsConcat(a: seq<Text>, b: seq<Text>)
    ensures Strs(a + b) == Strs(a) + Strs(b)
    ensures |b| == 1 ==> Strs(b) == [Str(b[0])]
    ensures |a| == 1 ==> Strs(a) == [Str(a[0])]
  {
  }
}
