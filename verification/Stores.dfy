/** The monitor's two shared stores (external/bcd/bcd-amalgamated.c): the key-value list and
    the argument list, as the source's globals updated in place, with what any history of
    updates leaves in them. */
module Stores {
  import opened Bytes
  import opened Packets
  import opened Sequences

  type Text = seq<byte>
  type Pair = (Text, Text)

  // ---- What the lists are, given their history ----

  /** The pairs with any other key. */
  function Without(list: seq<Pair>, key: Text): seq<Pair>
  {
    if list == [] then []
    else (if list[0].0 == key then [] else [list[0]]) + Without(list[1..], key)
  }

  function KvPut(list: seq<Pair>, p: Pair): seq<Pair>
  {
    [p] + Without(list, p.0)
  }

  /** The key-value list after a history of accepted pairs. */
  function KvAfter(history: seq<Pair>): seq<Pair>
  {
    if history == [] then [] else KvPut(KvAfter(history[..|history| - 1]), history[|history| - 1])
  }

  /** Nothing later in the history has the same key. */
  predicate Current(history: seq<Pair>, i: nat)
    requires i < |history|
  {
    forall j :: i < j < |history| ==> history[j].0 != history[i].0
  }

  /** The current pairs among the first n, latest first. */
  function Latest(history: seq<Pair>, n: nat): seq<Pair>
    requires n <= |history|
  {
    if n == 0 then []
    else (if Current(history, n - 1) then [history[n - 1]] else []) + Latest(history, n - 1)
  }

  /** The list holds exactly the pairs not overwritten since, most recently set first. */
  lemma {:induction false} KvAfterIsLatest(history: seq<Pair>)
    ensures KvAfter(history) == Latest(history, |history|)
  {
    if history != [] {
      var n := |history| - 1;
      KvAfterIsLatest(history[..n]);
      LatestSnoc(history, n);
      assert Current(history, n);
    }
  }

  lemma CurrentSnoc(history: seq<Pair>, i: nat)
    requires i < |history| - 1
    ensures var front, last := history[..|history| - 1], history[|history| - 1];
      Current(history, i) <==> Current(front, i) && front[i].0 != last.0
  {
    var front, last := history[..|history| - 1], history[|history| - 1];
    assert forall j :: i < j < |front| ==> front[j] == history[j];
    if Current(front, i) && front[i].0 != last.0 {
      forall j | i < j < |history|
        ensures history[j].0 != history[i].0
      {
        assert j < |front| ==> front[j].0 != front[i].0;
      }
    }
  }

  lemma {:induction false} LatestSnoc(history: seq<Pair>, n: nat)
    requires history != [] && n < |history|
    ensures var front, last := history[..|history| - 1], history[|history| - 1];
      Latest(history, n) == Without(Latest(front, n), last.0)
  {
    hide Current, Without;
    var front, last := history[..|history| - 1], history[|history| - 1];
    if n == 0 {
      WithoutNone([], last.0);
    } else {
      var i := n - 1;
      LatestSnoc(history, i);
      CurrentSnoc(history, i);
      WithoutConcat(if Current(front, i) then [front[i]] else [], Latest(front, i), last.0);
      WithoutOne(front[i], last.0);
      WithoutNone([], last.0);
    }
  }

  lemma WithoutOne(p: Pair, key: Text)
    ensures Without([p], key) == if p.0 == key then [] else [p]
  {
  }

  lemma {:induction false} WithoutNone(list: seq<Pair>, key: Text)
    requires NoKey(list, key)
    ensures Without(list, key) == list
  {
    if list != [] {
      WithoutNone(list[1..], key);
    }
  }

  lemma {:induction false} WithoutConcat(a: seq<Pair>, b: seq<Pair>, key: Text)
    ensures Without(a + b, key) == Without(a, key) + Without(b, key)
  {
    if a == [] {
      assert a + b == b;
    } else {
      assert (a + b)[1..] == a[1..] + b;
      WithoutConcat(a[1..], b, key);
    }
  }

  predicate NoKey(list: seq<Pair>, key: Text)
  {
    forall i :: 0 <= i < |list| ==> list[i].0 != key
  }

  predicate DistinctKeys(list: seq<Pair>)
  {
    forall i, j :: 0 <= i < j < |list| ==> list[i].0 != list[j].0
  }

  lemma {:induction false} WithoutKeeps(list: seq<Pair>, key: Text)
    ensures forall p :: p in Without(list, key) <==> p in list && p.0 != key
  {
    if list != [] {
      var rest := list[1..];
      WithoutKeeps(rest, key);
      assert forall p :: p in list <==> p == list[0] || p in rest;
    }
  }

  lemma {:induction false} WithoutDistinct(list: seq<Pair>, key: Text)
    requires DistinctKeys(list)
    ensures DistinctKeys(Without(list, key))
  {
    if list != [] {
      var rest := list[1..];
      WithoutDistinct(rest, key);
      WithoutKeeps(rest, key);
      var w := Without(rest, key);
      forall i | 0 <= i < |w|
        ensures w[i].0 != list[0].0
      {
        assert w[i] in w && w[i] in rest;
      }
    }
  }

  lemma KeyElsewhere(list: seq<Pair>, i: nat)
    requires DistinctKeys(list) && i < |list|
    ensures NoKey(list[..i], list[i].0) && NoKey(list[i + 1..], list[i].0)
  {
    var back := list[i + 1..];
    forall j | 0 <= j < |back|
      ensures back[j].0 != list[i].0
    {
      assert back[j] == list[i + 1 + j];
    }
  }

  /** Taking out the one entry with the key is taking out all of them. */
  lemma RemoveOne(list: seq<Pair>, i: nat)
    requires DistinctKeys(list) && i < |list|
    ensures list[..i] + list[i + 1..] == Without(list, list[i].0)
  {
    hide Without, DistinctKeys, NoKey;
    var key, front, back := list[i].0, list[..i], list[i + 1..];
    KeyElsewhere(list, i);
    WithoutNone(front, key);
    WithoutNone(back, key);
    WithoutOne(list[i], key);
    WithoutConcat([list[i]], back, key);
    WithoutConcat(front, [list[i]] + back, key);
    assert list == front + ([list[i]] + back);
    assert front + ([] + back) == front + back;
  }

  /** Keys stay distinct, and looking a key up gives the value it was set to last. */
  lemma {:induction false} KvAfterLooksUp(history: seq<Pair>)
    ensures DistinctKeys(KvAfter(history))
    ensures forall i :: 0 <= i < |history| && Current(history, i) ==> history[i] in KvAfter(history)
    ensures forall p :: p in KvAfter(history) ==>
      exists i :: 0 <= i < |history| && Current(history, i) && history[i] == p
  {
    KvAfterDistinct(history);
    KvAfterIsLatest(history);
    LatestMembers(history, |history|);
  }

  lemma {:induction false} KvAfterDistinct(history: seq<Pair>)
    ensures DistinctKeys(KvAfter(history))
  {
    if history != [] {
      var n := |history| - 1;
      KvAfterDistinct(history[..n]);
      var before := KvAfter(history[..n]);
      WithoutKeeps(before, history[n].0);
      WithoutDistinct(before, history[n].0);
      var w := Without(before, history[n].0);
      assert forall i :: 0 <= i < |w| ==> w[i] in w && w[i].0 != history[n].0;
    }
  }

  lemma {:induction false} LatestMembers(history: seq<Pair>, n: nat)
    requires n <= |history|
    ensures forall i :: 0 <= i < n && Current(history, i) ==> history[i] in Latest(history, n)
    ensures forall p :: p in Latest(history, n) ==> exists i :: 0 <= i < n && Current(history, i) && history[i] == p
  {
    if n > 0 {
      LatestMembers(history, n - 1);
    }
  }

  /** bcd_kv_length of a list: keys, values and one separator each. */
  function KvLength(list: seq<Pair>): nat
  {
    if list == [] then 0 else |list[0].0| + |list[0].1| + 1 + KvLength(list[1..])
  }

  lemma {:induction false} KvLengthConcat(a: seq<Pair>, b: seq<Pair>)
    ensures KvLength(a + b) == KvLength(a) + KvLength(b)
  {
    if a == [] {
      assert a + b == b;
    } else {
      assert (a + b)[1..] == a[1..] + b;
      KvLengthConcat(a[1..], b);
    }
  }

  lemma KvLengthRemove(list: seq<Pair>, i: nat)
    requires i < |list|
    ensures KvLength(list) == KvLength(list[..i] + list[i + 1..]) + |list[i].0| + |list[i].1| + 1
  {
    assert list == list[..i] + ([list[i]] + list[i + 1..]);
    KvLengthConcat(list[..i], [list[i]] + list[i + 1..]);
    KvLengthConcat([list[i]], list[i + 1..]);
    KvLengthConcat(list[..i], list[i + 1..]);
  }

  /** What one KV packet does to the list, over the bytes received. */
  function KvApply(list: seq<Pair>, payload: seq<byte>): seq<Pair>
  {
    match KvIn(payload)
    case None => list
    case Some(p) => KvPut(list, p)
  }

  /** bcd_kv_list with its two counters; `history` records the accepted pairs. */
  class KvStore {
    var list: seq<Pair>
    var count: nat
    var length: nat
    ghost var history: seq<Pair>

    ghost predicate Valid()
      reads this
    {
      list == KvAfter(history) && count == |list| && length == KvLength(list)
    }

    constructor ()
      ensures Valid() && history == []
    {
      list, count, length, history := [], 0, 0, [];
    }

    /** The checks of bcd_kv_set on a session's packet buffer, of which the first `n` payload
        bytes belong to this packet. */
    static method Scan(payload: seq<byte>, n: nat) returns (r: Option<Pair>)
      requires n <= PACKET_LIMIT == |payload|
      ensures r == KvIn(payload[..n])
    {
      var packet := payload[..n];
      assert packet[0..] == packet;
      if payload[0] == 0 {
        assert n > 0 ==> packet[0] == 0;
        return None;
      }
      var keyLength := FirstNul(packet);
      if keyLength == n {
        return None;
      }
      var value := keyLength + 1;
      var valueLength := FirstNul(packet[value..]);
      if valueLength == n - value {
        return None;
      }
      r := Some((packet[..keyLength], packet[value..value + valueLength]));
    }

    /** The list surgery of bcd_kv_set: drop the previous pair with this key, insert in front. */
    method Insert(key: Text, value: Text)
      requires Valid()
      modifies this
      ensures Valid()
      ensures list == KvPut(old(list), (key, value)) && history == old(history) + [(key, value)]
    {
      hide Without, KvLength, KvAfter;
      KvAfterDistinct(history);
      Removal(list, key);
      var i := 0;
      while i < |list|
        invariant 0 <= i <= |list|
        invariant forall j :: 0 <= j < i ==> list[j].0 != key
        invariant list == old(list) && count == old(count) && length == old(length) && history == old(history)
      {
        if list[i].0 == key {
          RemoveOne(list, i);
          KvLengthRemove(list, i);
          length := length - (|list[i].0| + |list[i].1| + 1);
          list := list[..i] + list[i + 1..];
          count := count - 1;
          break;
        }
        i := i + 1;
      }
      assert list == Without(old(list), key);
      KvLengthConcat([(key, value)], list);
      KvLengthOne((key, value));
      list := [(key, value)] + list;
      count := count + 1;
      length := length + |key| + |value| + 1;
      KvAfterSnoc(history, (key, value));
      history := history + [(key, value)];
    }

    /** bcd_kv_set; `memory` says whether malloc succeeds. */
    method Set(payload: seq<byte>, n: nat, memory: bool) returns (ret: int)
      requires Valid() && n <= PACKET_LIMIT == |payload|
      modifies this
      ensures Valid()
      ensures ret == 0 <==> KvIn(payload[..n]).Some? && memory
      ensures ret != 0 ==>
        ret == -1 && list == old(list) && count == old(count) && length == old(length) && history == old(history)
      ensures ret == 0 ==>
        list == KvApply(old(list), payload[..n]) && history == old(history) + [KvIn(payload[..n]).value]
    {
      var r := Scan(payload, n);
      if r == None || !memory {
        return -1;
      }
      Insert(r.value.0, r.value.1);
      return 0;
    }
  }

  lemma KvAfterSnoc(history: seq<Pair>, p: Pair)
    ensures KvAfter(history + [p]) == KvPut(KvAfter(history), p)
  {
    assert (history + [p])[..|history|] == history;
  }

  lemma Removal(list: seq<Pair>, key: Text)
    ensures NoKey(list, key) ==> Without(list, key) == list
  {
    if NoKey(list, key) {
      WithoutNone(list, key);
    }
  }

  lemma KvLengthOne(p: Pair)
    ensures KvLength([p]) == |p.0| + |p.1| + 1
  {
  }

  // ---- Arguments ----

  /** The arguments that differ from one text. */
  function Except(list: seq<Text>, text: Text): seq<Text>
  {
    if list == [] then []
    else (if list[0] == text then [] else [list[0]]) + Except(list[1..], text)
  }

  function ArgPut(list: seq<Text>, text: Text): seq<Text>
  {
    Except(list, text) + [text]
  }

  function ArgsAfter(history: seq<Text>): seq<Text>
  {
    if history == [] then [] else ArgPut(ArgsAfter(history[..|history| - 1]), history[|history| - 1])
  }

  predicate LastTime(history: seq<Text>, i: nat)
    requires i < |history|
  {
    forall j :: i < j < |history| ==> history[j] != history[i]
  }

  /** The last occurrences among the first n, in order. */
  function LastOccurrences(history: seq<Text>, n: nat): seq<Text>
    requires n <= |history|
  {
    if n == 0 then []
    else LastOccurrences(history, n - 1) + if LastTime(history, n - 1) then [history[n - 1]] else []
  }

  /** The list holds each text once, in the order of last setting. */
  lemma {:induction false} ArgsAfterInOrder(history: seq<Text>)
    ensures ArgsAfter(history) == LastOccurrences(history, |history|)
  {
    if history != [] {
      var n := |history| - 1;
      ArgsAfterInOrder(history[..n]);
      LastOccurrencesSnoc(history, n);
      assert LastTime(history, n);
    }
  }

  lemma LastTimeSnoc(history: seq<Text>, i: nat)
    requires i < |history| - 1
    ensures var front, last := history[..|history| - 1], history[|history| - 1];
      LastTime(history, i) <==> LastTime(front, i) && front[i] != last
  {
    var front, last := history[..|history| - 1], history[|history| - 1];
    assert forall j :: i < j < |front| ==> front[j] == history[j];
    if LastTime(front, i) && front[i] != last {
      forall j | i < j < |history|
        ensures history[j] != history[i]
      {
        assert j < |front| ==> front[j] != front[i];
      }
    }
  }

  lemma {:induction false} LastOccurrencesSnoc(history: seq<Text>, n: nat)
    requires history != [] && n < |history|
    ensures LastOccurrences(history, n) == Except(LastOccurrences(history[..|history| - 1], n), history[|history| - 1])
  {
    hide LastTime, Except;
    var front, last := history[..|history| - 1], history[|history| - 1];
    if n == 0 {
      ExceptNone([], last);
    } else {
      var i := n - 1;
      LastOccurrencesSnoc(history, i);
      LastTimeSnoc(history, i);
      ExceptConcat(LastOccurrences(front, i), if LastTime(front, i) then [front[i]] else [], last);
      ExceptOne(front[i], last);
      ExceptNone([], last);
    }
  }

  lemma ExceptOne(t: Text, text: Text)
    ensures Except([t], text) == if t == text then [] else [t]
  {
  }

  lemma {:induction false} ExceptNone(list: seq<Text>, text: Text)
    requires text !in list
    ensures Except(list, text) == list
  {
    if list != [] {
      ExceptNone(list[1..], text);
    }
  }

  lemma {:induction false} ExceptConcat(a: seq<Text>, b: seq<Text>, text: Text)
    ensures Except(a + b, text) == Except(a, text) + Except(b, text)
  {
    if a == [] {
      assert a + b == b;
    } else {
      assert (a + b)[1..] == a[1..] + b;
      ExceptConcat(a[1..], b, text);
    }
  }

  lemma {:induction false} ExceptKeeps(list: seq<Text>, text: Text)
    ensures forall t :: t in Except(list, text) <==> t in list && t != text
  {
    if list != [] {
      var rest := list[1..];
      ExceptKeeps(rest, text);
      assert forall t :: t in list <==> t == list[0] || t in rest;
    }
  }

  lemma {:induction false} ExceptDistinct(list: seq<Text>, text: Text)
    requires Distinct(list)
    ensures Distinct(Except(list, text))
  {
    if list != [] {
      var rest := list[1..];
      ExceptDistinct(rest, text);
      ExceptKeeps(rest, text);
      var w := Except(rest, text);
      forall i | 0 <= i < |w|
        ensures w[i] != list[0]
      {
        assert w[i] in w && w[i] in rest;
      }
    }
  }

  lemma {:induction false} ArgsAfterDistinct(history: seq<Text>)
    ensures Distinct(ArgsAfter(history))
  {
    if history != [] {
      var n := |history| - 1;
      ArgsAfterDistinct(history[..n]);
      var before := ArgsAfter(history[..n]);
      ExceptKeeps(before, history[n]);
      ExceptDistinct(before, history[n]);
      var w := Except(before, history[n]);
      forall i | 0 <= i < |w|
        ensures w[i] != history[n]
      {
        assert w[i] in w;
      }
    }
  }

  lemma ArgElsewhere(list: seq<Text>, i: nat)
    requires Distinct(list) && i < |list|
    ensures list[i] !in list[..i] && list[i] !in list[i + 1..]
  {
  }

  lemma RemoveOneArg(list: seq<Text>, i: nat)
    requires Distinct(list) && i < |list|
    ensures list[..i] + list[i + 1..] == Except(list, list[i])
  {
    hide Except, Distinct;
    var text, front, back := list[i], list[..i], list[i + 1..];
    ArgElsewhere(list, i);
    ExceptNone(front, text);
    ExceptNone(back, text);
    ExceptOne(list[i], text);
    ExceptConcat([list[i]], back, text);
    ExceptConcat(front, [list[i]] + back, text);
    assert list == front + ([list[i]] + back);
    assert front + ([] + back) == front + back;
  }

  /** bcd_arg_length of a list: texts with their NULs. */
  function ArgLength(list: seq<Text>): nat
  {
    if list == [] then 0 else |list[0]| + 1 + ArgLength(list[1..])
  }

  lemma {:induction false} ArgLengthConcat(a: seq<Text>, b: seq<Text>)
    ensures ArgLength(a + b) == ArgLength(a) + ArgLength(b)
  {
    if a == [] {
      assert a + b == b;
    } else {
      assert (a + b)[1..] == a[1..] + b;
      ArgLengthConcat(a[1..], b);
    }
  }

  lemma ArgLengthOne(t: Text)
    ensures ArgLength([t]) == |t| + 1
  {
  }

  lemma ArgLengthRemove(list: seq<Text>, i: nat)
    requires i < |list|
    ensures ArgLength(list) == ArgLength(list[..i] + list[i + 1..]) + |list[i]| + 1
  {
    assert list == list[..i] + ([list[i]] + list[i + 1..]);
    ArgLengthConcat(list[..i], [list[i]] + list[i + 1..]);
    ArgLengthConcat([list[i]], list[i + 1..]);
    ArgLengthConcat(list[..i], list[i + 1..]);
    ArgLengthOne(list[i]);
  }

  function ArgApply(list: seq<Text>, payload: seq<byte>): seq<Text>
  {
    match ArgIn(payload)
    case None => list
    case Some(t) => ArgPut(list, t)
  }

  /** bcd_arg_list with its two counters. */
  class ArgStore {
    var list: seq<Text>
    var count: nat
    var length: nat
    ghost var history: seq<Text>

    ghost predicate Valid()
      reads this
    {
      list == ArgsAfter(history) && count == |list| && length == ArgLength(list)
    }

    constructor ()
      ensures Valid() && history == []
    {
      list, count, length, history := [], 0, 0, [];
    }

    /** bcd_arg_set: the packet's length is not consulted, only the first NUL. */
    method Set(payload: seq<byte>, memory: bool) returns (ret: int)
      requires Valid() && 0 in payload
      modifies this
      ensures Valid()
      ensures ret == 0 <==> ArgIn(payload).Some? && memory
      ensures ret != 0 ==>
        ret == -1 && list == old(list) && count == old(count) && length == old(length) && history == old(history)
      ensures ret == 0 ==> list == ArgApply(old(list), payload) && history == old(history) + [ArgIn(payload).value]
    {
      hide Except, ArgLength;
      var n := FirstNul(payload);
      if n == 0 {
        return -1;
      }
      if !memory {
        return -1;
      }
      var text := payload[..n];
      ArgsAfterDistinct(history);
      if count > 0 {
        var i := 0;
        while i < |list|
          invariant 0 <= i <= |list|
          invariant forall j :: 0 <= j < i ==> list[j] != text
          invariant list == old(list) && count == old(count) && length == old(length) && history == old(history)
        {
          if list[i] == text {
            RemoveOneArg(list, i);
            ArgLengthRemove(list, i);
            length := length - (|list[i]| + 1);
            list := list[..i] + list[i + 1..];
            count := count - 1;
            break;
          }
          i := i + 1;
        }
      }
      if list == old(list) {
        ExceptNone(list, text);
      }
      assert list == Except(old(list), text);
      ArgLengthConcat(list, [text]);
      ArgLengthOne(text);
      list := list + [text];
      count := count + 1;
      length := length + n + 1;
      assert (old(history) + [text])[..|old(history)|] == old(history);
      history := history + [text];
      return 0;
    }
  }

  // ---- Both stores ----

  datatype Lists = Lists(kvs: seq<Pair>, args: seq<Text>)

  /** What performing one packet does to the stores (bcd_perform_request, memory permitting). */
  function Perform(lists: Lists, p: Packet): Lists
  {
    if p.op == OP_KV then lists.(kvs := KvApply(lists.kvs, p.payload))
    else if p.op == OP_ARG then lists.(args := ArgApply(lists.args, p.payload))
    else lists
  }

  /** A packet as the client calls build it means the request it was built from; an empty key
      or argument is refused without effect. */
  lemma PerformRequest(lists: Lists, r: Request)
    requires r.Sendable()
    ensures Perform(lists, PacketOf(r)) ==
      match r
      case Kv(k, v) => if k == [] then lists else lists.(kvs := KvPut(lists.kvs, (k, v)))
      case Arg(a) => if a == [] then lists else lists.(args := ArgPut(lists.args, a))
      case _ => lists
  {
    match r
    case Kv(k, v) => KvRoundTrip(k, v);
    case Arg(a) => ArgRoundTrip(a);
    case _ =>
  }
}
