/** What the tracer can read back from its argument vector: the key-value pairs from either form of
    the options, and the thread from its decimal. */
module ArgvReadBack {
  import opened Bytes
  import opened Sequences
  import opened Stores
  import opened Argv

  // ---- Decimals ----

  /** The number a string of digits means. */
  function Value(digits: Text): int
  {
    if digits == [] then 0 else 10 * Value(digits[..|digits| - 1]) + (digits[|digits| - 1] - '0' as int)
  }

  /** The thread's number reads back, and is written without a leading zero. */
  lemma {:induction false} DecimalReads(n: nat)
    ensures Value(Decimal(n)) == n && Decimal(n) != []
    ensures forall d <- Decimal(n) :: '0' as int <= d <= '9' as int
    ensures n > 0 ==> Decimal(n)[0] != '0' as int
  {
    if n >= 10 {
      DecimalReads(n / 10);
      var d := Decimal(n);
      assert d[..|d| - 1] == Decimal(n / 10);
    } else {
      assert Decimal(n)[..0] == [];
    }
  }

  // ---- Options ----

  /** A text in two at the first b. */
  function Cut(text: Text, b: byte): (Text, Text)
    requires b in text
  {
    var i := Position(text, b);
    (text[..i], text[i + 1..])
  }

  /** A text in parts at every b. */
  function Parts(text: Text, b: byte): (parts: seq<Text>)
    decreases |text|
  {
    if b in text then [Cut(text, b).0] + Parts(Cut(text, b).1, b) else [text]
  }

  lemma CutReads(key: Text, b: byte, value: Text)
    requires b !in key
    ensures b in key + [b] + value && Cut(key + [b] + value, b) == (key, value)
  {
    var text := key + [b] + value;
    assert text[|key|] == b;
    forall j | 0 <= j < |key|
      ensures text[j] != b
    {
      assert text[j] == key[j];
    }
    assert text[..|key|] == key && text[|key| + 1..] == value;
  }

  lemma PartsOne(text: Text, b: byte)
    requires b !in text
    ensures Parts(text, b) == [text]
  {
  }

  lemma PartsCons(head: Text, b: byte, tail: Text)
    requires b !in head
    ensures Parts(head + [b] + tail, b) == [head] + Parts(tail, b)
  {
    hide Cut;
    CutReads(head, b, tail);
  }

  /** A text with b in it is its head, b and its tail. */
  lemma CutParts(text: Text, b: byte)
    requires b in text
    ensures var (head, tail) := Cut(text, b);
      b !in head && text == head + [b] + tail && |tail| < |text| && Parts(text, b) == [head] + Parts(tail, b)
  {
    NotBefore(text, b);
  }

  lemma {:induction false} PartsSnoc(front: Text, b: byte, last: Text)
    requires b !in last
    ensures Parts(front + [b] + last, b) == Parts(front, b) + [last]
    decreases |front|
  {
    hide Cut, Parts;
    if b in front {
      CutParts(front, b);
      var (head, tail) := Cut(front, b);
      assert front + [b] + last == head + [b] + (tail + [b] + last);
      PartsCons(head, b, tail + [b] + last);
      PartsSnoc(tail, b, last);
    } else {
      PartsOne(front, b);
      PartsOne(last, b);
      PartsCons(front, b, last);
    }
  }

  lemma NotBefore(text: Text, b: byte)
    requires b in text
    ensures b !in text[..Position(text, b)]
  {
  }

  /** One option string. */
  lemma EntryReads(p: Pair, ks: byte)
    ensures Entry(p, ks) == p.0 + [ks] + p.1
    ensures ks !in p.0 ==> ks in Entry(p, ks) && Cut(Entry(p, ks), ks) == p
  {
    if ks !in p.0 {
      CutReads(p.0, ks, p.1);
    }
  }

  predicate Free(p: Pair, s: byte)
  {
    s !in p.0 && s !in p.1
  }

  /** Joined options, when no key or value holds the separator. */
  lemma {:induction false} JoinReads(list: seq<Pair>, s: byte, ks: byte)
    requires list != [] && s != ks && forall p <- list :: Free(p, s)
    ensures |Parts(Join(list, s, ks), s)| == |list|
    ensures forall i :: 0 <= i < |list| ==> Parts(Join(list, s, ks), s)[i] == Entry(list[i], ks)
  {
    hide Parts, Entry;
    var n := |list| - 1;
    EntryFree(list[n], s, ks);
    if n == 0 {
      PartsOne(Entry(list[0], ks), s);
    } else {
      var front := list[..n];
      JoinReads(front, s, ks);
      PartsSnoc(Join(front, s, ks), s, Entry(list[n], ks));
    }
  }

  lemma EntryFree(p: Pair, s: byte, ks: byte)
    requires s != ks && Free(p, s)
    ensures s !in Entry(p, ks)
  {
  }

  /** The options a vector holds, read back without knowing how they were written. With one
      string a pair: as many as there is room for, each the prefix, the key, ks and the value,
      which is the pair again when ks is not in the key. With a separator: one string, the
      prefix and then, split at the separator and each part at its first ks, all pairs in
      order, when the separator is in no key or value and ks in no key. */
  lemma OptionsRead(list: seq<Pair>, invoke: Invoke, room: nat)
    ensures list == [] || invoke.kp == None ==> KvStrings(list, invoke, room) == []
    ensures list != [] && invoke.kp.Some? && invoke.separator == 0 ==>
      var texts, prefix := KvStrings(list, invoke, room), invoke.kp.value;
      && |texts| == Min(Min(room, |list|), ARGC_LIMIT)
      && forall i :: 0 <= i < |texts| ==>
           && texts[i] == prefix + list[i].0 + [invoke.ks] + list[i].1
           && (invoke.ks !in list[i].0 ==>
                invoke.ks in texts[i][|prefix|..] && Cut(texts[i][|prefix|..], invoke.ks) == list[i])
    ensures list != [] && invoke.kp.Some? && invoke.separator != 0 ==>
      var texts, prefix := KvStrings(list, invoke, room), invoke.kp.value;
      && |texts| == 1 && prefix <= texts[0]
      && (invoke.separator != invoke.ks && (forall p <- list :: Free(p, invoke.separator)) ==>
           var parts := Parts(texts[0][|prefix|..], invoke.separator);
           && |parts| == |list|
           && forall i :: 0 <= i < |list| ==>
                && parts[i] == list[i].0 + [invoke.ks] + list[i].1
                && (invoke.ks !in list[i].0 ==> invoke.ks in parts[i] && Cut(parts[i], invoke.ks) == list[i]))
  {
    hide Join, Cut, Parts, Entry;
    if list != [] && invoke.kp.Some? {
      var texts, prefix := KvStrings(list, invoke, room), invoke.kp.value;
      if invoke.separator == 0 {
        forall i | 0 <= i < |texts|
          ensures texts[i] == prefix + list[i].0 + [invoke.ks] + list[i].1
          ensures invoke.ks !in list[i].0 ==>
            invoke.ks in texts[i][|prefix|..] && Cut(texts[i][|prefix|..], invoke.ks) == list[i]
        {
          EntryReads(list[i], invoke.ks);
          assert texts[i][|prefix|..] == Entry(list[i], invoke.ks);
        }
      } else {
        assert texts[0][|prefix|..] == Join(list, invoke.separator, invoke.ks);
        if invoke.separator != invoke.ks && forall p <- list :: Free(p, invoke.separator) {
          JoinReads(list, invoke.separator, invoke.ks);
          forall i | 0 <= i < |list|
            ensures Entry(list[i], invoke.ks) == list[i].0 + [invoke.ks] + list[i].1
            ensures invoke.ks !in list[i].0 ==>
              invoke.ks in Entry(list[i], invoke.ks) && Cut(Entry(list[i], invoke.ks), invoke.ks) == list[i]
          {
            EntryReads(list[i], invoke.ks);
          }
        }
      }
    }
  }
}
