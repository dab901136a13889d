/** Bytes, little-endian integers and NUL-terminated strings: the vocabulary shared by
    the frame stream (src/bun_stream.c) and the monitor protocol (external/bcd). */
module Bytes {

  type byte = x: int | 0 <= x < 256

  const U32_RANGE := 0x1_0000_0000

  type uint16 = x: int | 0 <= x < 0x1_0000
  type uint32 = x: int | 0 <= x < 0x1_0000_0000
  type uint64 = x: int | 0 <= x < 0x1_0000_0000_0000_0000

  datatype Option<+T> = None | Some(value: T)

  /** The number of values that fit in n bytes. */
  function Range(n: nat): (r: nat)
    ensures r > 0
  {
    if n == 0 then 1 else 256 * Range(n - 1)
  }

  lemma RangeValues()
    ensures Range(2) == 0x1_0000
    ensures Range(4) == 0x1_0000_0000
    ensures Range(8) == 0x1_0000_0000_0000_0000
  {
    assert Range(1) == 256 && Range(2) == 256 * Range(1);
    assert Range(3) == 256 * Range(2) && Range(4) == 256 * Range(3);
    assert Range(5) == 256 * Range(4) && Range(6) == 256 * Range(5);
    assert Range(7) == 256 * Range(6) && Range(8) == 256 * Range(7);
  }

  /** The n low-order bytes of v, least significant first. */
  function Le(v: nat, n: nat): (b: seq<byte>)
    ensures |b| == n
  {
    if n == 0 then [] else [v % 256] + Le(v / 256, n - 1)
  }

  function LeValue(b: seq<byte>): nat
  {
    if b == [] then 0 else b[0] + 256 * LeValue(b[1..])
  }

  /** Storing v in n bytes keeps it modulo the range of those bytes. */
  lemma {:induction false} LeStores(v: nat, n: nat)
    ensures LeValue(Le(v, n)) == v % Range(n)
  {
    if n > 0 {
      LeStores(v / 256, n - 1);
      assert Le(v, n)[1..] == Le(v / 256, n - 1);
      DigitSplit(v, Range(n - 1));
    }
  }

  /** Byte i of a stored number is its i-th digit to base 256, the least significant first. */
  lemma {:induction false} LeBytes(v: nat, n: nat, i: nat)
    requires i < n
    ensures Le(v, n)[i] == v / Range(i) % 256
  {
    if i > 0 {
      LeBytes(v / 256, n - 1, i - 1);
      DivideTwice(v, Range(i - 1));
    }
  }

  lemma DivideTwice(v: nat, p: nat)
    requires p > 0
    ensures v / 256 / p == v / (256 * p)
  {
    var a := v / 256;
    var q, r := a / p, a % p;
    assert v == 256 * a + v % 256 && a == p * q + r;
    var rest := 256 * r + v % 256;
    assert v == (256 * p) * q + rest by {
      assert 256 * (p * q) == (256 * p) * q;
    }
    assert 0 <= rest < 256 * p by {
      assert 256 * r <= 256 * (p - 1);
    }
    ModUnique(v, 256 * p, q, rest);
  }

  lemma LeFits(v: nat, n: nat)
    requires v < Range(n)
    ensures LeValue(Le(v, n)) == v
  {
    LeStores(v, n);
    ModUnique(v, Range(n), 0, v);
  }

  lemma DigitSplit(v: nat, p: nat)
    requires p > 0
    ensures v % (256 * p) == v % 256 + 256 * ((v / 256) % p)
  {
    var q, r := (v / 256) / p, (v / 256) % p;
    assert v / 256 == q * p + r;
    assert v == 256 * (q * p + r) + v % 256;
    assert v == q * (256 * p) + (256 * r + v % 256);
    var low := 256 * r + v % 256;
    assert 0 <= low < 256 * p;
    ModUnique(v, 256 * p, q, low);
  }

  lemma ModUnique(v: nat, m: nat, q: nat, r: nat)
    requires m > 0 && v == q * m + r && r < m
    ensures v % m == r && v / m == q
  {
    var d := v / m - q;
    assert v == (v / m) * m + v % m;
    assert d * m == r - v % m;
    assert d > 0 ==> d * m >= m;
    assert d < 0 ==> d * m <= -1 * m;
  }

  /** Every byte string is the little-endian image of its own value. */
  lemma {:induction false} LeCanonical(b: seq<byte>)
    ensures LeValue(b) < Range(|b|)
    ensures Le(LeValue(b), |b|) == b
  {
    if b != [] {
      LeCanonical(b[1..]);
      assert LeValue(b) / 256 == LeValue(b[1..]);
      assert b == [b[0]] + b[1..];
    }
  }

  predicate NulFree(s: seq<byte>)
  {
    forall i :: 0 <= i < |s| ==> s[i] != 0
  }

  /** Where the first NUL stands, or the length when there is none (strnlen, memchr). */
  function FirstNul(b: seq<byte>): (n: nat)
    ensures n <= |b| && NulFree(b[..n])
    ensures n < |b| ==> b[n] == 0
  {
    if b == [] || b[0] == 0 then 0
    else
      assert forall i :: 0 < i < |b| ==> b[i] == b[1..][i - 1];
      1 + FirstNul(b[1..])
  }

  /** The position is determined by the string that ends there. */
  lemma FirstNulAt(b: seq<byte>, n: nat)
    requires n <= |b| && NulFree(b[..n])
    requires n < |b| ==> b[n] == 0
    ensures FirstNul(b) == n
  {
    var m := FirstNul(b);
    assert forall i :: 0 <= i < n ==> b[i] == b[..n][i];
    assert forall i :: 0 <= i < m ==> b[i] == b[..m][i];
  }

  /** Where the string starting at a position ends, if it does end within b. */
  function StringEnd(b: seq<byte>, at: nat): (r: Option<nat>)
    requires at <= |b|
    ensures r.Some? ==> at <= r.value < |b| && NulFree(b[at..r.value]) && b[r.value] == 0
  {
    var n := FirstNul(b[at..]);
    if at + n == |b| then None
    else
      assert b[at..][..n] == b[at..at + n];
      Some(at + n)
  }

  lemma StringEndAt(b: seq<byte>, at: nat, end: nat)
    requires at <= end < |b| && NulFree(b[at..end]) && b[end] == 0
    ensures StringEnd(b, at) == Some(end)
  {
    assert b[at..][..end - at] == b[at..end];
    FirstNulAt(b[at..], end - at);
  }

  /** The little-endian number in n bytes at a position. */
  function NumberAt(b: seq<byte>, at: nat, n: nat): (v: nat)
    requires at + n <= |b|
    ensures v < Range(n)
  {
    LeCanonical(b[at..at + n]);
    LeValue(b[at..at + n])
  }

  function U16At(b: seq<byte>, at: nat): uint16
    requires at + 2 <= |b|
  {
    RangeValues();
    NumberAt(b, at, 2)
  }

  function U32At(b: seq<byte>, at: nat): uint32
    requires at + 4 <= |b|
  {
    RangeValues();
    NumberAt(b, at, 4)
  }

  function U64At(b: seq<byte>, at: nat): uint64
    requires at + 8 <= |b|
  {
    RangeValues();
    NumberAt(b, at, 8)
  }

  lemma NumberShift(b: seq<byte>, from: nat, at: nat, n: nat)
    requires from + at + n <= |b|
    ensures NumberAt(b[from..], at, n) == NumberAt(b, from + at, n)
  {
    assert b[from..][at..at + n] == b[from + at..from + at + n];
  }

  lemma U16Shift(b: seq<byte>, from: nat, at: nat)
    requires from + at + 2 <= |b|
    ensures U16At(b[from..], at) == U16At(b, from + at)
  {
    NumberShift(b, from, at, 2);
  }

  lemma U64Shift(b: seq<byte>, from: nat, at: nat)
    requires from + at + 8 <= |b|
    ensures U64At(b[from..], at) == U64At(b, from + at)
  {
    NumberShift(b, from, at, 8);
  }

  lemma U16Stored(b: seq<byte>, at: nat, v: uint16)
    requires at + 2 <= |b|
    ensures b[at..at + 2] == Le(v, 2) <==> U16At(b, at) == v
  {
    RangeValues();
    LeFits(v, 2);
    LeCanonical(b[at..at + 2]);
  }

  lemma U32Stored(b: seq<byte>, at: nat, v: uint32)
    requires at + 4 <= |b|
    ensures b[at..at + 4] == Le(v, 4) <==> U32At(b, at) == v
  {
    RangeValues();
    LeFits(v, 4);
    LeCanonical(b[at..at + 4]);
  }

  lemma U64Stored(b: seq<byte>, at: nat, v: uint64)
    requires at + 8 <= |b|
    ensures b[at..at + 8] == Le(v, 8) <==> U64At(b, at) == v
  {
    RangeValues();
    LeFits(v, 8);
    LeCanonical(b[at..at + 8]);
  }

  /** s with the bytes from position i on replaced by b. */
  function Splice(s: seq<byte>, i: nat, b: seq<byte>): (r: seq<byte>)
    requires i + |b| <= |s|
    ensures |r| == |s|
  {
    s[..i] + b + s[i + |b|..]
  }

  lemma SpliceSplice(s: seq<byte>, i: nat, a: seq<byte>, b: seq<byte>)
    requires i + |a| + |b| <= |s|
    ensures Splice(Splice(s, i, a), i + |a|, b) == Splice(s, i, a + b)
  {
  }

  /** memcpy into an array. */
  method Store(a: array<byte>, at: nat, b: seq<byte>)
    requires at + |b| <= a.Length
    modifies a
    ensures a[..] == Splice(old(a[..]), at, b)
  {
    for i := 0 to |b|
      invariant a[..at] == old(a[..at])
      invariant a[at..at + i] == b[..i]
      invariant a[at + i..] == old(a[at + i..])
    {
      a[at + i] := b[i];
    }
  }
}
