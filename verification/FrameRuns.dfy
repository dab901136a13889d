/** What whole runs of the frame stream deliver: which written frames come back, what a
    cut payload still yields, and that reading ends for good. */
module FrameRuns {
  import opened Bytes
  import opened FrameFormat
  import opened FrameStream

  // ---- Reading arbitrary bytes ----

  /** A successful read consumes exactly the frame's own encoding; a failed one stays put and
      every later read fails in the same place. None succeeds after an overflow, at the end of
      the payload, or past what the header accounts for. */
  lemma ReadOnce(p: seq<byte>, c: Cursor)
    requires HEADER_SIZE <= c.pos <= |p|
    ensures c.overflow || c.pos == |p| || U32At(p, SIZE_FIELD) <= c.pos ==> ReadSpec(p, c) == (None, c)
    ensures var (r, next) := ReadSpec(p, c);
      match r
      case Some(v) =>
        && v.Valid() && !next.overflow
        && next.pos == c.pos + 28 + |v.symbol| + |v.filename| + v.Count() * REGISTER_SIZE
        && p[c.pos..next.pos] == Encode(v)
      case None =>
        && next.pos == c.pos
        && ReadSpec(p, next) == (None, next)
  {
    hide Encode, Parse;
    if ReadSpec(p, c).0.Some? {
      EncodeParse(p[c.pos..]);
      var n := ReadSpec(p, c).1.pos - c.pos;
      assert p[c.pos..][..n] == p[c.pos..c.pos + n];
    }
  }

  function EncodedLength(vs: seq<Frame>): nat
  {
    |EncodeAll(vs)|
  }

  lemma {:induction false} EncodeAllCons(v: Frame, vs: seq<Frame>)
    ensures EncodeAll([v] + vs) == Encode(v) + EncodeAll(vs)
  {
    hide Encode;
    if vs == [] {
      Snoc([], v);
      assert [v] + vs == [] + [v];
    } else {
      var front, last := vs[..|vs| - 1], vs[|vs| - 1];
      EncodeAllCons(v, front);
      assert ([v] + vs)[..|vs|] == [v] + front;
    }
  }

  /** On any payload, whatever its header claims, the read loop delivers valid frames whose
      encodings are, end to end, the bytes it passed over: so at most (size - 24) / 28. */
  lemma {:induction false} ReadFramesCover(p: seq<byte>, c: Cursor)
    requires HEADER_SIZE <= c.pos <= |p|
    ensures var vs := ReadFrames(p, c);
      && (forall v <- vs :: v.Valid())
      && c.pos + EncodedLength(vs) <= |p|
      && p[c.pos..c.pos + EncodedLength(vs)] == EncodeAll(vs)
      && c.pos + 28 * |vs| <= |p|
    decreases |p| - c.pos
  {
    hide Encode, ReadSpec;
    var (r, next) := ReadSpec(p, c);
    ReadOnce(p, c);
    if r.Some? {
      ReadFramesCover(p, next);
      EncodeAllCons(r.value, ReadFrames(p, next));
    }
  }

  /** Truncation monotonicity: cutting the payload anywhere after its header only removes
      frames from the end of what is read. */
  lemma {:induction false} Truncation(p: seq<byte>, m: nat, c: Cursor)
    requires HEADER_SIZE <= c.pos <= m <= |p|
    ensures ReadFrames(p[..m], c) <= ReadFrames(p, c)
    decreases m - c.pos
  {
    hide Parse;
    var q := p[..m];
    assert q[SIZE_FIELD..SIZE_FIELD + 4] == p[SIZE_FIELD..SIZE_FIELD + 4];
    if ReadSpec(q, c).0.Some? {
      assert q[c.pos..] == p[c.pos..][..m - c.pos];
      ParseExtends(p[c.pos..], m - c.pos);
      Truncation(p, m, ReadSpec(q, c).1);
    }
  }

  // ---- Reading back what a writer wrote ----

  /** The size field falls behind the cursor by two bytes a frame. */
  lemma {:induction false} Lag(vs: seq<Frame>)
    requires forall v <- vs :: v.Valid()
    ensures EncodedLength(vs) == WouldAll(vs) + 2 * |vs|
  {
    if vs != [] {
      var front := vs[..|vs| - 1];
      Lag(front);
      assert vs[|vs| - 1].Valid();
    }
  }

  lemma {:induction false} WouldAllSplit(vs: seq<Frame>, k: nat)
    requires k <= |vs|
    ensures WouldAll(vs) == WouldAll(vs[..k]) + WouldAll(vs[k..])
  {
    if k == |vs| {
      assert vs[..k] == vs;
    } else {
      var n := |vs| - 1;
      WouldAllSplit(vs[..n], k);
      assert vs[..n][..k] == vs[..k];
      assert vs[k..][..n - k] == vs[..n][k..];
    }
  }

  lemma {:induction false} EncodeAllSplit(vs: seq<Frame>, k: nat)
    requires k <= |vs|
    ensures EncodeAll(vs) == EncodeAll(vs[..k]) + EncodeAll(vs[k..])
  {
    hide Encode;
    if k == |vs| {
      assert vs[..k] == vs;
    } else {
      var n := |vs| - 1;
      EncodeAllSplit(vs[..n], k);
      assert vs[..n][..k] == vs[..k];
      assert vs[k..][..n - k] == vs[..n][k..];
    }
  }

  /** What the header will have counted, beyond the frames, for a frame cut short. */
  function CutWould(cut: Option<Frame>): nat
  {
    if cut.Some? then Would(cut.value) else 0
  }

  function CursorAt(frames: seq<Frame>, k: nat): (c: Cursor)
    requires k <= |frames|
    ensures HEADER_SIZE <= c.pos
  {
    Cursor(HEADER_SIZE + EncodedLength(frames[..k]), false)
  }

  /** The header's size field, a 32-bit number. */
  function SizeField(frames: seq<Frame>, cut: Option<Frame>): uint32
  {
    (HEADER_SIZE + WouldAll(frames) + CutWould(cut)) % U32_RANGE
  }

  /** The reader accepts frame k exactly while the size field is ahead of the k-th cursor. */
  predicate Delivers(frames: seq<Frame>, cut: Option<Frame>, k: nat)
    requires k <= |frames|
  {
    CursorAt(frames, k).pos < SizeField(frames, cut)
  }

  /** Below 2^32 bytes the size field has not wrapped. */
  predicate Unwrapped(frames: seq<Frame>, cut: Option<Frame>)
  {
    HEADER_SIZE + WouldAll(frames) + CutWould(cut) < U32_RANGE
  }

  /** Then the drift decides: each frame before the k-th set the size field back by two. */
  lemma DeliversIff(frames: seq<Frame>, cut: Option<Frame>, k: nat)
    requires k <= |frames| && Unwrapped(frames, cut) && forall v <- frames :: v.Valid()
    ensures Delivers(frames, cut, k) <==> 2 * k < WouldAll(frames[k..]) + CutWould(cut)
  {
    WouldAllSplit(frames, k);
    Lag(frames[..k]);
  }

  /** One read at the k-th frame boundary. */
  lemma ReadAtBoundary(p: seq<byte>, c: nat, frames: seq<Frame>, cut: Option<Frame>, k: nat)
    requires Written(p, c, frames, cut) && k <= |frames|
    ensures var at := CursorAt(frames, k);
      && at.pos <= |p|
      && if k < |frames| && Delivers(frames, cut, k)
         then ReadSpec(p, at) == (Some(frames[k]), CursorAt(frames, k + 1))
         else ReadSpec(p, at).0 == None
  {
    hide Encode, Parse, Names, NumberAt, U32At, EncodeAll, WouldAll, Would;
    var at := CursorAt(frames, k);
    SizeRead(p, c, frames, cut);
    if k < |frames| {
      BoundaryFrame(p, c, frames, cut, k);
    } else {
      BoundaryEnd(p, c, frames, cut);
    }
  }

  lemma SizeRead(p: seq<byte>, c: nat, frames: seq<Frame>, cut: Option<Frame>)
    requires Written(p, c, frames, cut)
    ensures U32At(p, SIZE_FIELD) == SizeField(frames, cut)
  {
  }

  lemma BoundaryFrame(p: seq<byte>, c: nat, frames: seq<Frame>, cut: Option<Frame>, k: nat)
    requires Written(p, c, frames, cut) && k < |frames|
    ensures var at := CursorAt(frames, k).pos;
      && at + |Encode(frames[k])| == CursorAt(frames, k + 1).pos <= |p|
      && Parse(p[at..]) == Some((frames[k], |Encode(frames[k])|))
  {
    hide Encode, Parse, Names, U32At, U64At, EncodeAll, WouldAll;
    var before, v, after := EncodeAll(frames[..k]), frames[k], EncodeAll(frames[k + 1..]);
    EncodeAllSplit(frames, k);
    EncodeAllCons(v, frames[k + 1..]);
    assert frames[k..] == [v] + frames[k + 1..];
    Snoc(frames[..k], v);
    assert frames[..k + 1] == frames[..k] + [v];
    var tail := if cut.Some? then Names(cut.value) else [];
    var at := HEADER_SIZE + |before|;
    assert p[HEADER_SIZE..c] == before + (Encode(v) + after) + tail;
    var rest := after + tail + p[c..];
    assert p == p[..HEADER_SIZE] + p[HEADER_SIZE..c] + p[c..];
    assert p[at..] == Encode(v) + rest;
    ParseEncode(v, rest);
  }

  lemma BoundaryEnd(p: seq<byte>, c: nat, frames: seq<Frame>, cut: Option<Frame>)
    requires Written(p, c, frames, cut)
    ensures CursorAt(frames, |frames|).pos <= |p|
    ensures cut.None? ==> !Delivers(frames, cut, |frames|)
    ensures cut.Some? ==> Parse(p[CursorAt(frames, |frames|).pos..]) == None
  {
    hide Encode, Parse, Names, U32At, U64At;
    assert frames[..|frames|] == frames;
    Lag(frames);
    WrapBound(HEADER_SIZE + WouldAll(frames));
    if cut.Some? {
      var at := HEADER_SIZE + |EncodeAll(frames)|;
      assert p == p[..HEADER_SIZE] + p[HEADER_SIZE..c] + p[c..];
      assert p[at..] == Names(cut.value) + p[c..];
      NamesAlone(cut.value, p[c..]);
    }
  }

  lemma WrapBound(n: nat)
    ensures n % U32_RANGE <= n
  {
  }

  /** Once a frame is out of the size field's reach, so is every later one. */
  lemma DeliversDown(frames: seq<Frame>, cut: Option<Frame>, k: nat, j: nat)
    requires k <= j <= |frames| && Delivers(frames, cut, j)
    ensures Delivers(frames, cut, k)
  {
    EncodeAllSplit(frames[..j], k);
    assert frames[..j][..k] == frames[..k];
  }

  lemma {:induction false} ReadFromBoundary(p: seq<byte>, c: nat, frames: seq<Frame>, cut: Option<Frame>, k: nat)
    requires Written(p, c, frames, cut) && k <= |frames|
    ensures CursorAt(frames, k).pos <= |p|
    ensures var got := ReadFrames(p, CursorAt(frames, k));
      && got <= frames[k..]
      && (forall j :: k <= j < |frames| ==> (j < k + |got| <==> Delivers(frames, cut, j)))
    decreases |frames| - k
  {
    hide Written, ReadSpec, CursorAt, Delivers;
    ReadAtBoundary(p, c, frames, cut, k);
    if k < |frames| && Delivers(frames, cut, k) {
      ReadFromBoundary(p, c, frames, cut, k + 1);
      assert frames[k..] == [frames[k]] + frames[k + 1..];
    } else {
      forall j | k <= j < |frames| && Delivers(frames, cut, j)
        ensures false
      {
        DeliversDown(frames, cut, k, j);
      }
    }
  }

  /** Frame round trip with exact drift. After any frames were written, a fresh reader gives
      back a prefix of them, unchanged, and frame k is in it exactly when the size field is
      ahead of its cursor: while the field has not wrapped, when
      2k < would(f_k) + would(f_k+1) + ... ; whatever bytes follow, nothing else is read. */
  lemma RoundTrip(p: seq<byte>, c: nat, frames: seq<Frame>, cut: Option<Frame>)
    requires Written(p, c, frames, cut)
    ensures var got := ReadFrames(p, START);
      && got <= frames
      && (forall k :: 0 <= k < |frames| ==> (k < |got| <==> Delivers(frames, cut, k)))
      && (Unwrapped(frames, cut) ==>
            forall k :: 0 <= k < |frames| ==> (k < |got| <==> 2 * k < WouldAll(frames[k..]) + CutWould(cut)))
  {
    hide ReadFrames, Delivers, Unwrapped, EncodeAll, WouldAll, NumberAt;
    assert frames[..0] == [] && frames[0..] == frames;
    StartIsFirst(frames);
    ReadFromBoundary(p, c, frames, cut, 0);
    if Unwrapped(frames, cut) {
      forall k | 0 <= k < |frames|
        ensures Delivers(frames, cut, k) <==> 2 * k < WouldAll(frames[k..]) + CutWould(cut)
      {
        DeliversIff(frames, cut, k);
      }
    }
  }

  lemma StartIsFirst(frames: seq<Frame>)
    ensures CursorAt(frames, 0) == START
  {
    assert frames[..0] == [];
  }

  /** Every frame comes back exactly when the last one does: while the size field has not
      wrapped, when the last frame outweighs the drift before it. */
  lemma AllDelivered(p: seq<byte>, c: nat, frames: seq<Frame>)
    requires Written(p, c, frames, None)
    ensures ReadFrames(p, START) == frames <==> (frames == [] || Delivers(frames, None, |frames| - 1))
    ensures Unwrapped(frames, None) ==>
      (ReadFrames(p, START) == frames <==> (frames == [] || 2 * (|frames| - 1) < Would(frames[|frames| - 1])))
  {
    hide Written, Would, Delivers, Unwrapped, ReadFrames;
    RoundTrip(p, c, frames, None);
    if frames != [] {
      var k := |frames| - 1;
      assert frames[k..][..0] == [];
      assert WouldAll(frames[k..]) == Would(frames[k]);
    }
  }

  /** In particular thirteen frames survive, and fourteen empty ones do not. */
  lemma ThirteenSurvive(p: seq<byte>, c: nat, frames: seq<Frame>)
    requires Written(p, c, frames, None) && Unwrapped(frames, None) && |frames| <= 13
    ensures ReadFrames(p, START) == frames
  {
    AllDelivered(p, c, frames);
  }

  const EMPTY_FRAME := Frame(0, 0, 0, [], [], [])

  lemma FourteenDoNot(p: seq<byte>, c: nat, frames: seq<Frame>)
    requires frames == seq(14, _ => EMPTY_FRAME)
    requires Written(p, c, frames, None)
    ensures ReadFrames(p, START) == frames[..13]
  {
    hide Written, ReadFrames;
    assert forall v <- frames :: Would(v) == 26;
    SmallTotal(frames);
    SmallTotal(frames[12..]);
    SmallTotal(frames[13..]);
    RoundTrip(p, c, frames, None);
  }

  /** And a size field that wraps loses every frame: it may then stand before the first. */
  lemma WrappedLosesAll(p: seq<byte>, c: nat, frames: seq<Frame>)
    requires Written(p, c, frames, None) && SizeField(frames, None) <= HEADER_SIZE
    ensures ReadFrames(p, START) == []
  {
    hide Written;
    RoundTrip(p, c, frames, None);
    StartIsFirst(frames);
    assert frames != [] ==> !Delivers(frames, None, 0);
  }

  lemma {:induction false} SmallTotal(vs: seq<Frame>)
    requires forall v <- vs :: Would(v) == 26
    ensures WouldAll(vs) == 26 * |vs|
  {
    if vs != [] {
      SmallTotal(vs[..|vs| - 1]);
    }
  }

  // ---- The capacity test ----

  /** The writer stays inside its buffer exactly outside the two-byte gap, or when the frame
      has no registers; in the gap it would store past the end. */
  lemma GapIsExact(v: Frame, free: nat)
    requires v.Valid() && Would(v) <= free
    ensures WritesInside(v, free) <==> StoredEnd(v, free) <= free
    ensures !WritesInside(v, free) ==> StoredEnd(v, free) == Would(v) + 2 > free
  {
    hide StoredEnd;
    StoredEndIs(v, free);
  }

  /** In the gap even a frame without registers is lost: its count is not stored, although
      the call reports success, and no reader gives it back. */
  lemma CutFrameIsLost(p: seq<byte>, c: nat, frames: seq<Frame>, v: Frame)
    requires Written(p, c, frames, Some(v))
    ensures ReadFrames(p, START) <= frames
  {
    RoundTrip(p, c, frames, Some(v));
  }
}
