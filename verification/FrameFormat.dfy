/** The byte format of one stack frame (src/bun_stream.c, LP64 little-endian host) as a
    printer and a parser, with the laws that connect them. */
module FrameFormat {
  import opened Bytes

  /** sizeof(uint16_t) + sizeof(uint64_t): one register record. */
  const REGISTER_SIZE := 10

  /** struct bun_frame, with the pointed-to memory in place of the pointers. */
  datatype BunFrame = BunFrame(
    addr: uint64, symbol: Option<seq<byte>>, symbolLength: nat,
    filename: Option<seq<byte>>, filenameLength: nat,
    lineNo: uint64, offset: uint64, registerCount: nat, registerData: seq<byte>)

  /** What a caller must supply: NUL-terminated strings whose declared length is absent
      or right, and as many register records as announced. */
  ghost predicate WellFormed(f: BunFrame)
  {
    && WellFormedString(f.symbol, f.symbolLength)
    && WellFormedString(f.filename, f.filenameLength)
    && f.registerCount < 0x1_0000
    && f.registerCount * REGISTER_SIZE <= |f.registerData|
  }

  ghost predicate WellFormedString(s: Option<seq<byte>>, declared: nat)
  {
    match s
    case None => declared == 0
    case Some(t) => NulFree(t) && (declared == 0 || declared == |t|)
  }

  /** The value a frame carries, free of its memory layout. */
  datatype Frame = Frame(addr: uint64, lineNo: uint64, offset: uint64,
                         symbol: seq<byte>, filename: seq<byte>, registers: seq<byte>)
  {
    function Count(): nat { |registers| / REGISTER_SIZE }

    ghost predicate Valid() {
      && NulFree(symbol) && NulFree(filename)
      && |registers| == Count() * REGISTER_SIZE && Count() < 0x1_0000
    }
  }

  function Text(s: Option<seq<byte>>): seq<byte>
  {
    match s
    case None => []
    case Some(t) => t
  }

  ghost function Meaning(f: BunFrame): (v: Frame)
    requires WellFormed(f)
    ensures v.Valid() && v.Count() == f.registerCount
  {
    Frame(f.addr, f.lineNo, f.offset, Text(f.symbol), Text(f.filename),
          f.registerData[..f.registerCount * REGISTER_SIZE])
  }

  /** What a successful read leaves in a struct that was zeroed first. */
  function InZeroed(v: Frame): BunFrame
  {
    BunFrame(v.addr, Some(v.symbol), 0, Some(v.filename), 0, v.lineNo, v.offset, v.Count(), v.registers)
  }

  lemma InZeroedMeans(v: Frame)
    requires v.Valid()
    ensures WellFormed(InZeroed(v)) && Meaning(InZeroed(v)) == v
  {
    assert v.registers[..v.Count() * REGISTER_SIZE] == v.registers;
  }

  /** The size the writer accounts for: it forgets the 8 bytes of offset and counts the
      2-byte register count as 8. */
  function Would(v: Frame): nat
  {
    |v.symbol| + |v.filename| + 2 + 8 + 8 + 8 + v.Count() * REGISTER_SIZE
  }

  function Fixed(v: Frame): (b: seq<byte>)
    ensures |b| == 24
  {
    Le(v.addr, 8) + Le(v.lineNo, 8) + Le(v.offset, 8)
  }

  /** Everything up to the register count. */
  function Names(v: Frame): (b: seq<byte>)
    ensures |b| == 26 + |v.symbol| + |v.filename|
  {
    Fixed(v) + (v.symbol + [0]) + (v.filename + [0])
  }

  function Encode(v: Frame): (b: seq<byte>)
    ensures |b| == 28 + |v.symbol| + |v.filename| + |v.registers|
  {
    Names(v) + Le(v.Count(), 2) + v.registers
  }

  /** Reads one frame from position c of p: the frame and where it ends. */
  function ParseAt(p: seq<byte>, c: nat): (r: Option<(Frame, nat)>)
    ensures r.Some? ==> c + 28 <= r.value.1 <= |p|
  {
    if |p| < c + 24 then None else
    var symbolEnd := StringEnd(p, c + 24);
    if symbolEnd == None then None else
    var filenameEnd := StringEnd(p, symbolEnd.value + 1);
    if filenameEnd == None then None else
    var names := filenameEnd.value + 1;
    if |p| < names + 2 then None else
    var end := names + 2 + U16At(p, names) * REGISTER_SIZE;
    if |p| < end then None else
    Some((Frame(U64At(p, c), U64At(p, c + 8), U64At(p, c + 16),
                p[c + 24..symbolEnd.value], p[symbolEnd.value + 1..filenameEnd.value],
                p[names + 2..end]), end))
  }

  /** Reads one frame from the front of b: the frame and the bytes it took. */
  function Parse(b: seq<byte>): (r: Option<(Frame, nat)>)
    ensures r.Some? ==> 28 <= r.value.1 <= |b|
  {
    ParseAt(b, 0)
  }

  /** The bytes at the front of b are those of frame v, field by field. */
  ghost predicate Laid(b: seq<byte>, v: Frame)
  {
    var s, f := |v.symbol|, |v.filename|;
    && 28 + s + f + |v.registers| <= |b|
    && b[0..8] == Le(v.addr, 8) && b[8..16] == Le(v.lineNo, 8) && b[16..24] == Le(v.offset, 8)
    && b[24..24 + s] == v.symbol && b[24 + s] == 0
    && b[25 + s..25 + s + f] == v.filename && b[25 + s + f] == 0
    && b[26 + s + f..28 + s + f] == Le(v.Count(), 2)
    && b[28 + s + f..28 + s + f + |v.registers|] == v.registers
  }

  lemma EncodeLaid(v: Frame, rest: seq<byte>)
    ensures Laid(Encode(v) + rest, v)
  {
    hide Le;
    var b, s, f := Encode(v) + rest, |v.symbol|, |v.filename|;
    assert b[..26 + s + f] == Names(v);
    assert b[..24] == Names(v)[..24] == Fixed(v);
    assert b[0..8] == Fixed(v)[0..8] && b[8..16] == Fixed(v)[8..16] && b[16..24] == Fixed(v)[16..24];
    assert b[24..24 + s] == Names(v)[24..24 + s] && b[25 + s..25 + s + f] == Names(v)[25 + s..25 + s + f];
    assert b[26 + s + f..] == Le(v.Count(), 2) + v.registers + rest;
    assert b[26 + s + f..28 + s + f] == b[26 + s + f..][..2];
    assert b[28 + s + f..28 + s + f + |v.registers|] == b[26 + s + f..][2..2 + |v.registers|];
  }

  /** The same, field by field as numbers and bytes. */
  lemma FieldsAt(v: Frame)
    requires v.Valid()
    ensures var b, s, f := Encode(v), |v.symbol|, |v.filename|;
      && U64At(b, 0) == v.addr && U64At(b, 8) == v.lineNo && U64At(b, 16) == v.offset
      && b[24..24 + s] == v.symbol && b[24 + s] == 0
      && b[25 + s..25 + s + f] == v.filename && b[25 + s + f] == 0
      && U16At(b, 26 + s + f) == v.Count() && b[28 + s + f..] == v.registers
  {
    hide Le, NumberAt, Encode;
    var b, s, f := Encode(v), |v.symbol|, |v.filename|;
    assert b + [] == b;
    EncodeLaid(v, []);
    U64Stored(b, 0, v.addr); U64Stored(b, 8, v.lineNo); U64Stored(b, 16, v.offset);
    U16Stored(b, 26 + s + f, v.Count());
    assert b[28 + s + f..] == b[28 + s + f..28 + s + f + |v.registers|];
  }

  lemma LaidEncode(b: seq<byte>, v: Frame)
    requires Laid(b, v)
    ensures |Encode(v)| <= |b| && b[..|Encode(v)|] == Encode(v)
  {
    hide Le;
    var s, f := |v.symbol|, |v.filename|;
    assert Fixed(v) == b[..24];
    assert Names(v) == b[..26 + s + f];
  }

  lemma ParseLaid(b: seq<byte>, v: Frame)
    requires v.Valid() && Laid(b, v)
    ensures Parse(b) == Some((v, 28 + |v.symbol| + |v.filename| + |v.registers|))
  {
    hide Le, NumberAt, U64At, U16At, StringEnd, NulFree;
    var s, f := |v.symbol|, |v.filename|;
    U64Stored(b, 0, v.addr); U64Stored(b, 8, v.lineNo); U64Stored(b, 16, v.offset);
    U16Stored(b, 26 + s + f, v.Count());
    StringEndAt(b, 24, 24 + s);
    StringEndAt(b, 25 + s, 25 + s + f);
  }

  lemma LaidParse(b: seq<byte>)
    requires Parse(b).Some?
    ensures var (v, n) := Parse(b).value; v.Valid() && Laid(b, v) && n == |Encode(v)|
  {
    hide Le, NumberAt, U64At, U16At, StringEnd, NulFree;
    var (v, n) := Parse(b).value;
    var s, f := |v.symbol|, |v.filename|;
    U64Stored(b, 0, v.addr); U64Stored(b, 8, v.lineNo); U64Stored(b, 16, v.offset);
    U16Stored(b, 26 + s + f, v.Count());
  }

  /** Whatever follows it, an encoded frame reads back as itself and ends where it ended. */
  lemma ParseEncode(v: Frame, rest: seq<byte>)
    requires v.Valid()
    ensures Parse(Encode(v) + rest) == Some((v, |Encode(v)|))
  {
    hide Laid, Parse;
    EncodeLaid(v, rest);
    ParseLaid(Encode(v) + rest, v);
  }

  /** Canonical encoding: the bytes a frame was read from are the bytes it is written as. */
  lemma EncodeParse(b: seq<byte>)
    requires Parse(b).Some?
    ensures var (v, n) := Parse(b).value;
      v.Valid() && n == |Encode(v)| && Encode(v) == b[..n]
  {
    LaidParse(b);
    LaidEncode(b, Parse(b).value.0);
  }

  /** No frame's encoding is a prefix of another's; in particular encoding is injective. */
  lemma PrefixFree(v: Frame, w: Frame, rest: seq<byte>, more: seq<byte>)
    requires v.Valid() && w.Valid()
    requires Encode(v) + rest == Encode(w) + more
    ensures v == w && rest == more
  {
    ParseEncode(v, rest);
    ParseEncode(w, more);
    assert rest == (Encode(v) + rest)[|Encode(v)|..];
    assert more == (Encode(w) + more)[|Encode(w)|..];
  }

  /** Bytes after the frame do not matter: what reads from a cut reads the same uncut. */
  lemma ParseExtends(b: seq<byte>, m: nat)
    requires m <= |b| && Parse(b[..m]).Some?
    ensures Parse(b) == Parse(b[..m])
  {
    hide Parse, Encode;
    EncodeParse(b[..m]);
    var (v, n) := Parse(b[..m]).value;
    assert b == Encode(v) + b[n..];
    ParseEncode(v, b[n..]);
  }

  /** A frame cut before its register count does not read, even with one stray byte left. */
  lemma NamesAlone(v: Frame, stray: seq<byte>)
    requires v.Valid() && |stray| < 2
    ensures Parse(Names(v) + stray) == None
  {
    var b, s, f := Names(v) + stray, |v.symbol|, |v.filename|;
    assert b[24..24 + s] == v.symbol && b[25 + s..25 + s + f] == v.filename;
    StringEndAt(b, 24, 24 + s);
    StringEndAt(b, 25 + s, 25 + s + f);
  }
}
