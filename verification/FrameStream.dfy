/** The frame stream's buffer, writer and reader (src/bun_stream.c), updated in place as
    the source does, each operation proved against the format of FrameFormat. */
module FrameStream {
  import opened Bytes
  import opened FrameFormat
  import WriteOnce

  const MAGIC: uint64 := 0xaee9_eb7a_786a_6145
  const HEADER_SIZE := 24
  /** Where the header keeps its size field. */
  const SIZE_FIELD := 12
  /** BUN_BACKEND_NONE is -1 in a 16-bit field. */
  const BACKEND_NONE: uint16 := 0xffff
  /** The write count and the owning handle, in front of the payload. */
  const BOOKKEEPING := 16

  /** struct bun_handle as far as the stream looks at it: its address and one flag. */
  datatype Handle = Handle(id: nat, writeOnce: bool)

  /** The header a fresh writer stores; its last two bytes are padding. */
  function Header(architecture: uint16, tid: uint32): (h: seq<byte>)
    ensures |h| == 22
  {
    Le(MAGIC, 8) + Le(1, 2) + Le(architecture, 2) + Le(HEADER_SIZE, 4) + Le(tid, 4) + Le(BACKEND_NONE, 2)
  }

  function EncodeAll(vs: seq<Frame>): seq<byte>
  {
    if vs == [] then [] else EncodeAll(vs[..|vs| - 1]) + Encode(vs[|vs| - 1])
  }

  /** What the header accounts for after vs. */
  function WouldAll(vs: seq<Frame>): nat
  {
    if vs == [] then 0 else WouldAll(vs[..|vs| - 1]) + Would(vs[|vs| - 1])
  }

  /** A reader's position in the payload and its sticky overflow flag. */
  datatype Cursor = Cursor(pos: nat, overflow: bool)

  /** One bun_frame_read on payload p. */
  function ReadSpec(p: seq<byte>, c: Cursor): (r: (Option<Frame>, Cursor))
    requires HEADER_SIZE <= c.pos <= |p|
    ensures c.pos <= r.1.pos <= |p|
    ensures r.0.Some? ==> c.pos + 28 <= r.1.pos
  {
    if |p| == c.pos || U32At(p, SIZE_FIELD) <= c.pos then (None, c)
    else if c.overflow then (None, c)
    else match Parse(p[c.pos..])
      case None => (None, Cursor(c.pos, true))
      case Some((v, n)) => (Some(v), Cursor(c.pos + n, false))
  }

  /** The frames a loop of bun_frame_read delivers from c on (bun_reader_print). */
  function ReadFrames(p: seq<byte>, c: Cursor): seq<Frame>
    requires HEADER_SIZE <= c.pos <= |p|
    decreases |p| - c.pos
  {
    var (r, next) := ReadSpec(p, c);
    if r == None then [] else [r.value] + ReadFrames(p, next)
  }

  const START := Cursor(HEADER_SIZE, false)

  /** struct bun_buffer over LP64 memory: 16 bytes of bookkeeping (the write count and the
      owning handle), then the payload. */
  class Buffer {
    var writeCount: uint32
    var handle: Option<Handle>
    const payload: array<byte>

    /** bun_buffer_init: of the memory it is given only the first 40 bytes are cleared. */
    static method Init(memory: seq<byte>) returns (buffer: Option<Buffer>)
      ensures buffer.None? <==> |memory| < BOOKKEEPING + HEADER_SIZE
      ensures buffer.Some? ==>
        && fresh(buffer.value) && fresh(buffer.value.payload)
        && buffer.value.writeCount == 0 && buffer.value.handle == None
        && buffer.value.payload[..] == seq(HEADER_SIZE, _ => 0) + memory[BOOKKEEPING + HEADER_SIZE..]
    {
      if |memory| < BOOKKEEPING + HEADER_SIZE {
        return None;
      }
      var b := new Buffer(memory[BOOKKEEPING..]);
      assert memory[BOOKKEEPING..][HEADER_SIZE..] == memory[BOOKKEEPING + HEADER_SIZE..];
      buffer := Some(b);
    }

    constructor (data: seq<byte>)
      requires |data| >= HEADER_SIZE
      ensures fresh(payload) && payload.Length == |data|
      ensures writeCount == 0 && handle == None
      ensures payload[..] == seq(HEADER_SIZE, _ => 0) + data[HEADER_SIZE..]
    {
      writeCount, handle := 0, None;
      payload := new byte[|data|](i requires 0 <= i < |data| => if i < HEADER_SIZE then 0 else data[i]);
    }

    /** What bun_writer_init checks before it writes: the owner, then the write-once count, which
        it reads as an int, so that from 2^31 on it passes again. */
    method Admit(who: Option<Handle>) returns (pass: bool)
      modifies this
      ensures handle == if old(handle).Some? then old(handle) else who
      ensures var foreign := who.Some? && who != handle;
        var gated := !foreign && handle.Some? && handle.value.writeOnce;
        && (pass <==> !foreign && (gated ==> !(0 < old(writeCount) < 0x8000_0000)))
        && writeCount == if gated then (old(writeCount) + 1) % U32_RANGE else old(writeCount)
    {
      if handle.Some? {
        if who.Some? && who != handle {
          return false;
        }
      } else if who.Some? {
        handle := who;
      }
      if handle.Some? && handle.value.writeOnce {
        var before := writeCount;
        writeCount := if before == 0xffff_ffff then 0 else before + 1;
        if !WriteOnce.Passes(before) {
          return false;
        }
      }
      return true;
    }
  }

  /** struct bun_writer. The ghost fields record what was written so far: `frames` in full
      and possibly one last frame, `cut`, whose register count found no room. */
  class Writer {
    var payload: array<byte>
    var cursor: nat
    var overflow: bool
    ghost var frames: seq<Frame>
    ghost var cut: Option<Frame>

    ghost predicate Valid()
      reads this, payload
    {
      overflow == cut.Some? && Written(payload[..], cursor, frames, cut)
    }

    function Free(): int
      reads this
    {
      payload.Length - cursor
    }

    /** bun_writer_init. */
    static method Init(buffer: Buffer, architecture: uint16, handle: Option<Handle>, tid: uint32)
      returns (writer: Option<Writer>)
      requires buffer.payload.Length >= HEADER_SIZE
      modifies buffer, buffer.payload
      ensures buffer.handle == if old(buffer.handle).Some? then old(buffer.handle) else handle
      ensures var foreign := handle.Some? && handle != buffer.handle;
        var gated := !foreign && buffer.handle.Some? && buffer.handle.value.writeOnce;
        && (writer.None? <==> foreign || (gated && 0 < old(buffer.writeCount) < 0x8000_0000))
        && buffer.writeCount == if gated then (old(buffer.writeCount) + 1) % U32_RANGE else old(buffer.writeCount)
      ensures writer.None? ==> buffer.payload[..] == old(buffer.payload[..])
      ensures writer.Some? ==>
        && fresh(writer.value) && writer.value.payload == buffer.payload
        && writer.value.Valid() && writer.value.frames == [] && writer.value.cut == None
        && buffer.payload[..] == Splice(old(buffer.payload[..]), 0, Header(architecture, tid))
        && HasHeader(buffer.payload[..], architecture, tid)
    {
      var admitted := buffer.Admit(handle);
      if !admitted {
        return None;
      }
      hide Header, Le, Splice, Written;
      Store(buffer.payload, 0, Header(architecture, tid));
      HeaderFields(buffer.payload[..], architecture, tid);
      var w := new Writer(buffer.payload);
      writer := Some(w);
    }

    constructor (p: array<byte>)
      requires HEADER_SIZE <= p.Length && U64At(p[..], 0) == MAGIC && U32At(p[..], SIZE_FIELD) == HEADER_SIZE
      ensures payload == p && Valid() && frames == [] && cut == None
    {
      payload, cursor, overflow := p, HEADER_SIZE, false;
      frames, cut := [], None;
    }

    /** write_le_16 and write_le_64. */
    method WriteLe(value: nat, n: nat)
      requires cursor <= payload.Length
      modifies this`cursor, this`overflow, payload
      ensures if !old(overflow) && n <= old(Free())
        then cursor == old(cursor) + n && !overflow
             && payload[..] == Splice(old(payload[..]), old(cursor), Le(value, n))
        else cursor == old(cursor) && overflow && payload[..] == old(payload[..])
    {
      if overflow || !(n <= payload.Length - cursor) {
        overflow := true;
        return;
      }
      Store(payload, cursor, Le(value, n));
      cursor := cursor + n;
    }

    /** strcpy, after which the cursor moves by the declared length and the NUL. */
    method WriteString(text: seq<byte>, length: nat)
      requires length == |text| && cursor + |text| + 1 <= payload.Length
      modifies this`cursor, payload
      ensures cursor == old(cursor) + |text| + 1
      ensures payload[..] == Splice(old(payload[..]), old(cursor), text + [0])
    {
      Store(payload, cursor, text + [0]);
      cursor := cursor + length + 1;
    }

    /** The stores of bun_frame_write: each moves the cursor over what it wrote, and only the
        register count is checked against the end. */
    method WriteBody(f: BunFrame, symbolLength: nat, filenameLength: nat)
      requires WellFormed(f) && cursor <= payload.Length && !overflow
      requires symbolLength == |Text(f.symbol)| && filenameLength == |Text(f.filename)|
      requires Would(Meaning(f)) <= Free() && WritesInside(Meaning(f), Free())
      modifies this`cursor, this`overflow, payload
      ensures overflow == (old(Free()) < Would(Meaning(f)) + 2)
      ensures var body := if overflow then Names(Meaning(f)) else Encode(Meaning(f));
        && cursor == old(cursor) + |body|
        && payload[..] == Splice(old(payload[..]), old(cursor), body)
    {
      hide Le, Splice;
      ghost var v, p, c := Meaning(f), payload[..], cursor;
      WriteLe(f.addr, 8);
      WriteLe(f.lineNo, 8);
      WriteLe(f.offset, 8);
      SpliceSplice(p, c, Le(v.addr, 8), Le(v.lineNo, 8));
      SpliceSplice(p, c, Le(v.addr, 8) + Le(v.lineNo, 8), Le(v.offset, 8));
      WriteString(Text(f.symbol), symbolLength);
      WriteString(Text(f.filename), filenameLength);
      SpliceSplice(p, c, Fixed(v), v.symbol + [0]);
      SpliceSplice(p, c, Fixed(v) + (v.symbol + [0]), v.filename + [0]);
      assert payload[..] == Splice(p, c, Names(v));
      WriteCount(f.registerCount, f.registerData[..f.registerCount * REGISTER_SIZE]);
      if !overflow {
        SpliceSplice(p, c, Names(v), Le(v.Count(), 2) + v.registers);
        assert Names(v) + (Le(v.Count(), 2) + v.registers) == Encode(v);
      }
    }

    /** The register count, then the records when there are any. */
    method WriteCount(count: nat, records: seq<byte>)
      requires count < 0x1_0000 && |records| == count * REGISTER_SIZE && cursor <= payload.Length
      requires !overflow && (Free() < 2 ==> count == 0)
      requires count > 0 ==> |records| + 2 <= Free()
      modifies this`cursor, this`overflow, payload
      ensures if old(Free()) < 2
        then overflow && cursor == old(cursor) && payload[..] == old(payload[..])
        else !overflow && cursor == old(cursor) + 2 + |records|
             && payload[..] == Splice(old(payload[..]), old(cursor), Le(count, 2) + records)
    {
      hide Le;
      ghost var p, c := payload[..], cursor;
      WriteLe(count, 2);
      if count > 0 {
        Store(payload, cursor, records);
        cursor := cursor + count * REGISTER_SIZE;
      }
      if !overflow {
        SpliceSplice(p, c, Le(count, 2), records);
        assert Splice(p, c, Le(count, 2)) == Splice(p, c, Le(count, 2) + []);
      }
    }

    /** The header's 32-bit size grows by what the frame was counted for. */
    method AddToSize(wouldWrite: nat)
      requires payload.Length >= HEADER_SIZE
      modifies payload
      ensures payload[..] == SizeAdded(old(payload[..]), wouldWrite)
    {
      var size := (U32At(payload[..], SIZE_FIELD) + wouldWrite) % U32_RANGE;
      Store(payload, SIZE_FIELD, Le(size, 4));
    }

    /** bun_frame_write. The capacity test lets through a frame with only `would` or
        `would + 1` bytes free; the precondition is exactly the absence of a write past the
        end in that gap. */
    method FrameWrite(f: BunFrame) returns (written: nat)
      requires Valid() && WellFormed(f)
      requires WritesInside(Meaning(f), Free())
      modifies this`cursor, this`overflow, this`frames, this`cut, payload
      ensures Valid()
      ensures written == (if Would(Meaning(f)) <= old(Free()) then Would(Meaning(f)) else 0)
      ensures written == 0 ==>
        cursor == old(cursor) && overflow == old(overflow) && payload[..] == old(payload[..])
        && frames == old(frames) && cut == old(cut)
      ensures written != 0 ==> cursor == old(cursor) + StoredEnd(Meaning(f), old(Free()))
      ensures written != 0 && written + 2 <= old(Free()) ==>
        cursor == old(cursor) + written + 2 && frames == old(frames) + [Meaning(f)] && cut == None
      ensures written != 0 && written + 2 > old(Free()) ==>
        cursor == old(cursor) + written && frames == old(frames) && cut == Some(Meaning(f))
      ensures payload[cursor..] == old(payload[..])[cursor..]
    {
      hide Written, Splice, SizeAdded, StoredEnd;
      WrittenBounds(payload[..], cursor, frames, cut);
      ghost var v, p, c := Meaning(f), payload[..], cursor;
      var symbolLength := if f.symbolLength == 0 && f.symbol.Some? then |f.symbol.value| else f.symbolLength;
      var filenameLength := if f.filenameLength == 0 && f.filename.Some? then |f.filename.value| else f.filenameLength;
      var wouldWrite := symbolLength + filenameLength + 2 + 8 + 8 + 8 + f.registerCount * REGISTER_SIZE;
      if wouldWrite > payload.Length - cursor {
        return 0;
      }
      StoredEndIs(v, Free());
      WriteBody(f, symbolLength, filenameLength);
      AddToSize(wouldWrite);
      WrittenNext(p, c, frames, v);
      if overflow {
        cut := Some(v);
      } else {
        frames := frames + [v];
      }
      return wouldWrite;
    }
  }

  /** One store of bun_frame_write: a number, which is checked against the end of the buffer, or
      a copy, which is not. */
  datatype Put = Checked(n: nat) | Unchecked(n: nat)

  /** The stores that write frame v, in order. */
  function Puts(v: Frame): seq<Put>
  {
    [Checked(8), Checked(8), Checked(8), Unchecked(|v.symbol| + 1), Unchecked(|v.filename| + 1), Checked(2)]
    + if v.registers == [] then [] else [Unchecked(|v.registers|)]
  }

  /** Where the cursor stands after `puts`, made from `at` in a buffer that ends at `free`; a
      number that does not fit is dropped, and so is every number after it. */
  function CursorAfter(puts: seq<Put>, at: nat, overflow: bool, free: nat): nat
  {
    if puts == [] then at
    else match puts[0]
      case Unchecked(n) => CursorAfter(puts[1..], at + n, overflow, free)
      case Checked(n) =>
        if overflow || at + n > free then CursorAfter(puts[1..], at, true, free)
        else CursorAfter(puts[1..], at + n, overflow, free)
  }

  /** The end of the last byte bun_frame_write stores for v, counted from the cursor, when it is
      given `free` bytes and its capacity test passes. */
  function StoredEnd(v: Frame, free: nat): nat
  {
    CursorAfter(Puts(v), 0, false, free)
  }

  /** Only the two bytes of the register count can be dropped; the records follow regardless. */
  lemma StoredEndIs(v: Frame, free: nat)
    requires Would(v) <= free && |v.registers| == v.Count() * REGISTER_SIZE
    ensures StoredEnd(v, free) == |Names(v)| + (if |Names(v)| + 2 <= free then 2 else 0) + |v.registers|
  {
    var puts, s, f := Puts(v), |v.symbol|, |v.filename|;
    assert puts[5..][0] == Checked(2) && puts[5..][1..] == puts[6..];
    CursorPrefix(puts, free);
    var names := 26 + s + f;
    var dropped := names + 2 > free;
    assert CursorAfter(puts[5..], names, false, free)
      == CursorAfter(puts[6..], if dropped then names else names + 2, dropped, free);
    if v.registers == [] {
      assert puts[6..] == [];
    } else {
      assert puts[6..] == [Unchecked(|v.registers|)];
    }
  }

  /** The first five stores always fit. */
  lemma CursorPrefix(puts: seq<Put>, free: nat)
    requires |puts| >= 5 && puts[0] == puts[1] == puts[2] == Checked(8)
    requires puts[3].Unchecked? && puts[4].Unchecked? && 24 <= free
    ensures CursorAfter(puts, 0, false, free) == CursorAfter(puts[5..], 24 + puts[3].n + puts[4].n, false, free)
  {
    assert puts[1..][1..] == puts[2..] && puts[2..][1..] == puts[3..] && puts[3..][1..] == puts[4..];
    assert puts[4..][1..] == puts[5..];
    assert CursorAfter(puts, 0, false, free) == CursorAfter(puts[1..], 8, false, free);
    assert CursorAfter(puts[1..], 8, false, free) == CursorAfter(puts[2..], 16, false, free);
    assert CursorAfter(puts[2..], 16, false, free) == CursorAfter(puts[3..], 24, false, free);
    assert CursorAfter(puts[3..], 24, false, free) == CursorAfter(puts[4..], 24 + puts[3].n, false, free);
  }

  /** What a payload holds once a writer at position c has written `frames` in full and then,
      if `cut` is present, one frame without its register count. */
  ghost predicate Written(p: seq<byte>, c: nat, frames: seq<Frame>, cut: Option<Frame>)
  {
    && HEADER_SIZE <= c <= |p|
    && U64At(p, 0) == MAGIC
    && (forall v <- frames :: v.Valid())
    && match cut
       case None =>
         && p[HEADER_SIZE..c] == EncodeAll(frames)
         && U32At(p, SIZE_FIELD) == (HEADER_SIZE + WouldAll(frames)) % U32_RANGE
       case Some(v) =>
         && v.Valid() && v.registers == [] && |p| - c < 2
         && p[HEADER_SIZE..c] == EncodeAll(frames) + Names(v)
         && U32At(p, SIZE_FIELD) == (HEADER_SIZE + WouldAll(frames) + Would(v)) % U32_RANGE
  }

  lemma WrittenBounds(p: seq<byte>, c: nat, frames: seq<Frame>, cut: Option<Frame>)
    requires Written(p, c, frames, cut)
    ensures HEADER_SIZE <= c <= |p|
    ensures cut.Some? ==> |p| - c < 2
  {
  }

  /** A frame appended to a payload that had room for all but perhaps its register count. */
  lemma WrittenNext(p: seq<byte>, c: nat, frames: seq<Frame>, v: Frame)
    requires Written(p, c, frames, None) && v.Valid()
    requires Would(v) <= |p| - c && WritesInside(v, |p| - c)
    ensures var fits := Would(v) + 2 <= |p| - c;
      var body := if fits then Encode(v) else Names(v);
      var q := SizeAdded(Splice(p, c, body), Would(v));
      && Written(q, c + |body|, if fits then frames + [v] else frames, if fits then None else Some(v))
      && q[c + |body|..] == p[c + |body|..]
  {
    hide Le, NumberAt, Encode, Names, EncodeAll, WouldAll, Splice, SizeAdded, U32At, U64At;
    Appended(p, c, if Would(v) + 2 <= |p| - c then Encode(v) else Names(v), Would(v));
    SizesAdd(HEADER_SIZE + WouldAll(frames), Would(v));
    Snoc(frames, v);
  }

  /** Whether every byte bun_frame_write stores for v lies in the free bytes it was given. */
  ghost predicate WritesInside(v: Frame, free: int)
  {
    Would(v) <= free < Would(v) + 2 ==> v.registers == []
  }

  function SizeAdded(p: seq<byte>, n: nat): (q: seq<byte>)
    requires |p| >= HEADER_SIZE
    ensures |q| == |p|
  {
    Splice(p, SIZE_FIELD, Le((U32At(p, SIZE_FIELD) + n) % U32_RANGE, 4))
  }

  /** The payload after a frame's bytes went in at c and the size field grew by n. */
  lemma Appended(p: seq<byte>, c: nat, body: seq<byte>, n: nat)
    requires HEADER_SIZE <= c && c + |body| <= |p|
    ensures var q := SizeAdded(Splice(p, c, body), n);
      && q[HEADER_SIZE..c + |body|] == p[HEADER_SIZE..c] + body
      && q[c + |body|..] == p[c + |body|..]
      && U32At(q, SIZE_FIELD) == (U32At(p, SIZE_FIELD) + n) % U32_RANGE && U64At(q, 0) == U64At(p, 0)
  {
    hide Le, LeValue;
    var q1 := Splice(p, c, body);
    var q := SizeAdded(q1, n);
    assert q1[SIZE_FIELD..SIZE_FIELD + 4] == p[SIZE_FIELD..SIZE_FIELD + 4];
    assert q[SIZE_FIELD + 4..] == q1[SIZE_FIELD + 4..];
    assert q[HEADER_SIZE..c + |body|] == q1[HEADER_SIZE..c + |body|];
    assert q1[..c + |body|] == p[..c] + body;
    assert q[c + |body|..] == q1[c + |body|..] == p[c + |body|..];
    assert q[0..8] == p[0..8];
    var size: uint32 := (U32At(p, SIZE_FIELD) + n) % U32_RANGE;
    assert q[SIZE_FIELD..SIZE_FIELD + 4] == Le(size, 4);
    U32Stored(q, SIZE_FIELD, size);
  }

  lemma Snoc(vs: seq<Frame>, v: Frame)
    ensures EncodeAll(vs + [v]) == EncodeAll(vs) + Encode(v)
    ensures WouldAll(vs + [v]) == WouldAll(vs) + Would(v)
  {
    assert (vs + [v])[..|vs|] == vs;
  }

  lemma SizesAdd(a: nat, b: nat)
    ensures (a % U32_RANGE + b) % U32_RANGE == (a + b) % U32_RANGE
  {
  }

  /** The header field by field, at the offsets of struct bun_payload_header. */
  predicate HasHeader(p: seq<byte>, architecture: uint16, tid: uint32)
    requires |p| >= HEADER_SIZE
  {
    && U64At(p, 0) == MAGIC && U16At(p, 8) == 1 && U16At(p, 10) == architecture
    && U32At(p, SIZE_FIELD) == HEADER_SIZE && U32At(p, 16) == tid && U16At(p, 20) == BACKEND_NONE
  }

  lemma HeaderFields(p: seq<byte>, architecture: uint16, tid: uint32)
    requires |p| >= HEADER_SIZE && p[..22] == Header(architecture, tid)
    ensures HasHeader(p, architecture, tid)
  {
    hide Le, NumberAt;
    assert p[0..8] == p[..22][0..8] && p[8..10] == p[..22][8..10] && p[10..12] == p[..22][10..12];
    assert p[12..16] == p[..22][12..16] && p[16..20] == p[..22][16..20] && p[20..22] == p[..22][20..22];
    U64Stored(p, 0, MAGIC);
    U16Stored(p, 8, 1);
    U16Stored(p, 10, architecture);
    U32Stored(p, SIZE_FIELD, HEADER_SIZE);
    U32Stored(p, 16, tid);
    U16Stored(p, 20, BACKEND_NONE);
  }

  /** struct bun_reader. */
  class Reader {
    const payload: array<byte>
    var cursor: nat
    var overflow: bool

    ghost predicate Valid()
      reads this
    {
      HEADER_SIZE <= cursor <= payload.Length
    }

    ghost function At(): Cursor
      reads this
    {
      Cursor(cursor, overflow)
    }

    /** bun_reader_init. */
    static method Init(buffer: Buffer) returns (reader: Option<Reader>)
      ensures reader.Some? <==>
        buffer.payload.Length >= HEADER_SIZE && U64At(buffer.payload[..], 0) == MAGIC
      ensures reader.Some? ==>
        fresh(reader.value) && reader.value.payload == buffer.payload
        && reader.value.Valid() && reader.value.At() == START
    {
      if buffer.payload.Length < HEADER_SIZE || U64At(buffer.payload[..], 0) != MAGIC {
        return None;
      }
      var r := new Reader(buffer.payload);
      reader := Some(r);
    }

    constructor (p: array<byte>)
      requires p.Length >= HEADER_SIZE
      ensures payload == p && Valid() && At() == START
    {
      payload, cursor, overflow := p, HEADER_SIZE, false;
    }

    /** is_safe_access. */
    predicate SafeAccess(bytes: nat)
      reads this
    {
      !overflow && bytes <= payload.Length - cursor
    }

    /** read_le_16 and read_le_64. */
    method ReadLe(n: nat) returns (value: nat)
      requires cursor <= payload.Length
      modifies this
      ensures if old(SafeAccess(n))
        then !overflow && cursor == old(cursor) + n && value == NumberAt(payload[..], old(cursor), n)
        else overflow && cursor == old(cursor) && value == 0
    {
      if !SafeAccess(n) {
        overflow := true;
        return 0;
      }
      value := NumberAt(payload[..], cursor, n);
      cursor := cursor + n;
    }

    /** safe_strlen: -1 and the overflow flag when the string does not end in the payload. */
    method SafeStrlen() returns (length: int)
      requires cursor <= payload.Length
      modifies this`overflow
      ensures var end := StringEnd(payload[..], cursor);
        if old(overflow) || end == None then overflow && length == -1
        else !overflow && length == end.value - cursor
    {
      assert payload[..][cursor..] == payload[cursor..];
      if overflow {
        return -1;
      }
      length := FirstNul(payload[cursor..]);
      if length == payload.Length - cursor {
        overflow := true;
        return -1;
      }
    }

    /** One string of bun_frame_read: its length, then the cursor past its NUL. */
    method ReadString() returns (text: seq<byte>)
      requires cursor <= payload.Length
      modifies this
      ensures var end := StringEnd(payload[..], old(cursor));
        if old(overflow) || end == None then overflow
        else !overflow && cursor == end.value + 1 && text == payload[..][old(cursor)..end.value]
      ensures old(cursor) <= cursor <= payload.Length
    {
      text := [];
      var length := SafeStrlen();
      if !overflow {
        text := payload[cursor..cursor + length];
        cursor := cursor + length + 1;
      }
    }

    /** The register records of bun_frame_read. */
    method ReadRegisters() returns (registers: seq<byte>)
      requires cursor <= payload.Length
      modifies this
      ensures var at := old(cursor) + 2;
        if old(overflow) || payload.Length < at
           || payload.Length < at + U16At(payload[..], old(cursor)) * REGISTER_SIZE then overflow
        else !overflow && cursor == at + U16At(payload[..], old(cursor)) * REGISTER_SIZE
             && registers == payload[..][at..cursor]
      ensures old(cursor) <= cursor <= payload.Length
    {
      hide NumberAt;
      registers := [];
      var count := ReadLe(2);
      if overflow {
        return;
      }
      if !SafeAccess(count * REGISTER_SIZE) {
        overflow := true;
        return;
      }
      if count > 0 {
        registers := payload[cursor..cursor + count * REGISTER_SIZE];
        cursor := cursor + count * REGISTER_SIZE;
      }
    }

    /** The reads of bun_frame_read between its two early exits and its error label. */
    method ReadFields() returns (r: Option<Frame>)
      requires Valid() && !overflow
      modifies this
      ensures Valid() && overflow == (r == None)
      ensures match ParseAt(payload[..], old(cursor))
        case None => r == None
        case Some((v, end)) => r == Some(v) && cursor == end
    {
      hide NumberAt, StringEnd;
      RangeValues();
      var addr := ReadLe(8);
      var lineNo := ReadLe(8);
      var offset := ReadLe(8);
      if overflow {
        return None;
      }
      var symbol := ReadString();
      if overflow {
        return None;
      }
      var filename := ReadString();
      if overflow {
        return None;
      }
      var registers := ReadRegisters();
      if overflow {
        return None;
      }
      r := Some(Frame(addr, lineNo, offset, symbol, filename, registers));
    }

    /** bun_frame_read. */
    method FrameRead() returns (r: Option<Frame>)
      requires Valid()
      modifies this
      ensures Valid()
      ensures (r, At()) == ReadSpec(payload[..], old(At()))
    {
      hide Parse, ParseAt, NumberAt;
      var initialCursor := cursor;
      if payload.Length == cursor {
        return None;
      }
      if U32At(payload[..], SIZE_FIELD) - cursor <= 0 {
        return None;
      }
      ParseAtShift(payload[..], cursor);
      if overflow {
        r := None;
      } else {
        r := ReadFields();
      }
      if r == None {
        cursor := initialCursor;
      }
    }

    /** The loop of bun_reader_print, which ends on every payload. */
    method ReadAll() returns (frames: seq<Frame>)
      requires Valid()
      modifies this
      ensures Valid()
      ensures frames == ReadFrames(payload[..], old(At()))
    {
      hide ReadSpec;
      frames := [];
      var r := FrameRead();
      while r != None
        invariant Valid()
        invariant frames + (if r == None then [] else [r.value] + ReadFrames(payload[..], At()))
               == ReadFrames(payload[..], old(At()))
        decreases r != None, payload.Length - cursor
      {
        frames := frames + [r.value];
        r := FrameRead();
      }
    }
  }

  lemma ParseAtShift(p: seq<byte>, c: nat)
    requires c <= |p|
    ensures match Parse(p[c..])
      case None => ParseAt(p, c) == None
      case Some((v, n)) => ParseAt(p, c) == Some((v, c + n))
  {
    hide U16At, U64At, StringEnd;
    if |p| < c + 24 {
      return;
    }
    var b := p[c..];
    StringShift(p, c, 24);
    if StringEnd(b, 24) == None {
      return;
    }
    var symbolEnd := StringEnd(b, 24).value;
    StringShift(p, c, symbolEnd + 1);
    if StringEnd(b, symbolEnd + 1) == None {
      return;
    }
    var filenameEnd := StringEnd(b, symbolEnd + 1).value;
    var names := filenameEnd + 1;
    if |b| < names + 2 {
      return;
    }
    U16Shift(p, c, names);
    var end := names + 2 + U16At(b, names) * REGISTER_SIZE;
    if |b| < end {
      return;
    }
    U64Shift(p, c, 0); U64Shift(p, c, 8); U64Shift(p, c, 16);
    assert b[24..symbolEnd] == p[c + 24..c + symbolEnd];
    assert b[symbolEnd + 1..filenameEnd] == p[c + symbolEnd + 1..c + filenameEnd];
    assert b[names + 2..end] == p[c + names + 2..c + end];
  }

  lemma StringShift(p: seq<byte>, c: nat, at: nat)
    requires c + at <= |p|
    ensures match StringEnd(p, c + at)
      case None => StringEnd(p[c..], at) == None
      case Some(end) => StringEnd(p[c..], at) == Some(end - c)
  {
    assert p[c..][at..] == p[c + at..];
  }
}
