/** The register records of a frame (src/bun_stream.c): a caller's buffer of 10-byte records
    that grows by appending and is read by index, before and after the frame travelled. */
module Registers {
  import opened Bytes
  import opened FrameFormat

  /** A register number as stored, and its value. */
  datatype Record = Record(register: uint16, value: uint64)

  function EncodeRecord(r: Record): (b: seq<byte>)
    ensures |b| == REGISTER_SIZE
  {
    Le(r.register, 2) + Le(r.value, 8)
  }

  function RecordAt(b: seq<byte>, i: nat): Record
    requires (i + 1) * REGISTER_SIZE <= |b|
  {
    Record(U16At(b, i * REGISTER_SIZE), U64At(b, i * REGISTER_SIZE + 2))
  }

  /** The records of a byte string, in order. */
  function Records(b: seq<byte>): (rs: seq<Record>)
    ensures |rs| == |b| / REGISTER_SIZE
    ensures forall i :: 0 <= i < |rs| ==> rs[i] == RecordAt(b, i)
  {
    seq(|b| / REGISTER_SIZE, i requires 0 <= i < |b| / REGISTER_SIZE => RecordAt(b, i))
  }

  /** Two bytes of number, then eight of value. */
  lemma RecordBytes(r: Record)
    ensures EncodeRecord(r)[0..2] == Le(r.register, 2) && EncodeRecord(r)[2..10] == Le(r.value, 8)
    ensures U16At(EncodeRecord(r), 0) == r.register && U64At(EncodeRecord(r), 2) == r.value
  {
    hide Le, NumberAt;
    var b := EncodeRecord(r);
    U16Stored(b, 0, r.register);
    U64Stored(b, 2, r.value);
  }

  lemma RecordStored(b: seq<byte>, r: Record)
    requires |b| % REGISTER_SIZE == 0
    ensures Records(b + EncodeRecord(r)) == Records(b) + [r]
  {
    hide Le, NumberAt;
    var c := b + EncodeRecord(r);
    var n := |b| / REGISTER_SIZE;
    assert c[n * REGISTER_SIZE..] == EncodeRecord(r);
    assert c[n * REGISTER_SIZE..n * REGISTER_SIZE + 2] == Le(r.register, 2);
    assert c[n * REGISTER_SIZE + 2..n * REGISTER_SIZE + 10] == Le(r.value, 8);
    U16Stored(c, n * REGISTER_SIZE, r.register);
    U64Stored(c, n * REGISTER_SIZE + 2, r.value);
    forall i | 0 <= i < n
      ensures RecordAt(c, i) == RecordAt(b, i)
    {
      RecordPrefix(b, c, i);
    }
  }

  lemma RecordPrefix(b: seq<byte>, c: seq<byte>, i: nat)
    requires b <= c && (i + 1) * REGISTER_SIZE <= |b|
    ensures RecordAt(c, i) == RecordAt(b, i)
  {
    var at := i * REGISTER_SIZE;
    assert b[at..at + 2] == c[at..at + 2] && b[at + 2..at + 10] == c[at + 2..at + 10];
  }

  /** What a run of appends leaves in a buffer of `capacity` bytes: as many as have room, the
      register numbers cut to 16 bits. */
  function Accepted(capacity: nat, appends: seq<(uint32, uint64)>): seq<Record>
  {
    if appends == [] then []
    else
      var before := Accepted(capacity, appends[..|appends| - 1]);
      if |before| >= capacity / REGISTER_SIZE then before else before + [Stored(appends[|appends| - 1])]
  }

  function Stored(append: (uint32, uint64)): Record
  {
    Record(append.0 % 0x1_0000, append.1)
  }

  lemma AcceptedNext(capacity: nat, appends: seq<(uint32, uint64)>, append: (uint32, uint64))
    ensures var before := Accepted(capacity, appends);
      Accepted(capacity, appends + [append])
        == if |before| >= capacity / REGISTER_SIZE then before else before + [Stored(append)]
  {
    assert (appends + [append])[..|appends|] == appends;
  }

  /** Exactly the first capacity / 10 appends succeed. */
  lemma {:induction false} AcceptedIsPrefix(capacity: nat, appends: seq<(uint32, uint64)>)
    ensures var n := if |appends| <= capacity / REGISTER_SIZE then |appends| else capacity / REGISTER_SIZE;
      && |Accepted(capacity, appends)| == n
      && forall i :: 0 <= i < n ==>
           Accepted(capacity, appends)[i] == Record(appends[i].0 % 0x1_0000, appends[i].1)
  {
    if appends != [] {
      AcceptedIsPrefix(capacity, appends[..|appends| - 1]);
    }
  }

  /** The registers of a bun_frame: the caller's buffer, its declared size, and the count. */
  class RegisterFile {
    const data: array<byte>
    const bufferSize: nat
    var count: nat
    ghost var appends: seq<(uint32, uint64)>

    ghost predicate Valid()
      reads this, data
    {
      && bufferSize <= data.Length && count * REGISTER_SIZE <= bufferSize
      && Contents() == Accepted(bufferSize, appends)
    }

    ghost function Contents(): seq<Record>
      requires count * REGISTER_SIZE <= data.Length
      reads this, data
    {
      Records(data[..count * REGISTER_SIZE])
    }

    constructor (buffer: array<byte>, size: nat)
      requires size <= buffer.Length
      ensures Valid() && data == buffer && bufferSize == size && appends == []
    {
      data, bufferSize, count, appends := buffer, size, 0, [];
    }

    /** bun_frame_register_append. */
    method Append(register: uint32, value: uint64) returns (ok: bool)
      requires Valid()
      modifies this, data
      ensures Valid() && appends == old(appends) + [(register, value)]
      ensures ok == (|old(Contents())| < bufferSize / REGISTER_SIZE)
      ensures Contents() == old(Contents()) + if ok then [Stored((register, value))] else []
      ensures data[..] ==
        if ok then Splice(old(data[..]), old(count) * REGISTER_SIZE, EncodeRecord(Stored((register, value))))
        else old(data[..])
    {
      hide Le, Accepted, Records, EncodeRecord, Splice;
      AcceptedNext(bufferSize, appends, (register, value));
      appends := appends + [(register, value)];
      var maxRegisters := 0;
      if bufferSize > 0 {
        maxRegisters := bufferSize / REGISTER_SIZE;
      }
      if count >= maxRegisters {
        return false;
      }
      Place(register % 0x1_0000, value);
      count := count + 1;
      return true;
    }

    /** The record after the last one. */
    method Place(register: uint16, value: uint64)
      requires (count + 1) * REGISTER_SIZE <= data.Length
      modifies data
      ensures Records(data[..(count + 1) * REGISTER_SIZE])
        == Records(old(data[..count * REGISTER_SIZE])) + [Record(register, value)]
      ensures data[..] == Splice(old(data[..]), count * REGISTER_SIZE, EncodeRecord(Record(register, value)))
    {
      hide Le, Records;
      ghost var before := data[..count * REGISTER_SIZE];
      Store(data, count * REGISTER_SIZE, Le(register, 2) + Le(value, 8));
      RecordStored(before, Record(register, value));
      assert data[..(count + 1) * REGISTER_SIZE] == before + EncodeRecord(Record(register, value));
    }

    /** bun_frame_register_get. */
    method Get(index: nat) returns (r: Option<Record>)
      requires Valid()
      ensures r == if index < |Contents()| then Some(Contents()[index]) else None
    {
      if index >= count {
        return None;
      }
      var at := index * REGISTER_SIZE;
      RecordPrefix(data[..count * REGISTER_SIZE], data[..], index);
      r := Some(Record(U16At(data[..], at), U64At(data[..], at + 2)));
    }
  }

  /** What `get` answers survives the frame's encoding and decoding, whatever follows it. */
  lemma RegistersTravel(f: BunFrame, rest: seq<byte>, i: nat)
    requires WellFormed(f) && i < f.registerCount
    ensures var b := Encode(Meaning(f)) + rest;
      && Parse(b).Some?
      && Parse(b).value.0.Count() == f.registerCount
      && Records(Parse(b).value.0.registers)[i] == RecordAt(f.registerData, i)
  {
    ParseEncode(Meaning(f), rest);
    var registers := f.registerData[..f.registerCount * REGISTER_SIZE];
    RecordPrefix(registers, f.registerData, i);
  }
}
