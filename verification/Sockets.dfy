/** A non-blocking stream socket as the kernel shows it to one process: every call takes
    some nonempty part of what is there, or is interrupted, or would block. */
module Sockets {
  import opened Bytes

  /** What read(2) reports; no data means end of file or a read of no bytes. */
  datatype ReadResult = Data(bytes: seq<byte>) | ReadAgain | ReadInterrupted

  datatype WriteResult = Wrote(n: nat) | WriteAgain | WriteInterrupted

  class Socket {
    /** Bytes that can be read now, and bytes the peer has yet to get across. */
    var unread: seq<byte>
    var coming: seq<byte>
    /** Whether the peer closes after its last byte. */
    const closes: bool
    var output: seq<byte>
    /** Free space for output, and the space the peer has yet to make. */
    var space: nat
    var spaceComing: nat
    /** Signals still to be delivered to this process. */
    var signals: nat

    constructor (input: seq<byte>, closes: bool, space: nat, spaceComing: nat, signals: nat)
      ensures Stream() == input && output == [] && this.closes == closes
      ensures this.space == space && this.spaceComing == spaceComing && this.signals == signals
    {
      unread, coming := [], input;
      this.closes := closes;
      output := [];
      this.space, this.spaceComing, this.signals := space, spaceComing, signals;
    }

    /** All the input there will be. */
    function Stream(): seq<byte>
      reads this
    {
      unread + coming
    }

    /** Between two calls the peer may get some bytes across, or read some. */
    method Meanwhile()
      modifies this`unread, this`coming, this`space, this`spaceComing
      ensures Stream() == old(Stream()) && |coming| <= old(|coming|)
      ensures old(space) <= space && space + spaceComing == old(space + spaceComing)
    {
      var n: nat :| n <= |coming|;
      unread, coming := unread + coming[..n], coming[n..];
      var m: nat :| m <= spaceComing;
      space, spaceComing := space + m, spaceComing - m;
    }

    /** read(2). */
    method Read(n: nat) returns (r: ReadResult)
      modifies this`unread, this`coming, this`space, this`spaceComing, this`signals
      ensures match r
        case Data(bytes) =>
          && old(Stream()) == bytes + Stream() && |bytes| <= n && signals == old(signals)
          && (bytes == [] ==> n == 0 || (closes && Stream() == []))
        case ReadAgain => n > 0 && old(unread) == [] == unread && Stream() == old(Stream()) && signals == old(signals)
                          && (closes ==> Stream() != [])
        case ReadInterrupted => n > 0 && Stream() == old(Stream()) && signals < old(signals)
      ensures n == 0 ==> r == Data([])
      ensures |coming| <= old(|coming|)
      ensures old(space) <= space && space + spaceComing == old(space + spaceComing)
    {
      Meanwhile();
      if n == 0 {
        return Data([]);
      }
      if signals > 0 {
        if * {
          signals := signals - 1;
          return ReadInterrupted;
        }
      }
      if unread == [] {
        return if closes && coming == [] then Data([]) else ReadAgain;
      }
      var k: nat :| 1 <= k <= n && k <= |unread|;
      r := Data(unread[..k]);
      unread := unread[k..];
    }

    /** write(2) of at least one byte. */
    method Write(bytes: seq<byte>) returns (r: WriteResult)
      requires bytes != []
      modifies this`unread, this`coming, this`output, this`space, this`spaceComing, this`signals
      ensures Stream() == old(Stream()) && |coming| <= old(|coming|)
      ensures match r
        case Wrote(n) =>
          && 1 <= n <= |bytes| && output == old(output) + bytes[..n] && signals == old(signals)
          && old(space) <= space + n && space + spaceComing + n == old(space + spaceComing)
        case WriteAgain =>
          && output == old(output) && signals == old(signals)
          && old(space) == 0 == space && space + spaceComing == old(space + spaceComing)
        case WriteInterrupted =>
          && output == old(output) && signals < old(signals)
          && old(space) <= space && space + spaceComing == old(space + spaceComing)
    {
      Meanwhile();
      if signals > 0 {
        if * {
          signals := signals - 1;
          return WriteInterrupted;
        }
      }
      if space == 0 {
        return WriteAgain;
      }
      var n: nat :| 1 <= n <= |bytes| && n <= space;
      output, space := output + bytes[..n], space - n;
      r := Wrote(n);
    }

    /** bcd_io_fd_wait for input: false is a timeout. */
    method WaitReadable() returns (ready: bool)
      modifies this`unread, this`coming, this`space, this`spaceComing
      ensures Stream() == old(Stream()) && |coming| <= old(|coming|)
      ensures ready <==> unread != [] || (closes && coming == [])
      ensures old(space) <= space && space + spaceComing == old(space + spaceComing)
    {
      Meanwhile();
      ready := unread != [] || (closes && coming == []);
    }

    /** bcd_io_fd_wait for output. */
    method WaitWritable() returns (ready: bool)
      modifies this`unread, this`coming, this`space, this`spaceComing
      ensures Stream() == old(Stream()) && |coming| <= old(|coming|)
      ensures ready <==> space > 0
      ensures old(space) <= space && space + spaceComing == old(space + spaceComing)
    {
      Meanwhile();
      ready := space > 0;
    }
  }

  /** bcd_io_fd_read: n bytes, 0 at end of file, or -1 on a timeout, which needs that nothing can
      be read. */
  method FdRead(fd: Socket, n: nat) returns (ret: int, bytes: seq<byte>)
    requires n > 0
    modifies fd`unread, fd`coming, fd`space, fd`spaceComing, fd`signals
    ensures old(fd.Stream()) == bytes + fd.Stream() && |bytes| <= n
    ensures ret == n <==> |bytes| == n
    ensures ret == 0 ==> fd.closes && fd.Stream() == []
    ensures ret == -1 ==> fd.unread == [] && !(fd.closes && fd.coming == [])
    ensures old(|fd.unread|) >= n ==> ret == n
    ensures ret == n || ret == 0 || ret == -1
    ensures |fd.coming| <= old(|fd.coming|)
  {
    bytes := [];
    var waited := false;
    while true
      invariant old(fd.Stream()) == bytes + fd.Stream() && |bytes| < n
      invariant |fd.coming| <= old(|fd.coming|)
      invariant waited ==> fd.unread != [] || (fd.closes && fd.coming == [])
      decreases n - |bytes|, fd.signals, !waited
    {
      var r := fd.Read(n - |bytes|);
      match r
      case ReadInterrupted =>
        waited := false;
        continue;
      case ReadAgain =>
        var ready := fd.WaitReadable();
        if !ready {
          return -1, bytes;
        }
        waited := true;
        continue;
      case Data(more) =>
        if more == [] {
          return 0, bytes;
        }
        bytes := bytes + more;
        waited := false;
        if |bytes| == n {
          return n, bytes;
        }
    }
  }

  /** bcd_io_fd_write: all of it, or -1 on a timeout, with only a part delivered and no room for
      more. */
  method FdWrite(fd: Socket, bytes: seq<byte>) returns (ret: int)
    requires bytes != []
    modifies fd`unread, fd`coming, fd`output, fd`space, fd`spaceComing, fd`signals
    ensures fd.Stream() == old(fd.Stream()) && |fd.coming| <= old(|fd.coming|)
    ensures ret == |bytes| || ret == -1
    ensures ret == -1 ==> fd.space == 0
    ensures old(fd.space) >= |bytes| ==> ret == |bytes|
    ensures ret == |bytes| ==> fd.output == old(fd.output) + bytes
    ensures ret == -1 ==> exists k :: 0 <= k < |bytes| && fd.output == old(fd.output) + bytes[..k]
  {
    var ac := 0;
    var waited := false;
    while true
      invariant 0 <= ac < |bytes| && fd.output == old(fd.output) + bytes[..ac]
      invariant fd.Stream() == old(fd.Stream()) && |fd.coming| <= old(|fd.coming|)
      invariant waited ==> fd.space > 0
      invariant old(fd.space) <= fd.space + ac
      decreases |bytes| - ac, fd.signals, !waited
    {
      var r := fd.Write(bytes[ac..]);
      match r
      case WriteInterrupted =>
        waited := false;
        continue;
      case WriteAgain =>
        var ready := fd.WaitWritable();
        if !ready {
          return -1;
        }
        waited := true;
        continue;
      case Wrote(n) =>
        assert bytes[..ac] + bytes[ac..][..n] == bytes[..ac + n];
        ac := ac + n;
        waited := false;
        if ac == |bytes| {
          assert bytes[..ac] == bytes;
          return ac;
        }
    }
  }
}
