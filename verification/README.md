# Frame stream and monitor protocol: a verified model

Two components of the repository are modelled and proved.

**The frame stream codec** (`src/bun_stream.c`, on an LP64 little-endian host). A writer serialises stack
frames into a fixed buffer behind a 24-byte header; a reader takes them back out of untrusted bytes.

- `Bytes.dfy`: little-endian numbers and NUL-terminated strings; `Sequences.dfy`: lists without duplicates (shared with the ready list).
- `FrameFormat.dfy`: one frame's byte format as a printer and a parser, with the laws between them.
- `FrameStream.dfy`: buffer, writer and reader as classes that update cursor, overflow flag and payload in place.
- `FrameRuns.dfy`: what whole runs deliver: the exact drift of the size field, truncation, termination.
- `Registers.dfy`: the 10-byte register records, before and after the frame travelled.
- `WriteOnce.dfy`: the write-once gate under every interleaving of its atomic accesses.

**The monitor protocol** (`external/bcd/bcd-amalgamated.c`). Clients send length-prefixed requests over stream
sockets and wait for an 8-byte acknowledgement. One monitor thread runs an edge-triggered loop, reassembles
requests from short reads, updates a key-value list and an argument list, and flattens them into the tracer's
argument vector.

- `Packets.dfy`: the packets of every client call, and how payloads read back.
- `Sockets.dfy`: a non-blocking socket that may take any nonempty part, be interrupted or block; the two
  `bcd_io_fd_*` loops on it.
- `Clients.dfy`: the client calls, each building its packet in a buffer and awaiting the acknowledgement.
- `Sessions.dfy`: reassembly, performing and acknowledging, on one session's buffer.
- `Stores.dfy`: the two lists with their counters, and what any history of updates leaves in them.
- `Argv.dfy`: the 32-slot argument vector; `ArgvReadBack.dfy` what can be read back from its strings.
- `ReadyList.dfy`: the ready list and one dispatch pass over it; `Passes.dfy` where a pass stands, over any events.
- `Monitor.dfy`: any number of clients, the kernel and the monitor as one step machine; `Connections.dfy` and
  `MonitorInv.dfy` its invariant; `MonitorSafety.dfy` that every step keeps it; `MonitorTheorems.dfy` the safety
  theorems; `MonitorPasses.dfy` what one dispatch pass enters; `MonitorProgress.dfy` no deadlock, and a bound on all work; `MonitorTraces.dfy` that every trace
  performed fits its argument vector; `MonitorExit.dfy` the exact condition on which the monitor ends, and that
  every call returns otherwise; `MonitorCompletion.dfy` that every call can be completed; `MonitorWitnesses.dfy`
  runs showing that the theorems' conditions cannot be dropped.

## How the machine is read

Every system call of either side is a step of `Monitor.Step`, and what the code does between two calls belongs to
the earlier one. Any step that `Monitor.Enabled` allows may come next, so a statement over `Run` or `Reachable`
is about every schedule, every pattern of short reads and writes, and every timing of edges. `epoll_wait` is one
`Deliver` step per reported event followed by `Dispatch`. `Setup` holds the two socket capacities and the
tracer's configuration. `log` lists the
packets performed; it is not state of the program. A client may close its end at any moment without a detach
(`Vanish`: it died, or a write of its timed out and the call closed the channel); what it sent can still be read,
then the monitor sees the end of the stream, and a write to it fails. A trace whose argument vector does not fit
puts the monitor into `Over(Overrun)`: the code stores past the vector, and nothing is said of it any more.

## Where code and documentation part

- `include/bun/stream.h:179` says that `bun_buffer_init` sets the buffer to 0. The code clears the first 40 bytes;
  `FrameStream.Buffer.Init` leaves the rest arbitrary and every reader theorem holds for any residue.
- `bun_frame_write` accounts for 2 bytes less than it writes. The header's size therefore falls behind by two per
  frame, and a reader can lose the last frames: `FrameRuns.AllDelivered` says exactly when, and thirteen frames of
  less than 2^32 bytes are always safe. The capacity test passes with up to two bytes too few: `FrameRuns.GapIsExact`.
- An acknowledgement means that the request was performed, not that it succeeded: an empty key or argument is
  refused and acknowledged (`Stores.PerformRequest`).
- `bcd_read_request` resumed after exactly eight bytes reads nothing and exits the monitor, although no client
  misbehaved: `MonitorWitnesses.SplitHeaderKills` is such a run for every request with a payload. The pause is
  fatal in every run (`MonitorExit.PauseIsFatal`), and so is a client that closes its end before its session is
  freed, and so is a trace with too many arguments. With clients that send the packets of the client calls nothing
  else ends the monitor: `MonitorExit.ExitIff` is the exact condition. Other peers can also end it with an oversized
  length or with the operation of a fatal error; `Sessions.HandleRequest` says when, about any input.
- `BCD_SESSION_WRITING` is never assigned, so a half-written acknowledgement would be forgotten. That cannot come
  about exactly when a socket has room for the eight bytes of one: `MonitorWitnesses.AckWaitsIff`.
- In separator mode `bcd_kv_get` ignores the room it is given: `Argv.FitsIsExact` gives the exact condition for
  the vector to hold everything, and 27 arguments always satisfy it. Thirty distinct arguments and a trace of the
  process overrun it in every configuration (`MonitorWitnesses.ThirtyArgumentsOverrun`).
- `last` in `bun_writer_init` is an int: the gate holds for the first 2^31 calls and fails at the next one
  (`WriteOnce.ExactlyOnePasses`).

## Model

| member | source | states |
|---|---|---|
| FrameFormat.InZeroedMeans | src/bun_stream.c:216-250 | a frame read into a zeroed struct is a well-formed frame to write, with the same meaning |
| FrameFormat.EncodeLaid | src/bun_stream.c:178-194 | an encoded frame lies in memory field by field in the order of the writes |
| FrameFormat.LaidEncode | src/bun_stream.c:178-194 | bytes laid out so are the encoding |
| FrameFormat.ParseLaid | src/bun_stream.c:216-250 | reading a valid laid-out frame gives that frame and its length |
| FrameFormat.LaidParse | src/bun_stream.c:216-250 | whatever reads at all is a valid frame laid out where it was read |
| FrameFormat.ParseEncode | src/bun_stream.c:178-250 | write then read is the identity, whatever bytes follow |
| FrameFormat.EncodeParse | src/bun_stream.c:178-250 | canonical encoding: read then write reproduces the consumed bytes, from any bytes |
| FrameFormat.PrefixFree | src/bun_stream.c:178-194 | no frame's encoding is a prefix of another's; encoding is injective |
| FrameFormat.ParseExtends | src/bun_stream.c:337-347 | a frame that reads from a cut of the bytes reads the same from all of them |
| FrameFormat.NamesAlone | src/bun_stream.c:234-242 | a frame cut before its register count never reads |
| FrameFormat.FieldsAt | src/bun_stream.c:178-194 | in an encoded frame each field lies at its own offset and reads back: three numbers, two strings with their NULs, the count, the registers |
| Bytes.LeBytes | src/bun_stream.c:364-376 | byte i of a stored number is the number divided by 256^i, modulo 256 |
| FrameStream.Buffer.Init | src/bun_stream.c:53-66 | refuses less than 40 bytes; otherwise clears exactly the first 40, the payload header included |
| FrameStream.Buffer.Admit | src/bun_stream.c:94-106 | owner and count after every outcome: refuses exactly a foreign handle or a count that reads positive as an int; each gated call adds one, modulo 2^32 |
| FrameStream.Writer.Init | src/bun_stream.c:84-124 | fails exactly on a foreign handle or a spent write-once count, and says what becomes of both; otherwise stores magic, version, architecture, size, thread and backend, each at its offset, and nothing else |
| FrameStream.HeaderFields | src/bun_stream.c:109-121 | the 22 bytes stored read back field by field, each at its own offset |
| FrameStream.Writer.WriteLe | src/bun_stream.c:364-408 | stores and advances when there is room and no overflow, otherwise only sets the flag |
| FrameStream.Writer.WriteString | src/bun_stream.c:182-186 | stores text and NUL and moves past them |
| FrameStream.Writer.WriteBody | src/bun_stream.c:178-194 | inside its buffer, stores the frame's encoding, or all but the count when fewer than two bytes are left for it |
| FrameStream.Writer.WriteCount | src/bun_stream.c:188-194 | count and records, or the overflow flag |
| FrameStream.Writer.AddToSize | src/bun_stream.c:196 | adds to the 32-bit size field, modulo 2^32, and changes nothing else |
| FrameStream.Writer.FrameWrite | src/bun_stream.c:148-198 | returns 0 and changes nothing when `would` does not fit, else appends the frame, moves the cursor over exactly the stores of the frame, and keeps the record of all frames written; bytes past the cursor stay |
| FrameStream.StoredEndIs | src/bun_stream.c:178-194 | of the sequence of checked and unchecked stores only the register count can be dropped, and the records are copied regardless |
| FrameStream.WrittenNext | src/bun_stream.c:148-198 | the payload invariant of a writer survives one more frame, whole or cut |
| FrameStream.Reader.Init | src/bun_stream.c:126-146 | opens exactly on a payload with room for a header and the magic number |
| FrameStream.Reader.ReadLe | src/bun_stream.c:349-393 | the number at the cursor, or 0 and the sticky flag, never outside the payload |
| FrameStream.Reader.SafeStrlen | src/bun_stream.c:417-434 | the length of the string at the cursor, or -1 and the flag if it does not end in the payload |
| FrameStream.Reader.ReadString | src/bun_stream.c:222-232 | the string and the cursor past its NUL, or the flag |
| FrameStream.Reader.ReadRegisters | src/bun_stream.c:234-248 | count and records, or the flag if they do not all lie in the payload |
| FrameStream.Reader.ReadFields | src/bun_stream.c:216-250 | the fields in order are the parse of the bytes at the cursor |
| FrameStream.Reader.FrameRead | src/bun_stream.c:200-255 | on any bytes: refuses at the end or past the size field, else parses; a failed read restores the cursor |
| FrameStream.Reader.ReadAll | src/bun_stream.c:436-455 | the print loop ends on every payload and delivers exactly the frames of the specification |
| FrameStream.ParseAtShift | src/bun_stream.c:200-255 | reading by positions in the payload is parsing the rest of it |
| FrameRuns.ReadOnce | src/bun_stream.c:200-255 | nothing is read after an overflow, at the end, or from the size field on; a success advances by 28+symbol+filename+10*count over the frame's own encoding; a failure is final: every later read fails in place |
| FrameRuns.ReadFramesCover | src/bun_stream.c:436-455 | on arbitrary bytes and size, the frames read are valid, tile the bytes passed over, and number at most (size-24)/28 |
| FrameRuns.Truncation | src/bun_stream.c:200-255 | cutting the payload after its header leaves a prefix of the frames |
| FrameRuns.Lag | src/bun_stream.c:171-197 | bytes written exceed bytes accounted for by exactly two per frame |
| FrameRuns.ReadAtBoundary | src/bun_stream.c:148-255 | one read at frame k's boundary gives frame k exactly while the 32-bit size field is ahead of the cursor |
| FrameRuns.DeliversIff | src/bun_stream.c:171-212 | while the size field has not wrapped, that is exactly when 2k is below what the frames from k on account for |
| FrameRuns.ReadFromBoundary | src/bun_stream.c:148-255 | the same for the read loop from any boundary |
| FrameRuns.RoundTrip | src/bun_stream.c:148-255 | after any writes, of any total size, a fresh reader returns a prefix of the frames, frame k in it iff the size field is ahead of its cursor; below 2^32 iff 2k < sum of would from k on; whatever residue follows |
| FrameRuns.AllDelivered | src/bun_stream.c:148-255 | every frame comes back iff the last one does; below 2^32 iff 2(n-1) < would(last) |
| FrameRuns.ThirteenSurvive | src/bun_stream.c:148-255 | thirteen frames of less than 2^32 bytes all come back |
| FrameRuns.FourteenDoNot | src/bun_stream.c:171-173 | fourteen empty frames come back as thirteen |
| FrameRuns.WrappedLosesAll | src/bun_stream.c:196-212 | a size field that wraps to 24 or less loses every frame |
| FrameRuns.GapIsExact | src/bun_stream.c:171-194 | the stores that pass the capacity test stay inside the buffer iff the frame fits with its two uncounted bytes or has no registers; otherwise they end two bytes after what was counted |
| FrameRuns.CutFrameIsLost | src/bun_stream.c:171-194 | a frame accepted without room for its count is never read back |
| Registers.RegisterFile.Append | src/bun_stream.c:289-313 | succeeds iff a whole record has room; adds exactly one record, the number cut to 16 bits, and touches only its ten bytes |
| Registers.RegisterFile.Get | src/bun_stream.c:317-335 | the i-th record, or none beyond the count |
| Registers.RecordStored | src/bun_stream.c:302-310 | storing a record behind others adds it to the records read back |
| Registers.RecordBytes | src/bun_stream.c:302-310 | a record is its number in two bytes and then its value in eight, and both read back |
| Registers.AcceptedIsPrefix | src/bun_stream.c:289-313 | of any sequence of appends exactly the first capacity/10 are kept, in order, each with its number modulo 2^16 and its value |
| Registers.RegistersTravel | src/bun_stream.c:188-248 | the same records are found after the frame was written and read, whatever follows it |
| WriteOnce.StepKeepsInv | src/bun_stream.c:93-106 | every atomic access keeps count, tickets and publishers consistent, the counter's wrap included |
| WriteOnce.ReachableInv | src/bun_stream.c:93-106 | so it holds under every interleaving |
| WriteOnce.ExactlyOnePasses | src/bun_stream.c:84-124 | when all of n > 0 calls returned, exactly one succeeded and alone stored a header, iff n <= 2^31 |
| WriteOnce.NeverTwo | src/bun_stream.c:84-124 | at no moment before that have two calls succeeded |
| Packets.HeaderReads | external/bcd/bcd-amalgamated.c:782-786 | op and length read back from any front part of a packet that holds the header |
| Packets.WireBytes | external/bcd/bcd-amalgamated.c:757-786 | the bytes of every call and of the acknowledgement: operation and length, four bytes each, then the payload |
| Packets.PacketRoundTrip | external/bcd/bcd-amalgamated.c:1115-1123 | a packet reads back as itself and no proper front part passes for a whole packet |
| Packets.PacketPrefixFree | external/bcd/bcd-amalgamated.c:1885-1944 | packets laid end to end split in one way only |
| Packets.KvAccepts | external/bcd/bcd-amalgamated.c:1350-1373 | a payload is accepted as (k, v) iff it is k NUL v NUL rest with k nonempty and both NUL-free |
| Packets.KvRoundTrip | external/bcd/bcd-amalgamated.c:1999-2019 | what bcd_kv builds decodes to its arguments, and is refused iff the key is empty |
| Packets.ArgRoundTrip | external/bcd/bcd-amalgamated.c:2031-2050 | what bcd_arg builds decodes to its argument, and is refused iff empty |
| Packets.TidRoundTrip | external/bcd/bcd-amalgamated.c:2447-2453 | the thread id survives its packet |
| Sockets.FdRead | external/bcd/bcd-amalgamated.c:2992-3026 | takes bytes off the stream in order under any short reads, interruptions and waits: n exactly when it returns n, as it does when n were unread; -1 only with nothing left to read |
| Sockets.FdWrite | external/bcd/bcd-amalgamated.c:3028-3062 | writes everything, as it does when there was room for it; or returns -1 with a proper front part written and no room for more |
| Clients.PacketWrite | external/bcd/bcd-amalgamated.c:1115-1123 | the buffer with its length stored goes out as the packet's encoding; it fails only without room |
| Clients.ReadAck | external/bcd/bcd-amalgamated.c:1184-1220 | 0 iff eight bytes were taken and say OK, as when they were unread; it fails only on another answer, at the end of the stream, or with nothing to read |
| Clients.Transact | external/bcd/bcd-amalgamated.c:2019-2028 | 0 iff the request was written whole and then acknowledged; it fails only for want of room or of an answer, and with room and the acknowledgement unread returns 0 |
| Clients.Kv | external/bcd/bcd-amalgamated.c:1999-2029 | too long a pair is refused untouched; otherwise the call's packet is written and its answer decides, a failed write closes, and a call with room and its acknowledgement unread returns 0 |
| Clients.Arg | external/bcd/bcd-amalgamated.c:2031-2059 | the same for an argument |
| Clients.AssociateTid | external/bcd/bcd-amalgamated.c:2434-2464 | an unattached client is refused; otherwise the same for a thread id |
| Clients.Backtrace | external/bcd/bcd-amalgamated.c:1495-1515 | the same for a trace request |
| Clients.Detach | external/bcd/bcd-amalgamated.c:2534-2569 | an unattached client succeeds at once; otherwise the same for a detach, and the channel is closed |
| Sessions.Session.constructor | external/bcd/bcd-amalgamated.c:1125-1133 | an accepted session starts cleared |
| Sessions.Session.ReadRequest | external/bcd/bcd-amalgamated.c:1885-1944 | on any input, however it is chopped: completes with exactly one packet taken, as it does whenever that packet has arrived, or pauses with every byte kept and nothing left to read; resumed at eight bytes, or at the end of the stream, it ends a session that was to end and kills the monitor otherwise, as an oversized packet does |
| Sessions.ReadStep | external/bcd/bcd-amalgamated.c:1925-1936 | one read never runs past the current packet |
| Sessions.Reassemble | external/bcd/bcd-amalgamated.c:1885-1944 | chunking independence: repeated calls yield exactly the packets sent, in order; each that had arrived is delivered, one a call; they stop early only after a pause at eight bytes, or at the end of the stream with everything delivered |
| Sessions.Session.WriteAck | external/bcd/bcd-amalgamated.c:1143-1182 | writes the rest of an acknowledgement, or stops with the offset kept only when the socket is full; never with eight bytes of room |
| Sessions.PerformRequest | external/bcd/bcd-amalgamated.c:1805-1834 | the stores change by the packet's meaning and nothing else; thread id and termination follow the operation; a trace of a thread hands over the vector with the session's own thread, a trace of the process or a fatal error the one without, any other operation none; exits iff the operation is that of a fatal error |
| Sessions.Trace | external/bcd/bcd-amalgamated.c:1713-1803 | hands over path, arguments, process, perhaps the thread, options and NULL, slot by slot, iff the handler admits it and each checked allocation succeeds |
| Sessions.PerformedIsPacket | external/bcd/bcd-amalgamated.c:1450-1459 | reading an argument to its NUL in the buffer is reading it in the packet, when it has one |
| Sessions.HandleRequest | external/bcd/bcd-amalgamated.c:1836-1883 | one handler call on any input leaves all as it was with nothing left to read, or performs the front packet once, hands over the vector it asks for, and acknowledges it, or frees a session that had ended, or exits; it never parks over a packet that has arrived; unless it parks, it exits iff the read gets nothing, the packet is oversized, or its operation is that of a fatal error, and then the stores are kept and nothing is written |
| Sessions.Respond | external/bcd/bcd-amalgamated.c:1859-1880 | the rest of the handler on a packet that was read: one perform, with its vector, and one acknowledgement |
| Sessions.SoundFront | external/bcd/bcd-amalgamated.c:1885-1944 | on a stream that begins with a client's packet the front is that packet, and the read fails iff resumed at eight bytes |
| Stores.KvStore.Scan | external/bcd/bcd-amalgamated.c:1359-1375 | the checks find exactly the pair the packet's own bytes carry, whatever lies behind them |
| Stores.KvStore.Insert | external/bcd/bcd-amalgamated.c:1384-1405 | list surgery and counters give the list after one more set |
| Stores.KvStore.Set | external/bcd/bcd-amalgamated.c:1350-1410 | accepts iff well-formed and memory allows; a refusal changes nothing |
| Stores.KvAfterIsLatest | external/bcd/bcd-amalgamated.c:1387-1402 | after any history the list is the pairs not overwritten since, most recently set first |
| Stores.KvAfterLooksUp | external/bcd/bcd-amalgamated.c:1387-1402 | keys are distinct and each key has the value set last |
| Stores.ArgStore.Set | external/bcd/bcd-amalgamated.c:1450-1493 | accepts iff nonempty and memory allows; moves the text to the end; a refusal changes nothing |
| Stores.ArgsAfterInOrder | external/bcd/bcd-amalgamated.c:1470-1486 | after any history the list is each text once, in order of last setting |
| Stores.ArgsAfterDistinct | external/bcd/bcd-amalgamated.c:1470-1486 | no text twice |
| Stores.PerformRequest | external/bcd/bcd-amalgamated.c:1805-1834 | performing a client's packet does to the stores what the call means |
| Argv.JoinLength | external/bcd/bcd-amalgamated.c:1318-1339 | the joined options are exactly bcd_kv_length + bcd_kv_count - 1 bytes |
| Argv.JoinedString | external/bcd/bcd-amalgamated.c:1311-1339 | prefix and join with NUL, one byte less than allocated; nothing without memory |
| Argv.KvGet | external/bcd/bcd-amalgamated.c:1276-1348 | stores exactly the option strings of either mode after what was there, or -1 iff an allocation fails |
| Argv.KvGetEach | external/bcd/bcd-amalgamated.c:1297-1310 | one string per pair up to the limit, or -1 iff an allocation fails |
| ArgvReadBack.EntryReads | external/bcd/bcd-amalgamated.c:1302-1303 | an option is key, ks, value, and cut at its first ks is the pair again when ks is not in the key |
| ArgvReadBack.JoinReads | external/bcd/bcd-amalgamated.c:1318-1339 | joined options split at the separator are the options of all pairs, in order, when the separator is in no key or value |
| ArgvReadBack.OptionsRead | external/bcd/bcd-amalgamated.c:1276-1348 | in either mode, from the strings of the vector alone: one prefixed string a pair, or one prefixed string of all, gives back the pairs in order |
| ArgvReadBack.DecimalReads | external/bcd/bcd-amalgamated.c:1742-1750 | the thread as written is digits without a leading zero that read back as its number |
| Argv.ArgGet | external/bcd/bcd-amalgamated.c:1412-1448 | the first arguments in order, up to the limit, or -1 iff an allocation fails |
| Argv.FitsIsExact | external/bcd/bcd-amalgamated.c:1713-1803 | every slot those stores fill lies in the 32 of the vector iff a condition on counts and modes |
| Argv.EveryVector | external/bcd/bcd-amalgamated.c:1713-1803 | whether it fits or not, the layout slot by slot: path, the first thirty arguments, process, thread, the options the code takes room for, NULL |
| Argv.FittingVector | external/bcd/bcd-amalgamated.c:1713-1803 | if it fits, it holds every argument, and as many options as slots remain |
| Argv.UpTo27 | external/bcd/bcd-amalgamated.c:1713-1803 | with at most 27 arguments it always does, and the vector is path, arguments, process, thread, options, NULL |
| Argv.TwentyEightDoNotFit | external/bcd/bcd-amalgamated.c:1713-1765 | 28 arguments with thread option and joined pairs store one slot too many |
| Argv.BuildHead | external/bcd/bcd-amalgamated.c:1728-1752 | the part before the options, or failure iff an allocation fails |
| Argv.BuildArgv | external/bcd/bcd-amalgamated.c:1713-1803 | in a stack of any size that holds the layout, both backtrace functions store exactly its slots and touch no other, iff the handler admits the request and the checked allocations succeed; an unchecked copy of the path may leave its slot null |
| ReadyLists.ReadyList.Add | external/bcd/bcd-amalgamated.c:3118-3128 | links at the tail unless linked; the flag means linked and links stay unique |
| ReadyLists.ReadyList.Remove | external/bcd/bcd-amalgamated.c:3130-3140 | unlinks the one occurrence, or nothing |
| ReadyLists.ReadyList.CallHandler | external/bcd/bcd-amalgamated.c:3157-3163 | a handler's effect on the list, from what its system calls came to: a session goes the way of its fate, the listener adds newcomers at the tail and unlinks itself unless accept failed |
| ReadyLists.ReadyList.ListenerAccept | external/bcd/bcd-amalgamated.c:3200-3238 | links exactly the watched arrivals at the tail, and unlinks the listener unless accept failed otherwise than on an empty queue |
| ReadyLists.ReadyList.Finish | external/bcd/bcd-amalgamated.c:1847-1880 | open stays linked, parked and blocked are unlinked, freed is unlinked and gone |
| ReadyLists.ReadyList.Accept | external/bcd/bcd-amalgamated.c:3212-3235 | links each arrival that gets an event and is watched once, at the tail, in order; the others leave no trace |
| ReadyLists.ReadyList.Turn | external/bcd/bcd-amalgamated.c:3157-3163 | one round runs the current event's handler and goes on to the successor, although the handler may unlink or free the event |
| ReadyLists.ReadyList.Dispatch | external/bcd/bcd-amalgamated.c:3149-3166 | from what each call comes to: every event linked at the start is called exactly once in order, then the newcomers unless the listener stood last, up to a call that exits; linked afterwards are exactly the called events that stay, in order, and then those not called; freed are exactly those whose session ended |
| Connections.BeginOk | external/bcd/bcd-amalgamated.c:1999-2029 | a new call keeps the connection invariant |
| Connections.SendOk | external/bcd/bcd-amalgamated.c:3028-3062 | so does any short write of the client |
| Connections.ReceiveOk | external/bcd/bcd-amalgamated.c:1184-1220 | so does any short read of an acknowledgement, which always says OK and completes the latest call |
| Connections.ReceivedIsFront | external/bcd/bcd-amalgamated.c:1885-1944 | what a session holds is a proper front part of its client's one outstanding request |
| Connections.PerformOk | external/bcd/bcd-amalgamated.c:1942-1943 | a completed read holds exactly that request and leaves nothing unread |
| Connections.AckTraffic | external/bcd/bcd-amalgamated.c:1143-1182 | bytes of the acknowledgement written are those read plus those in the channel |
| Connections.FreeOk | external/bcd/bcd-amalgamated.c:1875-1880 | a session is freed after its acknowledgement was written in full |
| MonitorInv.SplitAt | external/bcd/bcd-amalgamated.c:3130-3140 | unlinking one event of a duplicate-free list removes exactly it |
| MonitorInv.LinkNext | external/bcd/bcd-amalgamated.c:3157-3163 | a newcomer does not disturb the successor the loop captured |
| MonitorInv.ReturnOk | external/bcd/bcd-amalgamated.c:3157-3163 | returning from a handler into the next keeps the invariant |
| MonitorInv.EnterOk | external/bcd/bcd-amalgamated.c:1889-1893 | a handler starts with the right length for what it holds, unless it holds exactly a header |
| MonitorSafety.ConnectKeeps | external/bcd/bcd-amalgamated.c:2466-2500 | connecting keeps the invariant |
| MonitorSafety.AcceptKeeps | external/bcd/bcd-amalgamated.c:3212-3235 | accepting keeps the invariant, with or without an edge |
| MonitorSafety.DeliverKeeps | external/bcd/bcd-amalgamated.c:3434-3439 | reporting an edge keeps the invariant |
| MonitorSafety.UnlinkAndReturn | external/bcd/bcd-amalgamated.c:1848-1852 | a handler that found nothing to read may unlink itself |
| MonitorSafety.ReadCases | external/bcd/bcd-amalgamated.c:1925-1936 | a read leaves a proper part of the request with its length, or exactly all of it |
| MonitorSafety.ReadKeeps | external/bcd/bcd-amalgamated.c:1885-1944 | reading keeps the invariant, and the log grows by exactly the completed request |
| MonitorSafety.PerformLogged | external/bcd/bcd-amalgamated.c:1805-1834 | log, stores and every client's share of the log stay in step |
| MonitorSafety.VanishKeeps | external/bcd/bcd-amalgamated.c:2021-2026 | a client that closes its end early keeps the invariant |
| MonitorSafety.ReadNothingKeeps | external/bcd/bcd-amalgamated.c:1913-1923 | the exit branch is taken only by a session paused at eight bytes or at the end of a lost client's stream |
| MonitorSafety.AckFailsKeeps | external/bcd/bcd-amalgamated.c:1155-1168 | a write fails only on a lost client |
| MonitorSafety.AckKeeps | external/bcd/bcd-amalgamated.c:1143-1182 | acknowledging, and freeing after a detach, keep the invariant |
| MonitorSafety.AckNeverWaits | external/bcd/bcd-amalgamated.c:1160-1163 | with room for eight bytes the EAGAIN branch of bcd_write_ack is unreachable |
| MonitorSafety.StepKeepsInv | external/bcd/bcd-amalgamated.c:3409-3444 | every step of clients, kernel and monitor keeps the invariant |
| MonitorSafety.ReachableInv | external/bcd/bcd-amalgamated.c:3409-3444 | so it holds in every reachable state of every run |
| Monitor.EnvironmentIsFree | external/bcd/bcd-amalgamated.c:3409-3444 | nothing but the buffers restricts clients and kernel: any call may begin, any part be sent, read, written or acknowledged, any client leave, any edge be raised |
| MonitorTheorems.FoldIsHistory | external/bcd/bcd-amalgamated.c:1805-1834 | folding the log is keeping the accepted pairs and arguments |
| MonitorTheorems.LinearizableStores | external/bcd/bcd-amalgamated.c:1805-1883 | in every reachable state the stores are the history of the log, each client's share is a prefix of its requests holding every returned call, and the session speaks for the thread named last |
| MonitorTheorems.RealTimeOrder | external/bcd/bcd-amalgamated.c:1836-1883 | a call that returned before another began comes earlier in the log, over any continuation |
| MonitorTheorems.RunGrows | external/bcd/bcd-amalgamated.c:1836-1883 | no step takes back a log entry or a request |
| MonitorTheorems.ReadTakesOnePacket | external/bcd/bcd-amalgamated.c:1885-1944 | in the machine too a read keeps all bytes, or takes and performs exactly the packet in front; the monitor overruns iff that is a trace whose vector does not fit |
| MonitorTheorems.SynchronousAcks | external/bcd/bcd-amalgamated.c:1143-1220 | one unacknowledged request and one acknowledgement at most; a detach is acknowledged in full before its session is freed |
| MonitorTheorems.AckAnswersLatest | external/bcd/bcd-amalgamated.c:1184-1220 | a call returns 0 only on the acknowledgement of its own, already performed request |
| MonitorTheorems.AlwaysWoken | external/bcd/bcd-amalgamated.c:3354-3370 | unread bytes, ends of streams and waiting connections are on the ready list or have an edge to be reported |
| MonitorTheorems.NoLostWakeup | external/bcd/bcd-amalgamated.c:3409-3444 | epoll_wait blocks only when nothing waits to be read or accepted and no lost client is unnoticed, and then every waiting client has its answer to read |
| MonitorPasses.StepKnown | external/bcd/bcd-amalgamated.c:3200-3238 | no step puts a connection back into the listen queue |
| MonitorPasses.PassStep | external/bcd/bcd-amalgamated.c:3149-3166 | every step of anybody keeps where a dispatch pass stands: what is linked, what was called and what comes next |
| MonitorPasses.RunPass | external/bcd/bcd-amalgamated.c:3149-3166 | so from any point of a pass the rest of it enters what is left, in order |
| MonitorPasses.PassEntersAll | external/bcd/bcd-amalgamated.c:3149-3166 | from one epoll_wait to the next the machine enters first the first event linked, then the others linked at the start and those it accepted, once each in order; all of them once it is back, but for what a listener that stood last accepted |
| MonitorTheorems.ExitHasCause | external/bcd/bcd-amalgamated.c:1885-1944 | in every reachable state: the monitor has exited by its own branch only if a read paused at exactly eight bytes or a client was lost |
| MonitorTheorems.HandlerDiesIff | external/bcd/bcd-amalgamated.c:1889-1923 | a reading handler exits iff it holds eight bytes with length 0 or has come to the end of a lost client's stream, and then it can do nothing else |
| MonitorProgress.ReturnWeight | external/bcd/bcd-amalgamated.c:3157-3163 | what a dispatch pass has left is two per event less the events to come |
| MonitorProgress.ReadWeight | external/bcd/bcd-amalgamated.c:1885-1944 | reading uses up potential, performing included |
| MonitorProgress.AckWeight | external/bcd/bcd-amalgamated.c:1143-1182 | acknowledging uses up potential even when the session stays linked |
| MonitorProgress.AcceptWeight | external/bcd/bcd-amalgamated.c:3200-3238 | accepting uses up potential although it links a newcomer |
| MonitorProgress.StepWeight | external/bcd/bcd-amalgamated.c:3409-3444 | every system call uses up at least one unit of a potential that only requests, connections, hang-ups and spurious edges refill |
| MonitorProgress.WorkIsBounded | external/bcd/bcd-amalgamated.c:3409-3444 | in any run the number of system calls is bounded by the potential at its start and what was brought in: the loop never spins |
| MonitorProgress.HaltedIff | external/bcd/bcd-amalgamated.c:3409-3444 | no deadlock: while the monitor lives nobody can move iff it blocks and every call of a client still there has returned |
| MonitorExit.DeadFacts | external/bcd/bcd-amalgamated.c:1889-1923 | a session holding exactly a header has not performed its client's request, and its client has nothing to read |
| MonitorExit.DeadStays | external/bcd/bcd-amalgamated.c:1885-1944 | no step of anybody changes that: the handler never reads such a session further |
| MonitorExit.PausedIff | external/bcd/bcd-amalgamated.c:1903-1906 | while the monitor lives a read has paused at eight bytes iff some session is so stuck |
| MonitorExit.PauseIsFatal | external/bcd/bcd-amalgamated.c:1885-1944 | over every continuation the call of such a session's client never returns 0 |
| MonitorExit.PausedCallNeverReturns | external/bcd/bcd-amalgamated.c:1885-1944 | so after any pause at eight bytes some call in progress never returns 0 |
| MonitorExit.BlockedNotLost | external/bcd/bcd-amalgamated.c:3409-3444 | epoll_wait never blocks over a lost client |
| MonitorExit.BlockedNotDoomed | external/bcd/bcd-amalgamated.c:3409-3444 | nor over a client that waits for a trace that does not fit |
| MonitorExit.ExitIff | external/bcd/bcd-amalgamated.c:1713-1944 | when nothing more can happen and nobody killed it, the monitor has ended iff a read paused at eight bytes, a client was lost before its session was freed, or a client waits for a trace whose vector does not fit; otherwise it blocks and every call has returned |
| MonitorExit.EveryCallReturns | external/bcd/bcd-amalgamated.c:1836-1883 | the same at the end of every run under every schedule, and every run's system calls are bounded by its potential |
| MonitorTraces.StepKeepsTraces | external/bcd/bcd-amalgamated.c:1805-1834 | every step keeps: each trace performed fitted the lists as they were then, and an overrun has its client |
| MonitorTraces.ReachableTraces | external/bcd/bcd-amalgamated.c:1805-1834 | so it holds in every reachable state |
| MonitorTraces.FewArgumentsFit | external/bcd/bcd-amalgamated.c:1713-1803 | with at most 27 arguments stored any trace fits in any configuration |
| MonitorTraces.EntryIsRequest | external/bcd/bcd-amalgamated.c:1805-1834 | every packet performed is a request of its client |
| MonitorTraces.FewTextsNeverOverrun | external/bcd/bcd-amalgamated.c:1450-1803 | clients that use at most 27 distinct argument texts never overrun a vector, in any run |
| MonitorCompletion.CarefulStep | external/bcd/bcd-amalgamated.c:1885-1944 | unless nothing more can happen, some system call goes on without pausing a read at eight bytes |
| MonitorCompletion.Completion | external/bcd/bcd-amalgamated.c:3409-3444 | from any state of the invariant system calls alone lead to a state where nothing more can happen, without such a pause |
| MonitorCompletion.StepSame | external/bcd/bcd-amalgamated.c:3409-3444 | system calls begin no call and lose no client |
| MonitorCompletion.EveryCallCanReturn | external/bcd/bcd-amalgamated.c:1836-1883 | from any reachable state in which nothing went wrong, some run of system calls alone makes every call return, unless a client waits for a trace that does not fit |
| MonitorCompletion.FewTextsAllReturn | external/bcd/bcd-amalgamated.c:1836-1883 | with at most 27 distinct argument texts always |
| MonitorWitnesses.SplitHeaderKills | external/bcd/bcd-amalgamated.c:1889-1923 | for every request with a payload, a run in which it is split after its header and makes the monitor exit with part of it unread, its client still there |
| MonitorWitnesses.LeavingClientEnds | external/bcd/bcd-amalgamated.c:1913-1923 | a client that closes its end without a detach can end the monitor with no read paused |
| MonitorWitnesses.AckWaitsIff | external/bcd/bcd-amalgamated.c:1160-1163 | some reachable state takes the EAGAIN branch of bcd_write_ack iff the socket holds fewer than eight bytes |
| MonitorWitnesses.ThirtyArgumentsOverrun | external/bcd/bcd-amalgamated.c:1767-1803 | in every configuration a run of one proper client, thirty distinct arguments and a trace of the process, overruns the vector |

## Left out

- FrameWrite: its precondition leaves out a declared string length other than 0 or strlen, and the two-byte gap for frames with registers, where the code would write past its buffer (`FrameRuns.GapIsExact` is the exact boundary).
- WriteBody: the same two cases.
- WriteString: a declared length other than strlen, after which the cursor stands inside or behind the copied text.
- Writer.Init: is stated for buffers that `Buffer.Init` made; its own size test (line 91) is then always passed.
- ReadFields: a failed read may leave the caller's struct half assigned, and symbol and filename are pointers into the payload; the model returns values.
- PerformRequest: an argument packet without any NUL in the session's buffer, where the code reads past the buffer, and a trace whose vector does not fit, where it stores past the vector (`Argv.FitsIsExact`; the machine has a state for it).
- HandleRequest: a trace in front whose vector does not fit, and an argument packet in front without a NUL of its own, whose effect depends on bytes of earlier packets (`Sessions.PerformRequest` still covers it when the buffer holds a NUL).
- ArgStore.Set: a payload without a NUL, for the same reason.
- StepKeepsInv: the invariant is for sockets with room for an acknowledgement; without it the machine still follows the code, but beyond `MonitorWitnesses.AckWaitsIff` nothing is claimed.
- Dispatch: what each handler call comes to is an input here, not derived from the session's bytes; the step machine follows the handlers system call by system call, shares their specification functions and has the same order of calls (`MonitorPasses.PassEntersAll`), but is not derived from the methods.
- A client whose wait for an acknowledgement times out keeps its channel open, and its next call reads the old answer: timeouts are in the socket methods (a wait may fail) but the machine's clients wait as long as it takes or close their end.
- Memory: malloc and asprintf may fail where the code looks; what the failure paths then free is not modelled. In the machine they succeed and no request handler is set, so every trace builds its vector.
- Signals: interrupted calls are retried; a socket delivers finitely many.
- The listen queue is unbounded, one epoll_wait reports any number of events instead of at most 128, and in the machine accept fails only on an empty queue.
- The watchdog pipes and bcd_fatal, which uses one: the death of the monitor by other means is one step of the machine, with no cause.
- Running the tracer, forking, signal handlers, ownership, memory protection and configuration: system calls with no effect on the state modelled.
- Unwinding backends and demangling: sources of frames.
- Pointers and lists: TAILQ and LIST links are sequences, so freed nodes cannot be reached again by construction.
- 32-bit and big-endian builds; header getters and setters; register names and printed output.
