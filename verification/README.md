# NETCOM: receive path, pending commands, checksums, digest and tasks

A Dafny model of the communication core of the repository, with its proofs.

A device sends frames over a byte stream.  `netcom_readcb` collects whatever the transport delivers in one linear
buffer with three cursors, parses frames in place, commits ADDATA frames to a consumer that reads the buffer as a
ring, squeezes command and acknowledgement frames out of it, and goes back to the start of the buffer when it nears
the end.  Commands that wait for an acknowledgement sit in sixteen slots on two intrusive lists and are completed by
sequence number or by a timeout scan.  Every decision about a frame rests on a table-driven CRC-16.  Beside these
stand CRC-32, the streaming MD5, and the task objects whose worker, stopper and waiter threads meet through a few
shared fields.

## How it is put together

- `Bytes`, `Arithmetic`, `ByteTable`, `Buffer`: bytes and their bits, remainders, tables, moving bytes in a buffer.
- `ShiftRegister`: bit-serial shift registers over a generator polynomial, and polynomial division.  `TableCrc`: the
  byte-at-a-time loop over a table, in either bit order.  `Crc16`, `Crc32`: the two tables and what follows.
- `CircBuf`: the masked macros.  `Elapsed`: the clock arithmetic.
- `Netcmd`: packets, checks, acknowledgement codes, what a completion callback decides.  `Actions`: the callbacks.
- `Wire`: what the parse loop does with each packet, in terms of the bytes on the wire.
- `Frames`: one turn of the parse loop (`Next`, `Turn`) and the whole loop (`Parse`) as functions of the received
  bytes.  `FramesTheory`: well-formed input, chunking.  `FramesOrigin`: any input, and where what is put out comes from.
  `FramesCuts`: where any input may be cut.
- `Receive`: the read callback on cursors and byte strings.  `ReceiveRuns`: arbitrary interleavings of arrivals,
  callbacks, consumer, start and stop, writes and timeouts, on values.  `ReceiveFailures`: when the ring fails, and runs
  in which it does.  `ReceiveRaces`: the consumer at work inside the callback.
- `ListHead`: the list operations on heap nodes.  `Pending`: the pending commands as values and over runs.
  `CommandRuns`: the same over runs of the whole object.  `WritePool`: the sixteen slots on two lists, which call the
  callbacks of `Actions`.  `Ledger`: who issued what, and what each issuer has been told.
- `Netcom`: the object itself, with its buffer array, cursors and pool; every method is proved against `Receive` and
  `Pending`.  `NetcomRuns`: runs of the object, in its buffer.
- `Md5Rounds`, `Md5Words`, `Md5Stream`, `Md5`: the unrolled transform, words and bytes, folding over pieces, the
  context.  `Md5.MD5` is the instance with 32-bit words and bytes; nothing in the streaming part depends on it.
  `Md5Suite`: a digest from the test suite of RFC 1321.
- `TaskFlags`, `TaskState`, `TaskWait`: the state word, the stop protocol, the wakeup latch.  `Task`: the task object,
  whose operations are steps of `TaskWait`.

Machine integers are explicit: bytes are 8-bit vectors, CRC registers are bit sequences, `uint32_t` and `uint64_t`
arithmetic is written with its remainder, MD5 words are 32-bit vectors.  The transport is an arbitrary sequence of
byte strings, locks make atomic steps, and clock readings are inputs.

## What the proofs show about the code

- `NETCOM_RDBUFFER_SIZE` is 0x300000, but the `CIRC_*` masks need a power of two.  With the shipped size a callback can
  read over unread bytes exactly when the consumer stands within 0x100000 bytes ahead of the writer
  (`Receive.ShippedFitsIff`), four events from the start lead to one that does (`ReceiveFailures.ShippedOverrun`), and
  the free space is misstated by exactly 0x100000 where it is misstated at all (`CircBuf.ShippedSpace`).
- With a power of two no callback reads too much (`Receive.PowerOfTwoFits`), but the ring is still not safe in every
  run: the time stamp is eight bytes whatever the length of the packet, so in a packet of declared length 12, 13 or 14
  it can end past the consumer.  It spares the unread bytes exactly when the packet's first sixteen bytes end at or
  below the consumer (`ReceiveFailures.StampSparesIff`), and a run from the start ends in one that does not
  (`ReceiveFailures.StampOverrun`).  Length 15 damages at most the next packet.
- If the masks are right and no stream header that arrives declares a length from 12 to 15, every interleaving of every
  operation, on any bytes, leaves each committed byte alone until it is consumed, in the buffer itself
  (`NetcomRuns.PerformAny`).  On well-formed input the consumer finds exactly the stream packets there
  (`NetcomRuns.PerformDelivery`).
- A valid ADDATA header with length 0 makes the parse loop spin, and nothing else does
  (`Frames.SpinsExactlyOnZeroLength`, `Frames.ZeroLengthSpins`).  A declared length from 1 to 11 makes
  `netcmd_readpacket` address memory outside the packet, and one from 12 to 15 at the very end of the buffer makes it
  stamp past the buffer; nothing else does (`Frames.OverrunsExactlyOnShortStream`, `Frames.ShortStreamOverruns`).  The
  model stops there.
- Resynchronisation looks eight bytes ahead, so behind garbage the cut points of the stream matter
  (`FramesTheory.GarbageBreaksChunking`); on well-formed input they never do, and on any other, as long as
  no packet shorter than 16 bytes is committed, only where a search that fails is misled by what follows
  (`FramesCuts.CutAnywhere`).
- `l0001_timespecelapsed` divides a negative nanosecond difference by an unsigned constant, so a command can time out
  a millisecond after it was sent (`Pending.PrematureTimeout`); the scan is exact if and only if the first entry that
  is not old needs no borrow (`Pending.ScanIsExactIff`).
- A wakeup can be lost inside `task_wait`: the second of the timed wait runs out, `task_wakeup` then finds nobody to
  signal, `task_wakeupclear` removes the latch, and the waiter, back with the mutex, sleeps on (`TaskWait.WakeupLost`).
  A wakeup that comes during the wait arrives if and only if the thread was still blocked, or no clear follows it, or a
  stop has been written (`TaskWait.WakeupArrivesIff`); so none is lost as long as only the waiting thread clears.
- `l0006_netcmd_ex_general_action` copies as many bytes as the reply declares; above 54 it reads on behind the packet
  (`Actions.ConfigStaysInPacketIff`).
- A packet with the right sequence number that acknowledges another command ends the pending command as failed
  without waking its issuer, and nothing later wakes it (`Actions.WokenIff`, `Pending.OneCallbackEach`).
- `crc32` complements its result but not its start value, so a result can never be passed on as the start value of
  the next piece (`Crc32.NeverChainsDirectly`); complementing it first works.
- ABORT survives until the worker is gone if and only if no state handler writes QUIT
  (`TaskState.AbortNeverLostIff`).
- The block loop of `MD5Update` ends if and only if the piece is shorter than 2^32 - 64 plus the bytes by which the
  buffer was short of whole blocks, modulo 64 (`Md5Stream.LoopEndsIff`).

## Model

| member | source | states |
|---|---|---|
| CircBuf.CntIsModular | src/l0001-0/include/circ_buf.h:15 | for every power-of-two size the masked count, taken in 32-bit arithmetic, is head - tail modulo the size |
| CircBuf.SpaceIsModular | src/l0001-0/include/circ_buf.h:20 | the space likewise is tail - head - 1 modulo the size |
| CircBuf.CntPlusSpace | src/l0001-0/include/circ_buf.h:15-20 | for in-range cursors count and space add up to size - 1: one slot stays free |
| CircBuf.CntToEndIsContiguous | src/l0001-0/include/circ_buf.h:25-28 | count to the end is the smaller of the count and size - tail |
| CircBuf.SpaceToEndIsContiguous | src/l0001-0/include/circ_buf.h:31-34 | space to the end is the smaller of the space and size - head |
| CircBuf.SpaceToEndIsGap | src/l0006-0/netcom.c:188-189 | at every cursor position the receive buffer reaches, the end included, the limit handed to the reader is the gap before the consumer or the end |
| CircBuf.ShippedSpaceToEnd | src/l0006-0/netcom.c:18-189 | with size 0x300000 the limit fits the gap if and only if the consumer is not within 0x100000 ahead |
| CircBuf.ShippedSpace | src/l0006-0/netcom.c:18-188 | with size 0x300000 the space is misstated by exactly plus or minus 0x100000, and where |
| Elapsed.ExactWithoutBorrow | src/l0001-0/misc.c:278-282 | the elapsed expression is the floored true milliseconds whenever the nanosecond difference is not negative |
| Elapsed.HugeWithBorrow | src/l0001-0/misc.c:278-282 | when it is negative the result exceeds 18446744072708 ms, more than five hundred years |
| Elapsed.BorrowExample | src/l0001-0/misc.c:278-282 | a concrete pair of readings one millisecond apart |
| TableCrc.Compute | src/l0001-0/crc16.c:37-42 | the loop over the buffer computes the fold of the table step over its bytes, in either bit order |
| TableCrc.FoldIsRun | src/l0001-0/crc16.c:37-42 | if each table entry is eight shifts of its index, the table loop is the bit-serial register for every start value and message |
| Crc16.TableIsEightShifts | src/l0001-0/crc16.c:3-34 | each of the 256 entries is eight shift steps of its index by x^16+x^12+x^5+1 |
| Crc16.Compute | src/l0001-0/crc16.c:37-42 | the method computes crc16 of the given range of the buffer |
| Crc16.TableDrivenIsBitSerial | src/l0001-0/crc16.c:37-42 | crc16 equals the bit-serial register for every start value and message |
| Crc16.CrcIsRemainder | src/l0001-0/crc16.c:37-42 | started at 0, crc16 is the remainder of the message times x^16 divided by the polynomial |
| Crc16.CrcConcat | src/l0001-0/crc16.c:37-42 | crc16 of a concatenation is crc16 of the second part started at crc16 of the first |
| Crc16.BurstDetected | src/l0001-0/crc16.c:37-42 | two different messages of equal length that differ only within 16 consecutive bits never have the same crc16 |
| Crc16.OddErrorsDetected | src/l0001-0/crc16.c:37-42 | nor do two that differ in an odd number of bits |
| Crc32.TableIsEightShifts | src/l0001-0/crc32.c:3-68 | each entry is eight reflected shift steps of its index |
| Crc32.Compute | src/l0001-0/crc32.c:70-77 | the loop computes the table form of section 8 of RFC 1952, with the final complement only |
| Crc32.TableDrivenIsBitSerial | src/l0001-0/crc32.c:70-77 | the table loop equals the bit-serial reflected register |
| Crc32.BurstDetected | src/l0001-0/crc32.c:70-77 | bursts of at most 32 bits are detected |
| Crc32.ChainsThroughComplement | src/l0001-0/crc32.c:70-77 | continuing from the complement of a result gives the result of the concatenation |
| Crc32.NeverChainsDirectly | src/l0001-0/crc32.c:70-77 | continuing from the result itself never does |
| Netcmd.IsValidHeader | src/l0006-0/netcmd.c:420-428 | the check on the bytes in place: magic, known command, header checksum |
| Netcmd.Format | src/l0006-0/netcmd.h:77-85 | the macro, field by field, leaves the header with the checksum of the bytes just written, and nothing else changes |
| Netcmd.FormatIsAccepted | src/l0006-0/netcmd.h:77-85 | what the macro writes the receiver accepts, exactly for the known commands |
| Netcmd.DamagedHeaderRejected | src/l0006-0/netcmd.c:420-428 | a valid header damaged in its first six bytes by a burst of at most 16 bits is rejected |
| Netcmd.DamagedBodyRejected | src/l0006-0/netcmd.c:435-454 | a stream packet whose body is damaged by such a burst fails the comparison |
| Netcmd.OddDamageRejected | src/l0006-0/netcmd.c:435-454 | so does one whose body has an odd number of flipped bits |
| Wire.HeaderBytes | src/l0006-0/netcmd.h:77-85 | the header on the wire: 0xEF 0xBE, command, number, two bytes, and low byte first the register of x^16+x^12+x^5+1 after these six |
| Wire.AcceptedIff | src/l0006-0/netcmd.c:420-428 | the receiver takes exactly such headers with a code up to 0x09 or from 0x80 to 0x88 |
| Wire.CommandTurn | src/l0006-0/netcmd.c:395-410 | a command or acknowledgement takes 64 bytes if its code is 0x09 or 0x88, and waits for them; any other takes 8 |
| Wire.BuiltCommand | src/l0006-0/netcmd.c:401-407 | so every header built for a command or acknowledgement of eight bytes is handed over as these eight, whatever follows |
| Wire.BuiltLongCommand | src/l0006-0/netcmd.c:401-404 | and every header built for one of 64 bytes waits for 56 more |
| Wire.StreamTurn | src/l0006-0/netcom.c:244-276 | what becomes of a stream header, for every declared length, number of bytes there, RX flag and body checksum |
| Wire.ResyncTurn | src/l0006-0/netcom.c:28-63 | where the search for a header goes |
| Wire.StreamParsed | src/l0006-0/netcom.c:260-268 | a stream packet built as the device builds it is committed whole with the time written over bytes 8 to 15, and nothing is left |
| Wire.StreamDropped | src/l0006-0/netcom.c:274-277 | with RX off it is taken out without a trace |
| Netcmd.ReadPacket | src/l0006-0/netcmd.c:435-454 | for every declared length: below 12 it leaves the packet, otherwise the body comparison decides, and only then are the eight time stamp bytes after the header rewritten, if they are still in the buffer |
| Netcmd.AckCommandInjective | src/l0006-0/netcmd.c:34-70 | the acknowledgement map is injective on its nine commands, ADDATA has none |
| Netcmd.AckCodes | src/l0006-0/netcmd.c:34-70 | which acknowledgement belongs to which command, by code: from 0x80 on in order, ADDATA left out |
| Netcmd.SuccessOnlyForOwnAck | src/l0006-0/netcmd.c:161-361 | success is recorded only for the acknowledgement of the very command sent |
| Actions.GeneralAction | src/l0006-0/netcmd.c:251-292 | the acknowledgement of the very command sent writes 0 through outret and returns 0, any other packet writes 1 and returns -1, the timeout writes 2 and returns -1; the task is woken except for the other packet |
| Actions.GeneralAction2 | src/l0006-0/netcmd.c:320-353 | the same, and the first eight bytes of the reply are kept exactly on success |
| Actions.ExtendedAction | src/l0006-0/netcmd.c:161-219 | the same for every code but the acknowledgement of SAVECONF; that one writes 0 if its flag is 0x9A and its length fits, else 1, and with 0 and a buffer as many bytes as it declares are copied, out of the packet and on into what stands behind it |
| Actions.ConfigStaysInPacketIff | src/l0006-0/netcmd.c:184-192 | what is copied depends on the packet alone if and only if it declares at most 54 bytes |
| Actions.Invoke | src/l0006-0/netcom.c:302 | the callback a command was sent with does to its issuer all that its completion says: 0 for its own acknowledgement, 1 for another packet, 2 for the timeout |
| Actions.WokenIff | src/l0006-0/netcmd.c:251-292 | the issuer is woken by its own acknowledgement or the timeout, and by no other reply |
| Frames.ScanFindsFirst | src/l0006-0/netcom.c:38-62 | the search succeeds exactly if a valid header stands at or after the offset and before the last eight bytes, and finds the first; otherwise at most eight bytes are kept |
| Frames.SpinsExactlyOnZeroLength | src/l0006-0/netcom.c:244-335 | a turn of the loop makes no progress exactly on a valid zero-length stream header |
| Frames.ZeroLengthSpins | src/l0006-0/netcmd.h:77-85 | the header the macro builds for a stream of length 0, whatever follows it |
| Frames.OverrunsExactlyOnShortStream | src/l0006-0/netcmd.c:435-454 | readpacket leaves the packet or the buffer exactly on a complete stream packet, with RX on, that declares 1 to 11 bytes, or that declares 12 to 15, matches, and begins less than 16 bytes before the end |
| Frames.ShortStreamOverruns | src/l0006-0/netcmd.c:435-454 | every header the macro builds for 1 to 11 bytes, once that much has arrived, is one |
| Frames.RestIsShort | src/l0006-0/netcom.c:244-335 | when the loop ends waiting for input, fewer than 9940 bytes are left unparsed |
| FramesOrigin.NothingInvented | src/l0006-0/netcom.c:244-335 | on any input: what is committed is, in order and without overlap, stream packets that stand in it with good header, declared length and matching body, stamped; what is handed over is command packets; what is kept is its end; the input changes only where committed packets are stamped |
| FramesOrigin.OriginalPackets | src/l0006-0/netcmd.c:443-449 | a committed packet of 16 bytes or more leaves everything behind it as it came, so each packet put out is the input's own with only its time stamp rewritten |
| FramesOrigin.RestIsSuffix | src/l0006-0/netcom.c:244-335 | as long as the parse commits no packet shorter than 16 bytes, what is left is the end of the input as it came, and no time stamp reaches past what is committed |
| FramesOrigin.NoShortIsLong | src/l0006-0/netcom.c:244-335 | it commits none if no stream header in the input declares 12 to 15 bytes |
| FramesTheory.ParseInPieces | src/l0006-0/netcom.c:244-335 | on well-formed input, parsing a beginning and then its remainder with the continuation is parsing all in one go |
| FramesTheory.ExactlyThePackets | src/l0006-0/netcom.c:244-335 | with RX on, exactly the stream packets are committed in order with only their time stamps rewritten, exactly the commands handed over, exactly the incomplete packet kept |
| FramesTheory.CleanIsPackets | src/l0006-0/netcom.c:244-335 | well-formed input is a run of packets and an incomplete one |
| FramesTheory.GarbageBreaksChunking | src/l0006-0/netcom.c:320-328 | behind garbage a command can be recovered in one go and lost in two |
| FramesCuts.CutAnywhere | src/l0006-0/netcom.c:244-335 | on any input, garbage included, whose beginning commits no packet shorter than 16 bytes: parsing a beginning that ends waiting, and then its remainder with the continuation, is parsing all in one go, unless a search that failed at the cut is misled by what follows |
| Receive.RewindEndsBelowConsumer | src/l0006-0/netcom.c:201-217 | the rewind test implies that the moved tail ends strictly below the consumer |
| Receive.NoSecondRewind | src/l0006-0/netcom.c:201-217 | while wrapped the writer never goes back a second time |
| Receive.CallbackIntact | src/l0006-0/netcom.c:159-337 | a callback whose read fits keeps the ring invariant, in every branch |
| Receive.PowerOfTwoFits | src/l0006-0/netcom.c:188-230 | with a power-of-two capacity every callback fits |
| Receive.RefusesIff | src/l0006-0/netcom.c:171-225 | with a power of two the callback drops its input if and only if the error flag is set, nothing is free, or in the last 128 KiB the free space does not exceed the unparsed bytes by 128 KiB |
| Receive.RefusalDrops | src/l0006-0/netcom.c:171-225 | what a refusal leaves: the unparsed bytes are gone, and after an error all cursors are at the start |
| Receive.ReadyReads | src/l0006-0/netcom.c:199-230 | otherwise it goes back to the start exactly in the last 128 KiB, and reads all that waits or all that fits before the consumer or the end |
| Receive.ShippedFitsIff | src/l0006-0/netcom.c:18-230 | with the shipped capacity every input fits if and only if the consumer is not just ahead of the writer |
| ReceiveFailures.ReadSparesIff | src/l0006-0/netcom.c:229 | bytes read below the consumer spare the unread bytes, whatever they are, if and only if they end at or below the consumer |
| ReceiveFailures.StampSparesIff | src/l0006-0/netcmd.c:443-449 | a stamp below the consumer spares the unread bytes, whatever the time, if and only if the packet's first sixteen bytes end at or below the consumer |
| ReceiveFailures.ShippedOverrun | src/l0006-0/netcom.c:18-230 | a run from the start with the shipped capacity after which one callback reads three megabytes into a gap of one |
| ReceiveFailures.StampOverrun | src/l0006-0/netcmd.c:443-449 | a run from the start with a power of two after which one callback stamps three bytes past the consumer |
| ReceiveRaces.MeanwhileFrees | src/l0006-0/netcom.h:23-29 | however the consumer and stops move rd2_off meanwhile, the gap before it does not shrink and the ring invariant holds |
| ReceiveRaces.RacedIntact | src/l0006-0/netcom.c:188-234 | with a power of two: though rd2_off moves between the computation of the space, that of the limit, the rewind and the read, the moved tail stays below the consumer, the read fits where the consumer stands by then, and the ring invariant holds in the end |
| Receive.RepliesAreChecked | src/l0006-0/netcom.c:288-312 | every packet handed to the pending commands is long enough for its command |
| Receive.AnswersIsRun | src/l0006-0/netcom.c:296-306 | handing over replies is a run of the pending-command protocol |
| ReceiveRuns.RunHealthy | src/l0006-0/netcom.c:159-337 | over every run in which no callback reads or stamps over unread bytes: ring invariant, short tail, the writer went back only from near the end |
| ReceiveRuns.LongStreamsSheltered | src/l0006-0/netcom.c:159-337 | every run is such a run if the capacity is a power of two, or the shipped one and no callback reads while the consumer is just ahead, and no stream header that arrives declares 12 to 15 bytes |
| ReceiveRuns.CleanSheltered | src/l0006-0/netcom.c:228-335 | so is every run on well-formed input that refuses nothing, whatever the packets hold |
| ReceiveRuns.ShortBacklogNeverDrops | src/l0006-0/netcom.c:193-225 | a consumer that keeps its backlog this far below the capacity never causes input to be dropped |
| ReceiveRuns.ChunkingIndependence | src/l0006-0/netcom.c:228-335 | however bytes are cut into arrivals and callbacks and whatever the consumer does, outputs and the parse of what is left make the parse of all bytes in one go |
| ReceiveRuns.ParsesExactly | src/l0006-0/netcom.c:228-335 | from the start, all input read: exactly the stream packets committed, exactly the commands handed over, exactly the incomplete suffix kept |
| CommandRuns.RunHandles | src/l0006-0/netcom.c:291-307 | over every run of the object, whatever arrives, the pending commands go through a run of their protocol |
| CommandRuns.EveryCommandOnce | src/l0006-0/netcom.c:291-363 | over every run of the object from the start each accepted write is waiting or completed, exactly one of the two, and no write is completed twice |
| CommandRuns.AckReachesIssuer | src/l0006-0/netcom.c:101-306 | over every run of the object in which accepted writes carry numbers it gave out: while no two waiting commands share one and at most 256 were given out since the oldest, an acknowledgement completes its own command |
| Buffer.MoveDown | src/l0006-0/netcom.c:208 | an overlapping move towards the start: the moved bytes, and everything else unchanged |
| Netcom.Search | src/l0006-0/netcom.c:38-48 | the scan loop finds what Scan says |
| Netcom.Netcom.constructor | src/l0006-0/netcom.c:575-621 | the freshly allocated object is the fresh receiver with reception off and no command waiting |
| Netcom.Netcom.FindHeader | src/l0006-0/netcom.c:28-63 | the first header found, or the last few bytes, move to rd1_off with every byte after them; nothing below rd1_off or beyond the received bytes changes |
| Netcom.Netcom.TakeStream | src/l0006-0/netcom.c:260-273 | netcmd_readpacket decides: commit in place, resynchronise, or leave the buffer |
| Netcom.Netcom.TakeFront | src/l0006-0/netcom.c:245-334 | one turn of the loop on the buffer does what the model's turn does, reply packets aside |
| Netcom.Netcom.TakeReply | src/l0006-0/netcom.c:291-317 | a reply completes the first command with its sequence number and is squeezed out |
| Netcom.Netcom.ParseLoop | src/l0006-0/netcom.c:244-335 | the loop in place refines Parse: cursors, tail, pending commands, committed bytes; bytes below rd1_off and beyond wr_off stay |
| Netcom.Netcom.Rewind | src/l0006-0/netcom.c:204-217 | the tail moves to the start, rd1_end marks the old end, and no unread byte is overwritten if the tail ends below the consumer |
| Netcom.Netcom.MakeRoomHere | src/l0006-0/netcom.c:171-225 | error reset, full buffer, rewind and drop branches as in the model |
| Netcom.Netcom.ReadCallback | src/l0006-0/netcom.c:159-337 | the callback refines the model: cursors, tail and commands always; the bytes the consumer will read too, whenever neither read nor stamp reaches them; and always the bytes below rd1_off and from the end of reading and stamping on stay, and no issuer is told anything but its own completions |
| Netcom.Netcom.Stop | src/l0006-0/netcom.c:86-92 | reception off and everything unread given up |
| Netcom.Netcom.Start | src/l0006-0/netcom.c:94-99 | reception on, nothing else changes |
| Netcom.Netcom.EventCallback | src/l0006-0/netcom.c:435-478 | the connected flag is set by a connection, else cleared by an error or the end of the stream, else kept |
| Netcom.Netcom.Consume | src/l0006-0/netcom.h:23-29 | the consumer gets the first k unread bytes and the rest stay unread |
| Netcom.Netcom.WrapConsumer | src/l0006-0/netcom.h:23-29 | at rd1_end the consumer goes on at the start and loses nothing |
| Netcom.Netcom.GetSeqno | src/l0006-0/netcom.c:101-109 | the n-th call returns the n-th number of a byte counter |
| Pending.SeqnoIsModular | src/l0006-0/netcom.c:101-109 | that number is n modulo 256 |
| Netcom.Netcom.Write | src/l0006-0/netcom.c:388-432 | connected, fewer than sixteen waiting, a transport that takes the data: 0, and with ack the queue is the old one and an entry with this request and time, without it the old one; in all other cases -1 and nothing changes |
| Netcom.Netcom.Timeout | src/l0006-0/netcom.c:339-363 | the timeout callback is the protocol's scan |
| NetcomRuns.Perform | src/l0006-0/netcom.c:86-478 | over every sheltered run the object ends where the model's run ends, the unread bytes of its buffer included, and the consumer finds in the buffer the bytes the model says |
| NetcomRuns.PerformAny | src/l0006-0/netcom.c:86-478 | every interleaving of every operation, on any bytes, is such a run if the masks are right and no stream header declares 12 to 15 bytes: no committed byte is altered before it is consumed |
| NetcomRuns.PerformInOrder | src/l0006-0/netcom.h:23-29 | what the consumer found and what is unread in the buffer is, in order, what was unread there before and what was committed |
| NetcomRuns.PerformDelivery | src/l0006-0/netcom.c:228-335 | from the start, all of a well-formed input read: the consumer found or will find in the buffer exactly the stream packets in order, only time stamps rewritten, with the incomplete packet behind them |
| NetcomRuns.PerformOutcomes | src/l0006-0/netcmd.c:161-353 | over every sheltered run: each issuer holds the code of the last of its commands to complete, its own if it issued one, and if that completion wakes the latch of its task is set |
| NetcomRuns.PerformAnswered | src/l0006-0/netcmd.c:255-270 | after any sheltered run: an accepted write still waiting, with no earlier one of its number, whose own acknowledgement arrives on the wire and is read, leaves its issuer holding 0 and the latch of its task set |
| ListHead.Node.constructor | src/l0001-0/include/list.h:77-81 | a fresh node is a ring of itself |
| ListHead.AddBetween | src/l0001-0/include/list.h:98-106 | the four pointers after __list_add |
| ListHead.Add | src/l0001-0/include/list.h:122-125 | the ring with the node right after the head |
| ListHead.AddTail | src/l0001-0/include/list.h:136-139 | the ring with the node at the end |
| ListHead.Unlink | src/l0001-0/include/list.h:148-152 | the ring of the other nodes |
| ListHead.MoveTail | src/l0001-0/include/list.h:220-225 | one node leaves one ring and is appended to another; both stay rings, only its neighbours change |
| ListHead.IsEmpty | src/l0001-0/include/list.h:242-245 | true exactly for the ring of the head alone |
| WritePool.Pool.constructor | src/l0006-0/netcom.c:575-603 | all sixteen slots on the unused list, the last one first, none used |
| WritePool.Pool.AllSlotsListed | src/l0006-0/netcom.c:594-603 | in every valid state each slot is on one of the two lists |
| WritePool.Pool.Write | src/l0006-0/netcom.c:388-432 | the same on the lists, which stay rings of all slots; the issuer is remembered last |
| WritePool.Pool.Acknowledge | src/l0006-0/netcom.c:296-306 | the first command with the packet's sequence number gets its callback, which serves its issuer as the completion says, and its slot is freed; no other issuer or task is touched; without one nothing changes |
| WritePool.Pool.Timeout | src/l0006-0/netcom.c:346-363 | from the front up to the first command not timed out, each issuer is told of the timeout and woken and each slot freed; the issuers and tasks of the others are not touched |
| Ledger.OutcomesTold | src/l0006-0/netcmd.c:161-353 | if each issuer has been told what the completions say and no more, each holds the code of its last completion |
| Ledger.HoldsWhatItHeld | src/l0006-0/netcmd.c:161-353 | and an issuer none of whose commands has completed holds what it held when it issued them |
| Pending.ExactlyOnce | src/l0006-0/netcom.c:291-307 | over every run each accepted write is waiting or completed, exactly one of the two; accepted writes are completions plus waiting entries |
| Pending.OneCallbackEach | src/l0006-0/netcom.c:291-363 | over every run no write gets two callbacks |
| Pending.ExpireRemovesPrefix | src/l0006-0/netcom.c:352-362 | the scan removes a prefix of the queue and logs a timeout for each entry of it |
| Pending.NoOldEntryRemains | src/l0006-0/netcom.c:352-362 | although it stops early, no entry older than 3000 ms remains |
| Pending.AgedAreAllOld | src/l0006-0/netcom.c:352-362 | in sending order the leading old entries are all old entries |
| Pending.OldMeans | src/l0006-0/netcom.c:353 | old means that 3001 milliseconds or more have passed |
| Pending.ScanIsExactIff | src/l0006-0/netcom.c:352-362 | the scan gives up on exactly the old entries if and only if the first entry that is not old needs no borrow |
| Pending.PrematureTimeout | src/l0006-0/netcom.c:353 | a command sent a millisecond ago that is timed out |
| Pending.RunOrdered | src/l0006-0/netcom.c:400-413 | over every run on a monotonic clock the queue stays in sending order |
| Pending.NothingOldAfterRun | src/l0006-0/netcom.c:339-363 | after the timeout callback at the end of any run nothing older than 3000 ms waits |
| Pending.ReachesItsCommandIff | src/l0006-0/netcom.c:296-306 | an acknowledgement reaches its own command if and only if no earlier waiting command has the same number modulo 256 |
| Pending.AckReachesIssuer | src/l0006-0/netcom.c:101-306 | within a window of 256 numbers it always does, across wrap-around |
| Pending.OwnAckSucceeds | src/l0006-0/netcmd.c:255-270 | an acknowledgement of the very command completes it with success and takes it, and no other, out of the queue |
| Pending.RunAckReachesIssuer | src/l0006-0/netcom.c:101-306 | over every run in which each accepted write carries one of the numbers given out, while no two waiting commands took the same one and at most 256 were given out since the oldest, an acknowledgement completes its issuer and no other |
| Md5Rounds.Unrolled | src/l0001-0/md5.c:132-201 | the 64 macro calls are the loop of section 3.4 of RFC 1321: message index, shift and constant by step, rotating registers |
| Md5.Transform | src/l0001-0/md5.c:124-206 | the chaining value becomes the four-round loop on the decoded block added to the old one |
| Md5.CompressIsRfc | src/l0001-0/md5.c:124-206 | the block transform with the macros is the block transform with the steps of RFC 1321 |
| Md5.AddsWords | src/l0001-0/md5.c:202-205 | addition is addition of 32-bit words |
| Md5.PutsLowByteFirst | src/l0001-0/md5.c:98-110 | words are put out low byte first |
| Md5.TakesLowByteFirst | src/l0001-0/md5.c:111-123 | and taken in low byte first |
| Md5Suite.LettersDigest | src/l0001-0/md5.c:54-206 | the digest of the letters a to z is the one in section A.5 of RFC 1321, computed through all 64 macro calls |
| Md5Words.Encode | src/l0001-0/md5.c:98-110 | the output holds the bytes of the words, low byte first; the rest is unchanged |
| Md5Words.Decode | src/l0001-0/md5.c:111-123 | the output holds the words of the bytes; the rest is unchanged |
| Md5Words.WordsSurvive | src/l0001-0/md5.c:98-123 | encoding and decoding are mutual inverses on whole words |
| Md5Words.MacroIsStep | src/l0001-0/md5.c:13-41 | in each of the 64 steps the macro is b + ((a + f + x + ac) <<< s) of RFC 1321, its shift-or formula the circular shift, one bit at a time |
| Md5Words.FByBit | src/l0001-0/md5.c:13 | F takes each bit from Y where X is set and from Z where it is not |
| Md5Words.GByBit | src/l0001-0/md5.c:14 | G takes each bit from X where Z is set and from Y where it is not |
| Md5Words.HByBit | src/l0001-0/md5.c:15 | H is the parity |
| Md5Words.IByBit | src/l0001-0/md5.c:16 | I inverts Y exactly where X is set or Z is not |
| Md5Words.OneLeftBits | src/l0001-0/md5.c:17 | the one-bit circular shift moves each bit up by one position, the highest to the lowest |
| Md5Words.MacrosAreRfc | src/l0001-0/md5.c:132-201 | so the four rounds run with the macros are the four rounds run with the steps of RFC 1321 |
| Md5.InitBytes | src/l0001-0/md5.c:58-61 | the initial words, low byte first, are the bytes of section 3.3 of RFC 1321 |
| Md5.CountDigits | src/l0001-0/md5.c:93 | the bytes put out for a count word are its base-256 digits, low first |
| Md5Stream.CountAdds | src/l0001-0/md5.c:68-71 | the two-word count stays 8 times the bytes modulo 2^64 despite the split carry |
| Md5Stream.IndexFromCount | src/l0001-0/md5.c:66 | the index taken from the low word is the number of buffered bytes |
| Md5Stream.LoopEndsIff | src/l0001-0/md5.c:77-78 | the block loop ends if and only if the piece is this much shorter than 2^32 |
| Md5.Context.constructor | src/l0001-0/md5.c:54-62 | the context of the empty message |
| Md5.Context.Update | src/l0001-0/md5.c:63-86 | the context of the message is followed by the context of the message with the piece appended |
| Md5.SplitIrrelevant | src/l0001-0/md5.c:63-86 | contexts given the same bytes in whatever pieces agree in count, chaining value and live buffer |
| Md5.PaddedIsWholeBlocks | src/l0001-0/md5.c:91-95 | the padded length is a multiple of 64, and the smallest that fits |
| Md5.PaddedBits | src/l0001-0/md5.c:49-96 | sections 3.1 and 3.2 bit for bit: the message, a one, the least number of zeros that brings the length to 448 modulo 512, and eight bytes holding the bit length modulo 2^64, low byte first |
| Md5.Finish | src/l0001-0/md5.c:87-97 | the message MD5Final takes the digest of, on words and bytes, is padded in this way |
| Md5.Context.Final | src/l0001-0/md5.c:87-97 | the padding and length of sections 3.1 and 3.2 of RFC 1321 are appended and the digest of the message is put out |
| Task.Task.ChangeState | src/l0003-0/task.c:24-36 | the new value is written unless the state is ABORT; over ABORT only QUIT is |
| Task.Task.Wakeup | src/l0003-0/task.c:38-44 | the object takes the protocol's wakeup step: the blocked waiter is chosen and the latch set |
| Task.Task.WakeupClear | src/l0003-0/task.c:46-51 | the object takes the protocol's clearing step |
| Task.Task.EnterWait | src/l0003-0/task.c:58-60 | the object takes the protocol's entering step: the wait ends at once exactly when ABORT or the latch is set |
| Task.Task.AfterTimedWait | src/l0003-0/task.c:60-67 | after a timed wait: a heartbeat, and the protocol's steps for a thread that was chosen, for one whose second ran out, with or without a wakeup behind it, and for a spurious return |
| TaskState.FlagsOnlyChange | src/l0003-0/task.c:24-36 | in the stop protocol the flags change only as task_changestate changes them |
| TaskState.FlagsAreLastWritten | src/l0003-0/task.c:91-97 | before the stop, if no handler writes ABORT itself: the flags are the last value the worker wrote, beginning with PREP |
| TaskState.RoundRuns | src/l0003-0/task.c:93-97 | a round of the worker makes exactly the changes of the handler it dispatches |
| TaskState.AbortNeverLostIff | src/l0003-0/task.c:24-36 | ABORT stands until the worker is gone if and only if no handler writes QUIT once it is set |
| TaskState.QuitInHandlerRevivesWorker | src/l0003-0/task.c:24-36 | an interleaving in which a handler that writes QUIT keeps the worker running |
| TaskState.StopProtocol | src/l0003-0/task.c:83-268 | in every interleaving: ABORT is not lost, at most one handler starts after it, QUIT comes only after the worker has left its loop |
| TaskState.WorkerLeaves | src/l0003-0/task.c:93-97 | after ABORT the worker leaves its loop within a number of its own steps that only its handlers determine |
| TaskState.StopCompletes | src/l0003-0/task.c:264-268 | so the stop completes: its next step writes QUIT and is its last |
| TaskWait.NoWakeupLost | src/l0003-0/task.c:38-69 | a wait returns without blocking if and only if a wakeup came after the last clear or a stop has been written, and the latch is clear then |
| TaskWait.BlockedMeansNoWakeup | src/l0003-0/task.c:38-69 | over every run, waits that expire included, the latch of a blocked waiter is clear |
| TaskWait.WokenReturns | src/l0003-0/task.c:60-68 | a waiter chosen while it is blocked returns, whatever is cleared behind its back |
| TaskWait.ExpiredReturnsIff | src/l0003-0/task.c:60-67 | a waiter whose second has run out returns, once it has the mutex again, if and only if a wakeup came after the last clear or a stop has been written; otherwise it sleeps on |
| TaskWait.WakeupLost | src/l0003-0/task.c:38-67 | an interleaving of one wait, one expiry, one wakeup and one clear in which the wakeup is lost |
| TaskWait.WakeupArrivesIff | src/l0003-0/task.c:38-67 | a wakeup during the wait arrives if and only if the thread was blocked or chosen, or no clear followed the last wakeup, or a stop has been written |
| TaskWait.NoClearNoLoss | src/l0003-0/task.c:38-67 | none is lost while nobody clears the latch during the wait |
| TaskWait.ReturnClearsLatch | src/l0003-0/task.c:67 | every way out of the wait leaves the latch clear |
| TaskWait.AbortNoticed | src/l0003-0/task.c:60-66 | no waiter sleeps through a stop: after its next timeout it is out of the wait, or chosen and about to leave |

## Left out

- The consumer of `rd2_off` is not in the repository; the model takes it from the comments at src/l0006-0/netcom.h:23-29.
- Runs interleave the consumer and the callback between callbacks; within one, ReceiveRaces.RacedIntact covers the cursors, not the bytes consumed meanwhile, and not an error reset.
- A spinning or overrunning parse ends with a status the program does not have; afterwards only what needs no lock happens.
- Netcom.Netcom.ReadCallback: after a callback that reads or stamps over unread bytes, says which bytes are kept, not what stands between the new tail and where reading and stamping ended.
- The transport object, the event loop, connecting and disconnecting: foreign calls; whether the transport exists and accepts data are inputs of the write, and the two kinds of event are inputs of `netcom_eventcb`.
- Actions.ExtendedAction: a copy that runs past the receive buffer leaves the issuer's buffer undefined.
- Task.Task.AfterTimedWait: a timed wait that consumes a broadcast and still reports its timeout is taken as one whose second ran out before the broadcast.
- The allocation of the reply copy always succeeds; dump and log output are not modelled.
- NetcomRuns.PerformAnswered: the acknowledgement of SAVECONF, which takes 64 bytes and is judged by its flag, is covered by Actions.ExtendedAction and WritePool.Pool.Acknowledge, not over a run.
- NetcomRuns.Perform: the number a call of `l0006_netcom_getseqno` returns is not handed on inside a run; which write carries which number is the index in CommandRuns.AckReachesIssuer.
- `cmdset.c`: wrappers that format a command and wait.
- The agent layer, `SimuList.c`, `memcache.c`, the variance, address and other elapsed-time helpers of `misc.c`.
- `task_initialize`, thread creation, priorities, consoles, and the waiting macros of `task.h`.
- Heartbeats are counted by `Task.Task.AfterTimedWait` only.
- The sine table of RFC 1321 is taken as its 64 constants, not derived from the sine function.
- `hlist_*`, list splicing and cutting.
