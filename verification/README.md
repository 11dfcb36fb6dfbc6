# SharedGL: a verified model

SharedGL forwards OpenGL from guests to a host, through shared memory or over a network. This project models four of its
parts in Dafny and proves what they are for.

**LZAV** (`Lzav*.dfy`) compresses framebuffers for the network. `LzavFormat` says what stream format 2 means: a list of
literal runs and back-references, with an offset spread over up to three headers. `LzavParse` proves that printing and
parsing are inverse. `LzavWrite`, `LzavEmit` and `LzavBound` are the block writer, proved to print that format within the
promised size; `LzavMatch` and `LzavPortable` the word-wise comparison; `LzavHash`, `LzavCompress` and `LzavCompressHi` the
two match finders, and `LzavGreedy` what their passes come to; `LzavCopy` and `LzavDecompress` the decoder with its
overshooting copies, proved to agree with a decoder that works byte by byte. `LzavRoundTrip` puts them together.

**ENet** (`Enet*.dfy`) is the reliable transport below. `EnetSequence` relates 16-bit numbers and their sixteen windows to
unbounded ones. `EnetReceive` is the receiving half of a channel and `EnetSend` the sending half, as functions and as classes
that work in place; `EnetOrder` and `EnetDeliver` say what the receiver knows, `EnetBounds` what it keeps whatever arrives,
`EnetGate` and `EnetWindow` what the sender keeps. `EnetLink` runs both over a network that loses, repeats and reorders, and proves delivery in order, that
acknowledgements tell the truth, and that an idle sender has delivered everything. `EnetRecover` proves that the channel
recovers even from the loss of all that is on its way, unless packets are too long or flow control's limit has sunk;
`EnetStale` and `EnetBlocked` are the runs that show why (`EnetRounds` has what they share), `EnetExact` proves that there is
no other reason, and `EnetGhost` shows what one datagram too old does. `EnetSplit` cuts packets into fragments,
`EnetUnsequenced` is the window of unsequenced groups, `EnetHost` the life of connections and `EnetBandwidth` the sharing of
bandwidth.

**Shared memory** (`Shm*.dfy`) is the submission protocol: any number of clients and the server, one access to the shared
memory at a time, in any order. `ShmProtocol` is the state machine, `ShmSafety` its invariant, `ShmConnect` the one about
connections, `ShmTheorems` the results over all runs; `ShmProgress` proves that clients and server never lock each other.
`PushBuffer` is what a client fills before it submits.

**Driver events** (`Driver*.dfy`) are the interrupts of the Windows driver: the table of event slots, the routines that
change it, and their interleavings, in which every interrupt reaches the events registered for it.

`Bits` and `Masks` are about numbers as bits.

Some results are not what one might expect:

- A submission can be executed before the server has added its client: the server looks at CONNECT first and at SUBMIT
  after that, and a client can do both in between (`ShmTheorems.FirstMayBeUnknown`). `ShmTheorems.KnownClient` says exactly
  when: if CONNECT still names the client. From the second submission on it cannot happen.
- The interrupt routine lets message 64 through, which has no bit of its own and sets that of message 0
  (`DriverRun.MessageSixtyFour`); `DriverRun.WordIsExact` says when the word is still right.
- Two windows beyond those it accepts, the ENet receiver sends no acknowledgement; together with the rule that a window
  begins only after an acknowledgement from the one before, this keeps acknowledgements true for packets of any number of
  fragments (`EnetLink.OpeningAcked`, `EnetLink.AcknowledgedIsHeld`).
- Duplicates older than nine windows, or unsequenced groups more than 32768 behind, are taken for new ones
  (`EnetSequence.StaleRejected`, `EnetUnsequenced.StaleGroup`); the results over runs exclude them, and unsequenced groups a
  whole circle ahead.
- The sender itself can break that rule for ENet: the receiver judges a fragment by the first number of its packet, so the
  last fragment of a packet of more than 12289, sent again when later packets have been dispatched, can be ten windows
  behind. With fragments of 1400 bytes this is a packet of 17 MB, within the default limit of 32 MB. Up to 12289 fragments it
  never happens (`EnetStale.FreshExactly`). If such a fragment is delivered once, the receiver takes it for new; when the
  numbers have come round, a packet is acknowledged and thrown away, and nothing is dispatched any more
  (`EnetGhost.OneTooOld`).
- Flow control can block a channel. Commands seven windows beyond the one the receiver waits for are sent, but
  neither taken nor acknowledged; time-outs can put them in front of that one; and if the limit sinks so far that they fill
  it, that one is not sent again until it rises (`EnetBlocked.BlockedRun`, `EnetBlocked.BlockedForever`). While the limit is
  not lower than it ever was, this cannot happen (`EnetExact.RecoversExactly`).
- A good round trip can lower a peer's throttle: the acceleration is the other side's choice, and the sum wraps.
  `EnetHost.ThrottleMoves` says exactly when.
- An acknowledgement may be fifteen windows old, not only nine like a datagram (`EnetWindow.FifteenExactly`).

## Model

| member | source | states |
|---|---|---|
| LzavMatch.MatchLen | inc/lzav.h:448-585 | the word-wise comparison returns the exact length of the common prefix, at most `ml` |
| LzavMatch.MatchLenR | inc/lzav.h:596-641 | the backward comparison returns the exact length of the common suffix, at most `ml` |
| LzavMatch.XorCtzIsFirstDiff | inc/lzav.h:458-472 | for any two different words, the trailing zeros of their exclusive-or, divided by eight, give the first differing byte |
| LzavMatch.XorWords | inc/lzav.h:459-472 | the exclusive-or of two words is zero exactly if they agree, and otherwise tells where they first differ |
| LzavMatch.MatchTail | inc/lzav.h:558-583 | the last bytes, one by one |
| LzavMatch.XorHalfwords | inc/lzav.h:616-632 | two bytes at a time, backwards |
| LzavPortable.PortableIsCtz64 | inc/lzav.h:495-497 | the portable multiply-and-mask expression equals counting trailing zeros, for every nonzero 64-bit word |
| LzavPortable.PortableIsCtz32 | inc/lzav.h:546-549 | the same for every nonzero 32-bit word |
| LzavParse.ParsePrint | inc/lzav.h:696-836 | parsing printed blocks gives them back, whatever offset bits are carried in from earlier headers, for every literal and reference length in range |
| LzavParse.ParseStream | inc/lzav.h:649-678 | printer and parser are inverse on whole streams, prefix byte included |
| LzavParse.StreamInjective | inc/lzav.h:649-678 | a stream has only one reading |
| LzavWrite.PrintAppend | inc/lzav.h:696-794 | printing a list of blocks is printing its parts, with the carry between them |
| LzavWrite.PrintPatch | inc/lzav.h:700-713 | patching the spare bits of an earlier 23-bit header turns the bytes printed without a carry into those printed with it |
| LzavWrite.PatchCarry | inc/lzav.h:700-713 | the patch writes exactly the low bits of the next offset and touches no other byte |
| LzavWrite.WriteLit | inc/lzav.h:707-761 | the literal header, its length bytes and the literals, though wide copies write beyond them |
| LzavWrite.WriteRef | inc/lzav.h:763-794 | the reference header, offset and length bytes of one block, and where later bits may be carried |
| LzavWrite.WriteBlk | inc/lzav.h:696-794 | one more block has been printed; the length is what the format says and nothing beyond 18 bytes past the literals is touched |
| LzavWrite.WriteVar | inc/lzav.h:744-756 | the variable-length count, seven bits a byte |
| LzavWrite.WriteLit32 | inc/lzav.h:731-741 | 17 to 32 literals with two wide copies |
| LzavWrite.WriteLitLong | inc/lzav.h:742-760 | more literals than that |
| LzavWrite.WriteExt | inc/lzav.h:786-794 | the additional length bytes of a reference |
| LzavWrite.WriteParts | inc/lzav.h:707-794 | both headers of a block, one after the other |
| LzavEmit.WriteFin | inc/lzav.h:811-836 | the final literal block, without carried bits |
| LzavEmit.EmitBlock | inc/lzav.h:1196-1218 | writing the block of a true match keeps: the blocks written decode to the source consumed, within the amortised size |
| LzavEmit.Finish | inc/lzav.h:1263-1270 | the final literals make a complete stream whose blocks decode to the whole source |
| LzavBound.BlockCost | inc/lzav.h:846-878 | a block costs at most one byte more than the source it stands for in every 150 (149) bytes |
| LzavBound.RoomForBlock | inc/lzav.h:846-857 | while blocks are amortised there is room in the promised bound for the next block, its wide copies included |
| LzavBound.RoomForBlockHi | inc/lzav.h:868-878 | the same for the higher-ratio bound |
| LzavBound.RoomToFinish | inc/lzav.h:811-878 | and for the final literals |
| LzavBound.BoundAtMost | inc/lzav.h:846-878 | the bounds are at most a 150th, or a 21st, more than the source, and 20 bytes |
| LzavBound.WorstBlock | inc/lzav.h:846-878 | a block cannot cost less in the worst case: 144 literals and a far reference to six bytes take 151 bytes |
| LzavHash.HtInit | inc/lzav.h:892-912 | every tuple of the table is the initial one, although it is filled 64 bytes at a time from itself |
| LzavHash.HashItem | inc/lzav.h:924-935 | the masked hash is always the offset of a whole item inside the table |
| LzavHash.MaskedInRange | inc/lzav.h:924-935 | for any hash and any table of whole items |
| LzavHash.WindowCheck | inc/lzav.h:1150-1155 | the single wrapping comparison rejects exactly the offsets outside [8, 2^23) |
| LzavHash.ExtendBack | inc/lzav.h:1196-1214 | taking back literals: the match stays true and cannot be taken back further within its limits |
| LzavHash.MatchFrom | inc/lzav.h:1163-1165 | the match length when the first bytes are known to agree |
| LzavCompress.FindTuple | inc/lzav.h:1098-1142 | a tuple is found exactly if one of the item records the same six source bytes, the first of the two if both do |
| LzavCompress.HashSize | inc/lzav.h:1013-1063 | the table size is the smallest doubling that suits the source, its caps and the caller's buffer |
| LzavCompress.UpdateTable | inc/lzav.h:1167-1194 | the position is recorded in front of its item, unless the match only repeats what lies next to it, and the one two bytes on behind; the table keeps recording real source bytes |
| LzavCompress.Match | inc/lzav.h:1144-1220 | a found tuple becomes a block for the longest true match in range; the loop invariant is kept |
| LzavCompress.Step | inc/lzav.h:1086-1261 | one pass of the greedy loop keeps the invariant, moves the cursor on, and writes a block exactly for a hit inside the window |
| LzavCompress.CompressShort | inc/lzav.h:984-1004 | sources under 16 bytes become one padded literal block that decodes to them |
| LzavCompress.Compress | inc/lzav.h:976-1271 | zero exactly for an empty source or too small a buffer, of which a 150th more than the source and 20 bytes suffice; otherwise a complete stream within the bound, of the blocks that whole passes give, and no byte beyond it touched; a run of one byte takes at most an 88th of its length and 80 bytes |
| LzavCompress.InitTable | inc/lzav.h:1065-1070 | all tuples of a new table record the first bytes of the source |
| LzavCompress.Measure | inc/lzav.h:1144-1214 | the match of a found tuple is measured and extended back; it cannot be longer |
| LzavCompress.Skip | inc/lzav.h:1231-1260 | a miss moves the cursor on, farther the lower the average of matches is |
| LzavCompress.StrideGrows | inc/lzav.h:1242-1259 | the lower the average the farther, and never more than 104 bytes |
| LzavCompress.Scan | inc/lzav.h:1072-1261 | the greedy loop is a run of passes that consumes the source up to the final literals |
| LzavCompress.RunStep | inc/lzav.h:1170-1180 | in a run of one byte matches double and then have full length, since a match that repeats what lies next to it is not recorded |
| LzavCompress.CompressLong | inc/lzav.h:1011-1270 | sources of 16 bytes and more |
| LzavCompressHi.HtInsert | inc/lzav.h:1326-1333 | the new tuple takes the place of the oldest, which becomes the ring's head; nothing else changes |
| LzavCompressHi.FindBest | inc/lzav.h:1449-1478 | the match found is true, does not overlap its own output, none of the seven ring positions gives a longer one, and none before it as long a one |
| LzavCompressHi.EstimateIsExact | inc/lzav.h:1305-1318 | the size estimate is the exact size of a block with a short match and fewer than 144 literals |
| LzavCompressHi.Search | inc/lzav.h:1424-1530 | what is looked up is the best match of the ring, extended back as far as it goes, and may be written exactly if it is worth its offset and in the window; the position is recorded |
| LzavCompressHi.Choose | inc/lzav.h:1532-1585 | the match with more bytes for each byte of its estimated block is written; a current match that does not overlap a written one is saved; the loop invariant is kept |
| LzavCompressHi.DenserBySize | inc/lzav.h:1532-1550 | between short matches the one is written that stands for more source bytes by each byte of its block, as the format counts them |
| LzavCompressHi.MissIsNoted | inc/lzav.h:1480-1488 | a position without a match is recorded and is the first in its ring |
| LzavCompressHi.HashSize | inc/lzav.h:1385-1393 | the table size is the smallest doubling from 8 KiB to 8 MiB that suits the source |
| LzavCompressHi.CompressHi | inc/lzav.h:1351-1601 | as `lzav_compress`, with its own bound, of which a 21st more than the source and 20 bytes suffice |
| LzavCompressHi.TryTuple | inc/lzav.h:1453-1477 | one tuple of the ring: the longer match is taken |
| LzavCompressHi.Commit | inc/lzav.h:1553-1555 | a good match is written as a block |
| LzavCompressHi.InsertSkipped | inc/lzav.h:1575-1581 | the position four bytes into a written match is recorded |
| LzavCompressHi.InsertedFirst | inc/lzav.h:1326-1333 | read from its head, a ring holds the newest tuple first |
| LzavCompressHi.Step | inc/lzav.h:1424-1586 | one pass of the lazy loop keeps the invariant and moves the cursor on: a first match is saved, a second one compared with it |
| LzavCompressHi.Scan | inc/lzav.h:1400-1594 | the lazy loop is a run of passes, and the match still saved at its end is written |
| LzavCompressHi.CompressLong | inc/lzav.h:1384-1600 | sources of 16 bytes and more |
| LzavGreedy.GreedyParse | inc/lzav.h:1086-1261 | whatever the source, no reference of the stream could have been longer: it ends where the bytes differ, it would overlap, the format's limit is reached, or the final literals begin |
| LzavGreedy.GreedyParseHi | inc/lzav.h:1424-1594 | the same for the higher-ratio compressor, whichever matches its comparisons choose |
| LzavCopy.CopyRefBytes | inc/lzav.h:1767-1780 | a byte-at-a-time copy keeps what was there and appends `n` bytes, each equal to the one `d` before it, appended ones included |
| LzavCopy.CopyRefSlice | inc/lzav.h:1738-1826 | a byte-at-a-time copy from at least as far back as it is long is a block copy |
| LzavCopy.CopyTwo | inc/lzav.h:1740-1762 | two overshooting chunk copies do what the byte-at-a-time copy does |
| LzavCopy.CopyLong | inc/lzav.h:1798-1812 | so does the 64-byte copy loop |
| LzavCopy.CopyChunk | inc/lzav.h:1740-1762 | one chunk of a wide copy |
| LzavCopy.Copy64 | inc/lzav.h:1800-1808 | 64 bytes in four copies |
| LzavCopy.CopyLongIn | inc/lzav.h:1899-1912 | the 64-byte loop from the source |
| LzavDecompress.ShortMatch | inc/lzav.h:1733-1781 | each branch for short references is the byte-at-a-time copy, or the exact error |
| LzavDecompress.LongMatch | inc/lzav.h:1784-1831 | the same for long references |
| LzavDecompress.ReadOffset | inc/lzav.h:1697-1727 | the offset joined from up to three headers is the one that was printed |
| LzavDecompress.ReadVarLen | inc/lzav.h:1855-1886 | the variable-length literal count is the one the format defines |
| LzavDecompress.LitStep | inc/lzav.h:1834-1964 | a literal block: fast copies and exact copies; a run that claims more than the source holds is copied as far as it is there and reported as such |
| LzavDecompress.RefStep | inc/lzav.h:1695-1832 | a reference block, likewise; an offset beyond what has been written is reported and nothing changed |
| LzavDecompress.Decompress2 | inc/lzav.h:1648-1990 | on any input it stays inside both buffers; on a stream with a meaning it returns exactly the code and the bytes a byte-at-a-time decoder would, at every capacity |
| LzavDecompress.Decompress | inc/lzav.h:2332-2366 | the whole output in a destination of its length, or the right error code |
| LzavDecompress.DecompressPartial | inc/lzav.h:2279-2297 | as much of the output as fits |
| LzavDecompress.ExactMatch | inc/lzav.h:1767-1781 | near the end of the destination: exact copies, or the exact error |
| LzavDecompress.ReadLength | inc/lzav.h:1731-1796 | the reference length from its header and up to two bytes more |
| LzavDecompress.MatchStep | inc/lzav.h:1731-1831 | a reference whose offset is known |
| LzavDecompress.LitExact | inc/lzav.h:1918-1945 | literals near the end of either buffer |
| LzavDecompress.LitPastSource | inc/lzav.h:1947-1960 | literals that go beyond the source: as many as there are, or fit, are copied |
| LzavDecompress.Step | inc/lzav.h:1689-1965 | one pass of the decoder's loop |
| LzavRoundTrip.CompleteMeaning | inc/lzav.h:1263-1270 | a complete stream means its source, to the byte-at-a-time decoder |
| LzavRoundTrip.DecodePrefix | inc/lzav.h:2279-2366 | decoding a compressed source into any capacity `m` gives its first min(m, length) bytes |
| LzavRoundTrip.RoundTrip | inc/lzav.h:976-1990 | decompressing what `lzav_compress` made gives back the source, for every non-empty source under 2 GiB |
| LzavRoundTrip.RoundTripHi | inc/lzav.h:1351-1990 | the same for `lzav_compress_hi` |
| EnetSequence.StaleRejected | inc/network/enet.h:4373-4384 | a number behind the receiver is taken for a new one exactly when it is staler than nine windows |
| EnetSequence.AheadWindows | inc/network/enet.h:4137-4152 | being accepted and being acknowledged, in terms of unbounded numbers ahead of the receiver |
| EnetSequence.BeforeIsAhead | inc/network/enet.h:4400-4411 | the queue's wrapped comparison is the order around the circle |
| EnetReceive.Channel.Dispatch | inc/network/enet.h:4322-4347 | in place, the commands that are ready are dispatched in order |
| EnetReceive.Channel.Place | inc/network/enet.h:4394-4415 | the search from the end of the queue |
| EnetReceive.Channel.QueueIncoming | inc/network/enet.h:4359-4542 | queueing, discarding or refusing a command |
| EnetReceive.Channel.HandleReliable | inc/network/enet.h:2006-2025 | a reliable command |
| EnetReceive.Channel.HandleFragment | inc/network/enet.h:2093-2199 | a fragment, with all its checks |
| EnetReceive.DrainKeeps | inc/network/enet.h:4325-4340 | dispatching stops in front of an incomplete group |
| EnetOrder.Complete | inc/network/enet.h:2183-2195 | a group of fragments is complete exactly when the last distinct one has arrived, and then it is the packet |
| EnetOrder.DrainDelivers | inc/network/enet.h:4322-4347 | dispatching delivers the next packets whole, leaves nothing that could go, and loses nothing |
| EnetDeliver.ScanSorted | inc/network/enet.h:4394-4415 | in a sorted queue the walk finds the place or the duplicate, across the wrap |
| EnetDeliver.ReliableArrives | inc/network/enet.h:4359-4542 | any timely whole packet: state stays right, at most that number is new, and if it is acknowledged it is held |
| EnetDeliver.FragmentArrives | inc/network/enet.h:2093-2199 | the same for any fragment, in any order, with duplicates |
| EnetBounds.AnyArrival | inc/network/enet.h:2093-2199 | whatever a datagram says: no packet longer than allowed is held or dispatched, and the counter of missing fragments is exact |
| EnetBounds.AnyRun | inc/network/enet.h:4322-4357 | so it is after any run of datagrams, and a group that counts as complete has had each of its fragments |
| EnetBounds.StoreBounded | inc/network/enet.h:2182-2196 | a fragment is counted once, and the counter does not wrap |
| EnetGate.GateTest | inc/network/enet.h:3017-3031 | the mask test passes exactly when none of the ten windows ahead is in use |
| EnetSend.Outgoing.MaySend | inc/network/enet.h:3017-3043 | the gate and the transit limit |
| EnetSend.Outgoing.SendHead | inc/network/enet.h:3061-3082 | a command goes out: counters, bits, data in transit |
| EnetSend.Outgoing.CheckOutgoing | inc/network/enet.h:2987-3082 | the sending loop is a run of allowed sends that stops only when it must |
| EnetSend.Outgoing.RemoveSent | inc/network/enet.h:1795-1861 | an acknowledgement, in place |
| EnetSend.Outgoing.FindIn | inc/network/enet.h:1775-1793 | the search that ends at commands never sent |
| EnetSend.Outgoing.CheckTimeouts | inc/network/enet.h:2934-2985 | commands that time out go back to the front of the queue in order |
| EnetSend.LimitRange | inc/network/enet.h:3035-3038 | the same for any window, throttle and mtu in range |
| EnetSend.LimitMeaning | inc/network/enet.h:3035-3038 | the limit is the whole window without a throttle, the mtu at throttle zero, and between them the throttle's thirty-seconds of the window, rounded down |
| EnetSend.LimitMonotone | inc/network/enet.h:3035-3038 | a larger throttle, window or mtu never lowers it |
| EnetSend.Outgoing.SetupOutgoing | inc/network/enet.h:4168-4225 | a command takes the next number and waits |
| EnetSend.Outgoing.ReleaseWindow | inc/network/enet.h:1823-1833 | one command less in its window |
| EnetWindow.QueueStep | inc/network/enet.h:4168-4246 | queueing keeps the sender's invariant |
| EnetWindow.GateKeepsClose | inc/network/enet.h:3017-3031 | a window is only opened when every unacknowledged command is in it or the six before it |
| EnetWindow.SendNewOk | inc/network/enet.h:3061-3082 | a first send keeps the invariant: counters count, bits mark, seven windows |
| EnetWindow.ResendOk | inc/network/enet.h:3061-3082 | so does a repeated send, which is not counted again |
| EnetWindow.AckOk | inc/network/enet.h:1795-1861 | an acknowledgement no staler than fifteen windows removes exactly the command it means, or nothing |
| EnetWindow.FifteenExactly | inc/network/enet.h:1795-1861 | acknowledgements up to `d` windows old are attributed correctly in every state of the invariant exactly if `d` is at most fifteen |
| EnetWindow.TimeOutOk | inc/network/enet.h:2934-2985 | time-outs keep the invariant and every unacknowledged command |
| EnetWindow.NeverStuck | inc/network/enet.h:3017-3043 | with nothing in flight the first waiting command may be sent |
| EnetWindow.TimeOutFrees | inc/network/enet.h:2934-2985 | so after everything has timed out, sending goes on |
| EnetLink.OpeningAcked | inc/network/enet.h:3023-3025 | a window begins only if a command of the one before has been acknowledged |
| EnetLink.DataStep | inc/network/enet.h:4137-4152 | a datagram arriving keeps the agreement of both ends |
| EnetLink.DispatchedInOrder | inc/network/enet.h:4322-4357 | in every run over a network that loses, repeats and reorders, the packets dispatched are the first ones sent, whole and in order |
| EnetLink.AcknowledgedIsHeld | inc/network/enet.h:4137-4152 | in every run, what is acknowledged, and what the sender has forgotten, is dispatched or held |
| EnetLink.SenderWindow | inc/network/enet.h:3017-3082 | in every run, for any windows, throttles and mtus in range, reliableWindows counts the unacknowledged commands, the bits mark them, they lie in the seven newest windows, and the data in transit is theirs and at most 65536 |
| EnetLink.NextIncomplete | inc/network/enet.h:4331-4333 | whatever has arrived, the next packet lacks a number |
| EnetLink.IdleDispatched | inc/network/enet.h:1795-1861 | the same in any state that keeps the invariant |
| EnetLink.AllDelivered | inc/network/enet.h:1795-1861 | a sender with nothing waiting and nothing unacknowledged has had everything dispatched |
| EnetRecover.DatagramRun | inc/network/enet.h:2997-3082 | what one datagram takes from the queue is a run of single steps |
| EnetRecover.ThreeWindows | inc/network/enet.h:2115-2125 | a fragment is at most three windows behind the first of its packet exactly if the packet has at most 12289 fragments |
| EnetRecover.OpenIsFresh | inc/network/enet.h:2115-2125 | an unacknowledged fragment of such a packet, sent again, is never taken for a newer one |
| EnetRecover.CatchUp | inc/network/enet.h:4322-4357 | from every state that keeps the invariant, what the receiver lacks can be delivered, and it then lacks nothing that was sent |
| EnetRecover.AckOne | inc/network/enet.h:1795-1861 | when nothing is missing and packets have at most 12289 fragments, any one unacknowledged command on the wire can be delivered again and acknowledged, and no other changes |
| EnetRecover.AckAll | inc/network/enet.h:1795-1861 | and so can all of them, for packets of at most 12289 fragments |
| EnetRecover.SendOne | inc/network/enet.h:3017-3082 | when all is acknowledged, gates and flow control let the next command out, if it is no longer than the limit |
| EnetRecover.FinishFrom | inc/network/enet.h:3017-3082 | from every state that keeps the invariant and has everything unacknowledged on the wire, with packets of at most 12289 fragments and no command longer than the limit, some continuation leaves the sender with nothing queued and nothing unacknowledged |
| EnetRecover.UnackedFits | inc/network/enet.h:3035-3043 | in every run, what is unacknowledged, in flight or waiting to be sent again, is at most what flow control has allowed at some time, and at most 65536 bytes |
| EnetRecover.BackOnWire | inc/network/enet.h:2946-2976 | after a total loss, if the limit is not lower than what is unacknowledged, time-outs and sending again put every unacknowledged command back on the wire |
| EnetRecover.CanFinish | inc/network/enet.h:3017-3082 | after any run with packets of at most 12289 fragments, even if all that is on its way is then lost: if flow control's limit is not lower than what is unacknowledged, nor than any piece, some continuation delivers every packet sent, whole and in order, and acknowledges it |
| EnetRounds.GateOpen | inc/network/enet.h:3023-3025 | with one command unacknowledged, the gate lets a command out up to six windows beyond it |
| EnetRounds.GoOut | inc/network/enet.h:3017-3082 | so the next command goes out, if the limit has room for it beside that one |
| EnetStale.EndState | inc/network/enet.h:3023-3025 | the run reaches a state where everything is dispatched, ten windows on, and the last fragment of a packet of 12290 is unacknowledged |
| EnetStale.FreshExactly | inc/network/enet.h:2115-2125 | a fragment sent again is never too stale for the receiver, in any run, exactly if packets have, or the receiver's limit allows them, at most 12289 fragments |
| EnetBlocked.Refused | inc/network/enet.h:4149-4152 | a command seven windows beyond the one the receiver waits for is neither taken nor acknowledged |
| EnetBlocked.SendBlocked | inc/network/enet.h:3035-3043 | while such commands fill the limit, only they can go out |
| EnetBlocked.TimeOutBlocked | inc/network/enet.h:2971-2976 | time-outs put them in front of the one the receiver waits for |
| EnetBlocked.BlockedForever | inc/network/enet.h:3035-3043 | so while the limit stays there, nothing that follows gets anything to the receiver or empties the queue |
| EnetBlocked.BlockedRun | inc/network/enet.h:3035-3043 | for every peer's window, throttle and mtu, and every lower limit, a run leads there by one loss, with packets of one piece |
| EnetExact.StuckForever | inc/network/enet.h:2115-2125 | once the last fragment of a packet of 12290 is too stale and its acknowledgements are lost, nothing that follows acknowledges it or finishes |
| EnetExact.RecoversExactly | inc/network/enet.h:3017-3082 | after every run, and though all that is on its way is lost, everything can still be delivered, whole and in order, and acknowledged: exactly if the limit that flow control computes has not sunk below one it computed before, and packets have, or the receiver's limit allows them, at most 12289 fragments |
| EnetGhost.TakenForNew | inc/network/enet.h:2127-2196 | a fragment of 12290 that is ten windows too old starts a new group and is acknowledged |
| EnetGhost.JamKeeps | inc/network/enet.h:4322-4357 | with such a group next in line, no datagram of another group makes the receiver dispatch anything |
| EnetGhost.NothingMore | inc/network/enet.h:4322-4357 | and so nothing is dispatched any more in any run that follows |
| EnetGhost.OneTooOld | inc/network/enet.h:2115-2125 | one datagram delivered against the rule of nine windows, in runs that otherwise keep all rules, leads to an idle sender with a packet that is acknowledged, neither dispatched nor held, and to a receiver that never dispatches again |
| EnetSplit.Cut | inc/network/enet.h:3702-3747 | the fragments partition the data into exactly the announced number, all full but the last |
| EnetSplit.PeerSend | inc/network/enet.h:3679-3783 | a packet becomes exactly the datagrams of the next packet of the channel, or is refused; no datagram exceeds the mtu, all but the last fill it, and a packet stays whole exactly if it would fit into one fragment |
| EnetSplit.DataInOrder | inc/network/enet.h:3679-3783 | in every run the data dispatched is a prefix of the data given to send |
| EnetSplit.FragmentLength | inc/network/enet.h:3690-3693 | the room for data in a datagram, never zero |
| EnetSplit.FragmentFills | inc/network/enet.h:3690-3693 | a fragment of that length fills a datagram to the mtu exactly |
| EnetUnsequenced.Peer.HandleSendUnsequenced | inc/network/enet.h:2027-2068 | the 1024-bit window, in place |
| EnetUnsequenced.ArriveOnce | inc/network/enet.h:2041-2065 | a recent group is accepted exactly if its packet was queued, it is in the forward half and it is new; the bitmap records exactly the accepted groups of the current window |
| EnetUnsequenced.RetryAccepted | inc/network/enet.h:2059-2065 | a group whose packet could not be queued is not recorded, and is accepted when it comes again and is queued |
| EnetUnsequenced.DeliveredExactly | inc/network/enet.h:2027-2068 | over any sequence of recent arrivals exactly those groups are delivered of which some arrival was queued and still in the forward half |
| EnetUnsequenced.StaleGroup | inc/network/enet.h:2044-2050 | a group is taken for a new one exactly when it is more than 32768 behind |
| EnetUnsequenced.AtMostOnce | inc/network/enet.h:2027-2068 | over any sequence of recent arrivals no group is delivered twice |
| EnetUnsequenced.DeliveredOnce | inc/network/enet.h:2027-2068 | in particular on a new connection |
| EnetHost.PeerLimit | inc/network/enet.h:3035-3038 | the limit that flow control computes for any peer is between its mtu and 65536 |
| EnetHost.Host.ChangeState | inc/network/enet.h:1609-1619 | the counters follow every change of state |
| EnetHost.Host.Reset | inc/network/enet.h:3927-3985 | and a reset |
| EnetHost.Host.Connect | inc/network/enet.h:4735-4751 | a new outgoing connection, its window between 4096 and 65536 |
| EnetHost.Host.HandleConnect | inc/network/enet.h:1904-1993 | a new incoming connection: its window and mtu, and the window it answers with |
| EnetHost.Host.VerifyConnect | inc/network/enet.h:2505-2566 | the answer to a connect; window and mtu are narrowed within their range |
| EnetHost.NarrowMeaning | inc/network/enet.h:2536-2559 | a window or mtu never grows; what the other side tells counts as far as it is in range |
| EnetHost.Handshake | inc/network/enet.h:1944-1993 | after a handshake both ends have the same mtu, and the client's window is the smaller of its own and the one for the server's bandwidth |
| EnetHost.Host.NotifyConnect | inc/network/enet.h:1685-1702 | a connection is made |
| EnetHost.Host.DispatchPeer | inc/network/enet.h:1630-1682 | a pending connection or a zombie is dispatched |
| EnetHost.Host.NotifyDisconnect | inc/network/enet.h:1704-1742 | a connection ends or times out |
| EnetHost.Host.HandleDisconnect | inc/network/enet.h:2381-2408 | the other side disconnects |
| EnetHost.Host.Disconnect | inc/network/enet.h:4074-4107 | this side disconnects |
| EnetHost.Host.DisconnectAfter | inc/network/enet.h:4126-4135 | or does so later |
| EnetHost.Host.HandleBandwidthLimit | inc/network/enet.h:2333-2365 | the other side's limits change |
| EnetHost.Host.PeerThrottle | inc/network/enet.h:3550-3574 | the throttle follows the round-trip time and never exceeds its limit |
| EnetHost.ThrottleMoves | inc/network/enet.h:3550-3574 | a bad round trip never raises the throttle; a good one never lowers it, exactly if the sum with the other side's acceleration does not wrap |
| EnetHost.GoodRun | inc/network/enet.h:3554-3562 | a run of good round trips lifts it by equal steps to its limit |
| EnetHost.BadRun | inc/network/enet.h:3563-3571 | a run of bad ones lowers it by equal steps to zero |
| EnetHost.ResetStarts | inc/network/enet.h:3927-3985 | a reset peer starts without limits, data or throttle; exactly sixteen good round trips make up for a collapse |
| EnetHost.WindowFor | inc/network/enet.h:2348-2362 | the window for two bandwidths is between 4096 and 65536 |
| EnetHost.WindowMeaning | inc/network/enet.h:2348-2362 | 4 KiB for each 64 KiB a second of the smaller bandwidth, an unlimited one not counting |
| EnetBandwidth.TakeOwn | inc/network/enet.h:4949-4972 | a peer that cannot take its share leaves enough for the others: neither total underflows |
| EnetBandwidth.AdjustOne | inc/network/enet.h:4949-4972 | limiting one peer keeps the books balanced and a peer to count |
| EnetBandwidth.Round | inc/network/enet.h:4931-4974 | one round ends with fewer peers or with none that gets too much |
| EnetBandwidth.ThrottleOutgoing | inc/network/enet.h:4890-5000 | every due peer gets its own bandwidth or the common throttle, and together they never exceed the budget, peers raised to limit 1 apart; the common throttle is the largest that what is left of data and budget allows |
| EnetBandwidth.AdjustedMeaning | inc/network/enet.h:4949-4972 | a peer's own limit is the largest that keeps its data within its own bandwidth, or one step |
| EnetBandwidth.TooMuchMeaning | inc/network/enet.h:4945-4947 | a peer gets its own limit exactly if the common throttle would send it a byte more than it can take |
| EnetBandwidth.NextLimit | inc/network/enet.h:5012-5015 | the common limit never falls from one round to the next |
| EnetBandwidth.ToldSum | inc/network/enet.h:5012-5050 | what is told adds up to what the marked peers ask and the limit for the others |
| EnetBandwidth.ShareIncoming | inc/network/enet.h:5002-5053 | every peer is told what it asks for up to one limit; never more than the host has, and less than one unit a peer is left over |
| EnetBandwidth.Share | inc/network/enet.h:4933-4938 | the common throttle is all of it, or the largest that keeps the data within the bandwidth |
| EnetBandwidth.DataTotal | inc/network/enet.h:4921-4928 | the data waiting for all live peers |
| EnetBandwidth.ApplyCommon | inc/network/enet.h:4976-5000 | the peers that remain get the common throttle, within the budget |
| EnetBandwidth.MarkRound | inc/network/enet.h:5012-5034 | one round of the incoming side |
| ShmLayout.OwnMailbox | src/client/pb.c:62-89 | a client's own registers resolve into its mailbox |
| ShmLayout.MailboxesApart | inc/sharedgl.h:50-60 | and never meet another client's, a global register or the stage |
| ShmLayout.ClaimSlot | src/client/glimpl.c:619-636 | the first free slot, and the mask with its bit |
| ShmLayout.FirstFreeIs | src/client/glimpl.c:627-633 | the slot is free and all before it are taken |
| ShmLayout.ClaimAndRelease | src/server/processor.c:148-153 | claiming and releasing change one slot |
| ShmSafety.ClientStepOk | src/client/glimpl.c:415-452 | every access of a client, in submission and in connecting, keeps the invariant |
| ShmSafety.ServerStepOk | src/server/processor.c:171-212 | every access of the server keeps it |
| ShmSafety.RunOk | src/client/glimpl.c:415-452 | so does every interleaving |
| ShmConnect.ClientConn | src/client/glimpl.c:657-666 | a client's access keeps: announced or connected, never both |
| ShmConnect.ServerConn | src/server/processor.c:171-212 | and so does the server's |
| ShmTheorems.OneHolder | src/client/spinlock.c:13-30 | at most one client, or the server, is between lock and unlock |
| ShmTheorems.DistinctSlots | src/client/glimpl.c:638-666 | live clients have different slots and disjoint registers |
| ShmTheorems.TakenWhole | src/server/processor.c:406-410 | what the server executes is the complete buffer of one client that waits |
| ShmTheorems.StageStable | src/client/glimpl.c:431-448 | while SUBMIT is raised no client writes the stage or lowers it |
| ShmTheorems.Granted | src/client/glimpl.c:619-666 | in every run a claim is granted exactly if a slot is free: the lowest one, which belonged to nobody |
| ShmTheorems.Submits | src/client/glimpl.c:405-425 | in every run a client with a slot begins to submit whatever fits the stage, but no goodbye before anything else; what does not fit is answered with zero |
| ShmTheorems.OwnAnswers | src/server/processor.c:6237-6243 | a client's submissions are each executed once, in order, and it reads the answer to each |
| ShmTheorems.NeverRejected | src/server/processor.c:391-404 | the server never meets an invalid client or an oversized submission |
| ShmTheorems.KnownClient | src/server/processor.c:178-210 | a submission is executed with a connection for its client exactly if the client's announcement is not still pending, and always from the second on |
| ShmTheorems.FirstMayBeUnknown | src/server/processor.c:178-210 | a run in which the first submission is executed before the server has added the client |
| ShmTheorems.Reachable | src/client/glimpl.c:415-452 | both invariants hold in every reachable state |
| ShmProgress.NeverLocked | src/client/glimpl.c:431-452 | from every reachable state some continuation answers every submission and ends every claim of a slot: no order of accesses locks clients and server for good |
| ShmProgress.HolderMoves | src/client/glimpl.c:628-668 | whoever holds the lock comes to free it |
| ShmProgress.ServerMoves | src/server/processor.c:178-212 | while no client holds the lock, the server comes to rest |
| ShmProgress.GetsAhead | src/client/glimpl.c:431-452 | with the server at rest, a client that is not done gets nearer to its end |
| PushBuffer.Buffer.Write | src/client/pb.c:227-305 | a push is appended whole, or the overflow flag is raised |
| PushBuffer.Buffer.Realign | src/client/pb.c:312-323 | alignment to the next word |
| PushBuffer.Buffer.Submit | src/client/glimpl.c:478-499 | the stage receives exactly the pushes since the last reset and the final zero, if all fitted; otherwise nothing |
| PushBuffer.UploadBuffer | src/client/glimpl.c:1022-1027 | an upload of contiguous data |
| PushBuffer.PushClientPointer | src/client/glimpl.c:1062-1088 | an upload from client memory, packed or strided |
| PushBuffer.UploadFramed | src/server/processor.c:465-471 | the reader that skips the announced words finds the next command, and the data |
| PushBuffer.StridedFramed | src/client/glimpl.c:1075-1085 | so it does after a strided upload, whose elements lie packed together |
| PushBuffer.GatheredAt | src/client/glimpl.c:1077-1082 | each byte of them is the byte of its element, counted from the first one |
| PushBuffer.GatheredPacked | src/client/glimpl.c:1072-1085 | without gaps between the elements the strided upload carries the same bytes as the packed one |
| PushBuffer.Buffer.Reset | src/client/pb.c:220-225 | an empty buffer, the flag lowered |
| PushBuffer.Buffer.PushInt | src/client/pb.c:227-234 | one word |
| PushBuffer.PushElements | src/client/glimpl.c:1079-1083 | the elements of a strided array, one by one |
| DriverEvents.RegisterOk | kernel/windows/Queue.c:453-495 | the table stays in agreement, and the bug check cannot be reached |
| DriverEvents.RemoveOk | kernel/windows/Queue.c:150-173 | removing any slots keeps the table in agreement |
| DriverEvents.FireOk | kernel/windows/Device.c:346-383 | firing sets exactly the events in use whose vector is pending, each once |
| DriverEvents.CloseOk | kernel/windows/Queue.c:146-174 | closing a file clears exactly its events |
| DriverEvents.RegisteredEvent | kernel/windows/Queue.c:466-487 | a registered event takes a free slot and changes no other; it is signalled exactly by its own vector, and cleared exactly by such a signal, if it fires once, or with its owner |
| DriverEvents.ResetOk | kernel/windows/Device.c:286-305 | releasing the hardware empties the table |
| DriverDevice.Device.InterruptIsr | kernel/windows/Device.c:327-343 | the word gains the message's bit; the DPC is queued when it was zero |
| DriverDevice.Device.InterruptDpc | kernel/windows/Device.c:345-383 | in place: the pending events are set in list order and those that fire once removed |
| DriverDevice.Device.RegisterEvent | kernel/windows/Queue.c:453-499 | in place: the first free slot |
| DriverDevice.Device.FileCleanup | kernel/windows/Queue.c:146-174 | in place |
| DriverDevice.Device.ReleaseEvents | kernel/windows/Device.c:286-305 | in place |
| DriverDevice.Device.WalkList | kernel/windows/Device.c:360-382 | the DPC's way through the list |
| DriverRun.NoBugCheck | kernel/windows/Queue.c:486-495 | in every run a registration finds a slot unless all 32 are in use |
| DriverRun.NoLostInterrupt | kernel/windows/Device.c:327-358 | in every run the word holds the messages raised since they were last taken, and if there are any a DPC is coming |
| DriverRun.WordIsExact | kernel/windows/Device.c:332-339 | the word tells which messages were raised exactly unless 64 was raised without 0 |
| DriverRun.MessageSixtyFour | kernel/windows/Device.c:332-339 | a single interrupt with message 64 sets the bit of message 0 |
| DriverRun.InterruptArrives | kernel/windows/Device.c:327-383 | in every run an interrupt reaches every event registered for its message: when the DPCs it has caused have come to an end, the event has been set since, unless it was taken away meanwhile |
| DriverRun.Settles | kernel/windows/Device.c:345-383 | and they come to an end, if no more interrupts come |
| DriverRun.SingleShotOnce | kernel/windows/Device.c:371-378 | in every run an event that fires once is set at most once |
| DriverRun.WalkSets | kernel/windows/Device.c:360-382 | a DPC sets exactly the events in use whose vector it has taken |

## Left out

- Stream format 1 (`lzav_decompress_1`), big-endian and 32-bit variants: the model is the 64-bit little-endian build for format 2.
- `lzav_compress` and `lzav_compress_hi`: failing allocations, and a destination that is the source; the source is a value here.
- LzavDecompress.Decompress2: for whole streams without a meaning only memory safety and the reported length are stated, and which errors its blocks report by `LzavDecompress.RefStep` and `LzavDecompress.LitStep`; shift counts of 64 and more, which only malformed streams reach, are mathematical shifts.
- LzavDecompress.Decompress2: a stream whose prefix names a minimal reference length of 0 or above 6, which no compressor here writes, has no meaning in the model.
- LzavBound.CompressBound: the bounds are over mathematical integers; the C function overflows for sources near 2 GiB.
- LzavCompressHi.EstBlkSize: the size estimate is exact for short blocks only (`LzavCompressHi.EstimateIsExact`); beyond them the comparison of two matches is stated by the estimate. Of the hash functions only that equal bytes have equal items inside the table is stated, not how well they spread.
- ENet unreliable packets and their random dropping, sockets, addresses, clocks, ping and round-trip estimation: time-outs and refusals are inputs of the model, and a sender never gives up the connection.
- ENet peers in the state DISCONNECT_LATER discard what arrives, so acknowledgements mean nothing there: EnetLink models a connected receiver.
- EnetSend: one channel; the data in transit of several channels would be their sum. Commands without a packet, on channel 255, are not modelled.
- EnetBandwidth.ThrottleOutgoing: products and sums are mathematical integers; the C code computes them in 32 bits. Without an outgoing limit the data counted must fit 32 bits.
- EnetBandwidth.ShareIncoming: a peer that names no bandwidth is told zero, which it reads as no limit; the sum counts it as zero.
- EnetExact.RecoversExactly: the limit before the loss is any up to a peak, and after it one that does not change; pieces are between 16 bytes and one mtu long at most. `EnetRecover.CanFinish` needs only that the limit is not lower than what is unacknowledged.
- EnetHost: the dispatch queue, packet queues and channel memory of a peer.
- ShmProtocol: sequential consistency; direct access mode, in which clients push into the stage itself without the lock; the network path of `glimpl_submit`. Commands are not interpreted: the answer to a buffer is any value, written to the mailbox in one step, and a buffer is a goodbye if it is exactly what `glimpl_goodbye` pushes. Sizes are in words.
- PushBuffer: what padding bytes hold; 64-bit and float pushes are writes of their bytes.
- DriverRun: the kernel's queueing of the DPC is one flag; events of vectors above 63 alias, as shifts do on the processor. Reference counts of event objects and the mapping of the shared memory are not modelled.
- The OpenGL entry points, GLX and WGL, the overlay and fonts, server arguments and the Linux drivers: plumbing over other libraries.
