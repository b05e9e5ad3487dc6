# OpenNOP, modelled and verified in Dafny

OpenNOP is a WAN accelerator that works in pairs. A box near the sender tags TCP segments with its id
and compresses their payload. The box near the receiver recognises the tag, restores the segment and
passes it on. This project models the parts that carry that promise and proves what they must keep.

The code that works in place (the codec, option editing, packet rewriting, checksums, linked lists,
worker and fetcher handlers) is modelled as methods over arrays and objects. Each is proved against
functions on values, and the laws are proved about those functions. The threads and the two-box
protocols are modelled as transition systems whose steps are lock regions or handler calls.

## Main results

- **Codec.** Unpacking what QuickLZ packed gives the original for every string of 1 to 2^32 - 401 bytes,
  whatever the tables and buffers held before (`QuickLz.RoundTrip`). Underneath, the table the decoder
  rebuilds, up to two bytes late and without match interiors, points at the very bytes the encoder matched
  (`QlzTokens.TableAgreement`). No byte is written past the unpacked size, and the packed size is bounded.
  A string of equal bytes, or of a block that the hash can tell apart, packs to a 32nd of its size plus the
  block (`QuickLz.RunShrinks`, `QuickLz.BlockShrinks`); for blocks of three bytes the condition is exact
  (`QuickLz.TripleShrinksIff`).
- **Packets.** Option setting and reading are inverse and leave everything else alone
  (`TcpOptions.SetThenGet`). A compressed packet is restored exactly when its flag option had room
  (`Compression.RestoredIffRoom`). Tagging stays inside the option area exactly when the header can take a
  bare tag (`Nod.TagInsideIff`), and the id is read back exactly under a stated condition (`Nod.ArrivesIff`).
  Through the code of both boxes the receiving host gets its options and headers as sent, closing checksums,
  and its payload and sequence number under an exact condition (`Lockstep.DeliveredIff`, `Worker.BothBoxes`).
- **Sessions.** 65536 linked buckets behave as one map (`SessionTable`), two connections never share a
  session (`SessionTable.TrackTwo`), workers are loaded in turn, a
  cleanup removes exactly the dead sessions (`SessionCleanup`), and a session is dead exactly after three
  quiet passes (`SessionLife.RemovedIff`), quiet meaning unmoved since the pass before
  (`SessionLife.QuietPass`). Two boxes record the same sequence numbers, with the exact
  condition per packet (`Lockstep.InStepIff`). Over whole sessions in both directions, starting from what the
  handshake leaves, the boxes are in step throughout if and only if every packet the first box compresses
  has its id arrive, is recognised, and has room for the flag (`Lockstep.Lockstep`); a packet arrives as sent
  under the same condition (`Lockstep.PacketArrivesIff`).
- **Concurrency and protocols.** In every interleaving no buffer is lost or in two places
  (`PacketBuffers.Accounted`) or stuck (`PacketBuffers.WorkerDrains`). A box compresses only on evidence
  (`Acceleration.CompressesOnEvidence`), and after a handshake past another box it does compress, for either
  endpoint (`Acceleration.CompressesAfterHandshake`). A
  neighbour that is up is known by its own id (`NeighborProtocol.UpMeansNamed`) and, unless an entry was
  deleted, knows this box in turn (`NeighborProtocol.UpMeansKnown`). It comes up by one exchange of messages
  (`NeighborProtocol.HelloBringsUp`) and stays up only while it is heard from (`NeighborProtocol.SilentGoesDown`).

Six promises hold only under conditions that the code does not check. Each has its exact condition and an
input that breaks it:

- Tagging stays inside the option area exactly when the header can take a bare tag. Otherwise the end of the tag
  replaces the first bytes of the payload, and on a full header without a free byte the code dereferences null
  (`Nod.TagInsideIff`; `Nod.SackedLosesPayload`, `Nod.FullCrashes`).
- The id of a tag is lost when twelve or more bytes of option space are free, because the growth step then
  reports a failure. The second box takes such a packet for untagged and does not restore it
  (`Nod.ArrivesIff`, `Lockstep.InStepIff`; `Nod.RoomyLosesId`, `Lockstep.RoomyFails`).
- A compressed packet without room for the flag option reaches the host packed and shifted, and the boxes
  fall out of step (`Compression.RestoredIffRoom`, `Lockstep.DeliveredIff`; `Lockstep.CrowdedFails`).
- Both directions of a connection share a session only if the addresses differ or the ports agree
  (`SessionTable.BothDirections`; `SessionTable.OneAddressTwoKeys`).
- A neighbour that is up knows this box, unless it has deleted and re-added its entry
  (`NeighborProtocol.UpMeansKnown`; `NeighborProtocol.ReaddForgets`).
- A repeated block of three different bytes shrinks unless its three windows share a bucket of the hash
  table; then it is stored as it is (`QuickLz.TripleShrinksIff`; `QuickLz.TripleStaysRaw`).

## Modules

| module | content |
|---|---|
| `Bytes` | octets, words, exclusive or, bit lists |
| `QlzTokens`, `QlzLayout`, `QlzBound` | the parse QuickLZ chooses, its byte layout, its size |
| `QlzRatio` | how small repetitive strings become |
| `QlzCompress`, `QlzDecompress`, `QuickLz` | the codec's loops, headers, size readers, round trip |
| `TcpPacket`, `TcpOptions`, `TcpOptionEdit` | packets, option lists, option editing in place |
| `Nod`, `NodEdit` | the detection tag, option 33: what tagging makes of a packet, and the code |
| `Compression`, `Csum` | compressing and restoring packets, checksums |
| `Relay`, `Worker` | what one box makes of a packet, and the worker's code, one box and both |
| `SessionData`, `SessionTable`, `SessionCleanup`, `SessionLife` | sessions, the table, dead sessions |
| `SequenceTracking` | recorded sequence numbers in one box |
| `Lockstep` | two boxes: what arrives, what they know of each other, and whether they stay in step |
| `PacketQueue`, `MemoryManager`, `PacketBuffers` | queues, the pool, buffers across threads |
| `Acceleration` | fetcher and worker handlers, evidence for compression |
| `NeighborMessages`, `Neighbors`, `NeighborProtocol` | messages, neighbour list and handlers, two nodes |

## Model

| member | source | states |
|---|---|---|
| `QlzTokens.HashIgnoresFourthByte` | lib/quicklz.c:90-129 | the hash of a four-byte load depends on its first three bytes only, so encoder and decoder may load four |
| `QlzTokens.HashNibbles` | lib/quicklz.c:90-97 | the hash is the exclusive or of two twelve-bit halves of the three bytes |
| `QlzTokens.Extend` | lib/quicklz.c:317-337 | the match is extended as far as the bytes repeat and the limits allow |
| `QlzTokens.ExtendUnique` | lib/quicklz.c:317-337 | that length is the only one with matching bytes up to it and a limit or a mismatch at it |
| `QlzTokens.MatchMeaning` | lib/quicklz.c:291-337 | every byte of an emitted match equals the byte at the same distance before it |
| `QlzTokens.GreedyUnique` | lib/quicklz.c:271-365 | a string has one greedy parse, whatever the loop has emitted so far is its prefix |
| `QlzTokens.HashedEnd` | lib/quicklz.c:594-609 | what the decoder has hashed lags by at most two trailing literals |
| `QlzTokens.TableAgreement` | lib/quicklz.c:291-299 | the decoder's lagging table, indexed by the transmitted hash, gives the position matched, or in a run the one three bytes back, and copying from there gives the same bytes |
| `QlzTokens.RunSource` | lib/quicklz.c:299 | in a run of equal bytes the lagging table gives the position three bytes back |
| `QlzLayout.LaidSnoc` | lib/quicklz.c:273-358 | appending a token disturbs neither the tokens nor the 31-flag control words laid before it |
| `QlzBound.LastTest` | lib/quicklz.c:273-285 | what the give-up test, when it last passed, says about the size so far |
| `QlzBound.UsedBound` | lib/quicklz.c:273-285 | coded size at most 135 bytes over the input, at most 20 over for inputs under 216 bytes |
| `QlzRatio.UniformParse` | lib/quicklz.c:291-347 | equal bytes are coded as four literals, then matches as long as they may be |
| `QlzRatio.PeriodicParse` | lib/quicklz.c:291-347 | a repeated block of three bytes or more that the hash tells apart is coded as the block and one byte, then matches as long as they may be |
| `QlzRatio.LoneParse` | lib/quicklz.c:291-347 | the same for three bytes of which one window alone has its bucket to itself |
| `QlzRatio.CollidingParse` | lib/quicklz.c:289-299 | three different bytes whose windows share a bucket are coded as literals throughout |
| `QlzRatio.SteadySize` | lib/quicklz.c:271-365 | the size of such a coded form: a 32nd of the string, the first literals and 26 bytes at most |
| `QlzRatio.SteadyKept` | lib/quicklz.c:275-277 | it is never given up, with room for three blocks |
| `QlzCompress.ResetTable` | lib/quicklz.c:64-75 | every entry of the compressor's table is marked empty, and the cached words stay |
| `QlzCompress.CachedMeaning` | lib/quicklz.c:291-301 | the exclusive or with the cached word tells whether three, and whether four, bytes agree |
| `QlzCompress.Same` | lib/quicklz.c:56-62 | true exactly for a run of one byte value |
| `QlzCompress.MatchLength` | lib/quicklz.c:322-337 | the loop finds the length of the specification |
| `QlzCompress.EmitMatch` | lib/quicklz.c:309-347 | two bytes for lengths under 18, three otherwise, holding hash and length as laid out |
| `QlzCompress.Probe` | lib/quicklz.c:289-301 | looks up and replaces the table entry; a match is taken exactly where the parse takes one |
| `QlzCompress.EmitToken` | lib/quicklz.c:286-365 | one turn of the main loop appends the next token of the parse and keeps table, flags and layout |
| `QlzCompress.CloseGroup` | lib/quicklz.c:279-283 | stores a finished control word without disturbing anything |
| `QlzCompress.EmitTail` | lib/quicklz.c:508-541 | the last bytes become literals up to the end of the input |
| `QlzCompress.CompressCore` | lib/quicklz.c:255-550 | lays out the greedy parse of the whole input, or returns 0 exactly when the give-up test fires |
| `QlzDecompress.CopyUpRepeats` | lib/quicklz.c:202-222 | a byte-by-byte upward copy repeats with its distance and changes nothing else |
| `QlzDecompress.RepeatsUnique` | lib/quicklz.c:202-222 | bytes that repeat with a distance are determined by what stands before them |
| `QlzDecompress.MemcpyUp` | lib/quicklz.c:202-222 | the copy in strides of three equals the byte-by-byte one for distances of at least three, and writes at most three bytes past its end |
| `QlzDecompress.UpdateHashUpto` | lib/quicklz.c:245-253 | hashes every position up to a limit, in order |
| `QlzDecompress.RehashTable` | lib/quicklz.c:245-253 | hashing literal positions brings the table up to the tokens they belong to |
| `QlzDecompress.LiteralRun` | lib/quicklz.c:685-695 | the lookup on four flag bits counts the literals that follow and the shift drops exactly their flags |
| `QlzDecompress.MatchFields` | lib/quicklz.c:597-609 | hash and length are read back from the bytes of a match |
| `QlzDecompress.ReadMatch` | lib/quicklz.c:595-609 | reads a match of either width back and moves past it |
| `QlzDecompress.MatchSource` | lib/quicklz.c:594-609 | the table entry is a source at distance three or more whose bytes are those of the match |
| `QlzDecompress.LagShrinks` | lib/quicklz.c:675-698 | hashing after literals and matches keeps the lag at two or fewer |
| `QlzDecompress.LastFour` | lib/quicklz.c:329-333 | the last four bytes are always literals |
| `QlzDecompress.CopyMatch` | lib/quicklz.c:589-682 | one match decoded: output, table and position advance by one token, nothing written past the size |
| `QlzDecompress.CopyLiterals` | lib/quicklz.c:683-699 | one to four literals decoded with a four-byte copy, nothing written past the size |
| `QlzDecompress.CopyTail` | lib/quicklz.c:700-723 | the tail loop completes the output |
| `QlzDecompress.NextWord` | lib/quicklz.c:570-589 | a control word is fetched exactly when the flags are used up |
| `QlzDecompress.DecompressCore` | lib/quicklz.c:552-727 | decodes the stream of a parse to exactly its string and leaves the rest of the buffer alone |
| `QuickLz.ReadersAgree` | lib/quicklz.c:177-200 | header length, both sizes and the coded bit are read back from the header written |
| `QuickLz.WriteHeader` | lib/quicklz.c:786-801 | writes the header for either width of size fields |
| `QuickLz.Compress` | lib/quicklz.c:729-807 | packs every accepted size within 400 bytes over the input; refuses size 0 and sizes over 2^32 - 401; equal bytes and repeated blocks within a 32nd of the input, the block and 40 bytes |
| `QuickLz.RunShrinks` | lib/quicklz.c:299-337 | a packed string of n equal bytes has at most n / 32 + 40 |
| `QuickLz.BlockShrinks` | lib/quicklz.c:291-337 | a packed string of n bytes that repeats a block of d bytes has at most n / 32 + d + d / 7 + 40, if the hash tells the positions of the block apart |
| `QuickLz.TripleShrinksIff` | lib/quicklz.c:289-337 | for a block of three bytes exactly when it shrinks, and that otherwise the packed form is longer |
| `QuickLz.TripleStaysRaw` | lib/quicklz.c:90-97 | bytes 1, 18 and 32 repeated are a string that does not shrink |
| `QuickLz.LettersSpread` | lib/quicklz.c:90-97 | the letters a, b and c repeated are one that does |
| `QuickLz.Decompress` | lib/quicklz.c:809-847 | unpacks a coded or stored string to the original, with nothing written past it |
| `QuickLz.RoundTrip` | lib/quicklz.c:729-847 | packing then unpacking is the identity |
| `TcpPacket.BeRoundTrip` | opennopd/tcpoptions.c:649-666 | reading n bytes in network order gives the value written modulo 256^n |
| `TcpOptions.WordsNeeded` | opennopd/tcpoptions.c:110-142 | the least number of words that makes the free space suffice |
| `TcpOptions.RoomIff` | opennopd/tcpoptions.c:747-793 | there is room exactly for an option that is there already or fits in 40 bytes behind the real options |
| `TcpOptions.SetValid` | opennopd/tcpoptions.c:680-854 | the packet stays well formed; header length and total length grow equally |
| `TcpOptions.SetThenGet` | opennopd/tcpoptions.c:626-672 | a value set with room is read back; other real options keep bytes and order; payload unchanged; without room header and real options unchanged |
| `TcpOptionEdit.GetOption` | opennopd/tcpoptions.c:626-672 | 0 for an absent option, 1 for one without data, else the value of its data |
| `TcpOptionEdit.Locate` | opennopd/tcpoptions.c:55-73 | walks to the first option of a kind or past the end of the area |
| `TcpOptionEdit.RemoveNops` | opennopd/tcpoptions.c:719-744 | removes padding options and keeps the others in order |
| `TcpOptionEdit.MemMove` | opennopd/tcpoptions.c:784-787 | an overlapping move copies the old bytes |
| `TcpOptionEdit.Overwrite` | opennopd/tcpoptions.c:694-713 | an option of the same kind and length is overwritten in place |
| `TcpOptionEdit.Enlarge` | opennopd/tcpoptions.c:766-793 | the payload moves back, the area grows and takes the new option in front, both length fields follow |
| `TcpOptionEdit.InsertFront` | opennopd/tcpoptions.c:796-819 | the other options move back and the new one comes first |
| `TcpOptionEdit.SetOption` | opennopd/tcpoptions.c:680-854 | the packet becomes the one specified; -1 exactly without room |
| `NodEdit.RemoveAllNops` | opennopd/tcpoptions.c:27-53 | the area holds the real options in order, then zeroes |
| `NodEdit.TakeFreeSpace` | opennopd/tcpoptions.c:75-102 | the number of bytes behind the last real option, with padding options removed from the packet |
| `NodEdit.AddBytes` | opennopd/tcpoptions.c:181-245 | grows the area by the words needed, and reports failure also where none are needed |
| `NodEdit.ShiftSpace` | opennopd/tcpoptions.c:144-173 | the options behind a place move back by the given number, the gap is marked at both ends, nothing else changes |
| `NodEdit.StartNod` | opennopd/tcpoptions.c:247-274 | an empty option 33 behind all others, written past the area if only one byte was free; not found exactly if there was none |
| `NodEdit.NameNod` | opennopd/tcpoptions.c:378-462 | the eight bytes of the bare tag stand behind the real options, inside the area or past its end |
| `Nod.ThirdFits` | opennopd/tcpoptions.c:529-548 | the id needs growth exactly when fewer than twelve bytes were free at first |
| `NodEdit.SetNodHeaderData` | opennopd/tcpoptions.c:503-590 | the buffer holds the outcome specified, inside the area or broken; it stops with a null dereference exactly where specified; a bare tag gets the id if the area has to grow, one with an id stays |
| `NodEdit.GetNodHeaderData` | opennopd/tcpoptions.c:464-501 | the header data of a tag with one header |
| `Nod.TagThenRead` | opennopd/tcpoptions.c:464-590 | the id is read back if and only if fewer than twelve bytes were free and the header could grow; other options, payload and sequence number unchanged, lengths consistent |
| `Nod.TagArrives` | opennopd/tcpoptions.c:503-590 | in particular with fewer than twelve free bytes and at most 12 header words |
| `Nod.RoomyLosesId` | opennopd/tcpoptions.c:534-540 | a packet with twelve free bytes on which the id is lost |
| `Nod.TagInsideIff` | opennopd/tcpoptions.c:144-590 | tagging stays inside the option area if and only if the header can take the bare tag; a null dereference exactly on a full header without a free byte; otherwise exactly which payload bytes are replaced |
| `Nod.ArrivesIff` | opennopd/tcpoptions.c:464-590 | over all packets without a tag, the result is a packet from which the id is read back if and only if fewer than twelve bytes were free and the header could grow |
| `Nod.TagRoom` | opennopd/tcpoptions.c:104-142 | in bytes, a bare tag needs 8 behind the real options and a whole one 12, of 40 |
| `Nod.SackedLosesPayload` | opennopd/tcpoptions.c:165-452 | a packet with timestamps and three acknowledgement blocks whose first four payload bytes become the vendor name |
| `Nod.FullCrashes` | opennopd/tcpoptions.c:408-416 | a packet on which the null pointer is dereferenced |
| `Nod.MarkedOthers` | opennopd/tcpoptions.c:503-590 | tagging keeps the other options, with no tag, a bare one or one with an id before |
| `NodEdit.TagRoundTrip` | opennopd/tcpoptions.c:464-590 | the same over the code of both boxes |
| `Compression.Recode` | opennopd/compression.c:125-131 | payload, total length, flag and sequence number change as specified |
| `Compression.TcpCompress` | opennopd/compression.c:66-149 | a payload that shrinks is replaced by its packed form, flagged and shifted; any other packet stays as it is |
| `Compression.TcpDecompress` | opennopd/compression.c:154-199 | the packed payload is replaced by the original and the shift undone; 0 without payload |
| `Compression.RecodedFields` | opennopd/compression.c:125-131 | exactly which fields change, and that other options keep bytes and order |
| `Compression.FlagAfterCompress` | opennopd/compression.c:125-131 | the flag is on exactly when its option fitted |
| `Compression.RestoredIffRoom` | opennopd/compression.c:80-198 | payload and sequence number come back if and only if the flag had room |
| `Compression.Transit` | opennopd/subsystems/worker.c:141-188 | the same over the code of both boxes, with packets that did not shrink left alone |
| `Csum.SumWords` | opennopd/csum.c:31-38 | the sum of the 16-bit words, an odd last byte padded |
| `Csum.FoldKeeps` | opennopd/csum.c:40-43 | folding keeps the sum modulo 65535 |
| `Csum.FoldComplement` | opennopd/csum.c:40-48 | the folding loop ends and gives the complement |
| `Csum.ComplementCloses` | opennopd/csum.c:40-48 | a sum with the complement of its fold added folds to all ones |
| `Csum.TcpSumParts` | opennopd/csum.c:10-38 | what the code adds up is the sum over the twelve bytes of the pseudo-header and the segment |
| `Csum.SetTcpChecksum` | opennopd/csum.c:10-49 | pseudo-header plus segment fold to all ones; only the checksum bytes change |
| `Csum.SetIpChecksum` | opennopd/csum.c:51-66 | the IP header folds to all ones as well |
| `Csum.Checksum` | opennopd/csum.c:68-90 | both sums close for even and odd lengths; other protocols and other bytes untouched |
| `Worker.Optimize` | opennopd/subsystems/worker.c:109-156 | the session becomes the one of the handlers, and the packet the one `Relay.Forwarded` gives; what stands for a shrunk payload unpacks to it |
| `Worker.Deoptimize` | opennopd/subsystems/worker.c:162-193 | the same for a tag of a neighbour that is up: restored or as it came; dropped exactly if flagged, to be restored here, and empty |
| `Worker.FixSums` | opennopd/subsystems/worker.c:210-215 | both sums close, and the packet is the same but for its checksums |
| `Worker.Carry` | opennopd/subsystems/worker.c:79-219 | the whole path of an ordinary packet: tag read, verified, branch taken, both sums closing; session, verdict and packet as specified |
| `Worker.BothBoxes` | opennopd/subsystems/worker.c:79-219 | a packet through the code of both boxes: never dropped, both sums of what arrives close, host options and headers as sent, payload and sequence number as sent and the boxes in step exactly under the stated conditions |
| `Relay.ForwardedKeeps` | opennopd/subsystems/worker.c:100-193 | whatever a box does, host options and the headers outside lengths, sequence number and checksums stay, and payload and sequence number are those of one of three cases |
| `Relay.ResummedSame` | opennopd/csum.c:68-90 | nothing a box looks at depends on the checksums |
| `Relay.HeaderFields` | opennopd/subsystems/worker.c:60-82 | every header field is read from where RFC 791 and RFC 793 put it, with IP options of any length |
| `SequenceTracking.UpdateEndpoint` | opennopd/sessionmanager.c:474-500 | a keepalive is not recorded; any other packet sets sequence and expected sequence modulo 2^32 |
| `SequenceTracking.UpdateSeq` | opennopd/sessionmanager.c:502-516 | the sender's side of the record changes; nothing between two zero addresses |
| `Relay.TaggedRest` | opennopd/tcpoptions.c:503-590 | tagging changes no header field that a box need not compute |
| `Relay.RecodedRest` | opennopd/compression.c:125-131 | nor does compressing |
| `Lockstep.SeenBySecond` | opennopd/subsystems/worker.c:79-165 | the second box reads the id exactly if it was written, and the flag exactly when a compressed packet had room for it; the payload is packed and shifted, or as sent |
| `Lockstep.DeliveredIff` | opennopd/subsystems/worker.c:100-219 | host options and all header fields but lengths, sequence number and checksums always arrive; payload and sequence number if and only if the tag is recognised and the packet was not compressed or is restored, or it is not recognised and neither box compressed |
| `Lockstep.ShiftedDiverges` | opennopd/sessionmanager.c:474-500 | recorded with a shifted number, an endpoint never ends up where the other box has it |
| `Lockstep.InStepIff` | opennopd/subsystems/worker.c:100-193 | exactly when one packet leaves two boxes in step, with the arrival of the tag and its verification in the condition |
| `Lockstep.InformedStart` | opennopd/sessionmanager.c:93-193 | two new sessions are related as the boxes' knowledge must be |
| `Lockstep.InformedOpened` | opennopd/subsystems/fetcher.c:91-174 | a handshake packet through both boxes keeps that relation, and keeps the boxes in step |
| `Lockstep.InformedStep` | opennopd/subsystems/worker.c:100-193 | so does every ordinary packet in either direction: a box has the other's id for an endpoint only if the other has entered itself there |
| `Lockstep.FirstThenSecond` | opennopd/subsystems/worker.c:115-182 | what the first box compresses and the second recognises, the second restores; one that does not recognise the tag does not compress again |
| `Lockstep.CrowdedFails` | opennopd/subsystems/worker.c:141-188 | a packet with full options that arrives packed and puts the boxes out of step whenever it is compressed |
| `Lockstep.RoomyFails` | opennopd/subsystems/worker.c:100-156 | the same for a packet with twelve free bytes, on which the id is lost |
| `Lockstep.SamplesOk` | opennopd/subsystems/worker.c:100-156 | both packets are ones that hosts may send and the codec may shrink |
| `Lockstep.Lockstep` | opennopd/subsystems/worker.c:100-193 | over every session in both directions the boxes are in step after every packet if and only if every compressed packet gets its id through, is recognised and has room for the flag |
| `Lockstep.PacketArrivesIff` | opennopd/subsystems/worker.c:100-193 | in every session, a packet reaches its host as sent under that same condition |
| `SessionTable.BothDirections` | opennopd/sessionmanager.c:321-339 | both directions have one key if and only if the addresses differ or the ports agree |
| `SessionTable.SameKeyIff` | opennopd/sessionmanager.c:321-339 | two connections have one key if and only if they are the same or such directions of one |
| `SessionTable.OneAddressTwoKeys` | opennopd/sessionmanager.c:321-339 | with one address and ports 1 and 2 the two directions get different keys |
| `SessionTable.SessionHead.Append` | opennopd/sessionmanager.c:168-178 | the bucket's sequence gains the session at its end, both link directions agree |
| `SessionTable.SessionHead.Find` | opennopd/sessionmanager.c:213-256 | a session with the key, or null if there is none |
| `SessionTable.SessionHead.Remove` | opennopd/sessionmanager.c:280-300 | the bucket's sequence loses exactly the session, in all four positions |
| `SessionTable.LoadInsert` | opennopd/subsystems/worker.c:261-266 | one more session for its worker, no change for the others |
| `SessionTable.LoadRemove` | opennopd/subsystems/worker.c:267-271 | one session fewer for its worker |
| `SessionTable.ServedInTurn` | opennopd/sessionmanager.c:106-154 | after any number of inserts each worker has its equal share, rounded up for the first ones |
| `SessionTable.LoadsWithinOne` | opennopd/sessionmanager.c:106-154 | with inserts only, loads differ by at most one |
| `SessionTable.Serve` | opennopd/sessionmanager.c:93-193 | sessions for any sequence of keys in a new table leave the counters of all workers at their equal share, rounded up for the first ones |
| `SessionTable.ServeOne` | opennopd/sessionmanager.c:93-193 | one more key keeps every session with the first of the workers least loaded when it came |
| `SessionTable.Table.PickWorker` | opennopd/sessionmanager.c:106-125 | the first of the least loaded workers |
| `SessionTable.Table.GetSession` | opennopd/sessionmanager.c:199-257 | the map's entry or null |
| `SessionTable.Table.InsertSession` | opennopd/sessionmanager.c:93-193 | the map gains a zeroed session on a least loaded worker; bucket order, other records and counters as stated |
| `SessionTable.Table.ClearSession` | opennopd/sessionmanager.c:262-316 | the map loses the session; bucket order, other records and counters as stated |
| `SessionTable.Table.SetRecord` | opennopd/sessionmanager.c:488-497 | writing a record leaves the table intact |
| `SessionTable.Track` | opennopd/subsystems/fetcher.c:91-95 | lookup, and insert if it failed, keep one session per key |
| `SessionTable.BothWays` | opennopd/subsystems/fetcher.c:76-146 | a session tracked in one direction is found in the other |
| `SessionTable.TrackTwo` | opennopd/subsystems/fetcher.c:76-95 | two connections are tracked in two sessions, and one in one |
| `SessionTable.FreeSessions` | opennopd/sessionmanager.c:62-87 | every session of the bucket is freed exactly once, and the bucket points at none |
| `SessionTable.BuildBuckets` | opennopd/sessionmanager.c:341-347 | 65536 distinct empty buckets |
| `SessionTable.PortsSpread` | opennopd/sessionmanager.c:27-40 | connections that differ in the port of the smaller address only are never in one bucket |
| `SessionCleanup.Look` | opennopd/subsystems/sessioncleanup.c:135-175 | one turn of the traversal, which clears a dead session after moving on |
| `SessionCleanup.CleanupList` | opennopd/subsystems/sessioncleanup.c:122-180 | ends, removes exactly the sessions dead at its start, keeps the others in order and updated |
| `SessionCleanup.AgedTwice` | opennopd/subsystems/sessioncleanup.c:207-217 | passes over disjoint buckets compose |
| `SessionCleanup.CleanupTable` | opennopd/subsystems/sessioncleanup.c:207-217 | every session is looked at once, exactly the dead ones go |
| `SessionLife.CounterMeaning` | opennopd/subsystems/sessioncleanup.c:137-170 | the dead counter is the number of passes since the last sign of life and never exceeds 3 |
| `SessionLife.RemovedIff` | opennopd/subsystems/sessioncleanup.c:137-170 | a pass removes a session if and only if three passes have gone by since the last sign of life |
| `SessionLife.ThreeQuietSweeps` | opennopd/sessionmanager.c:477-497 | the three passes, each with an endpoint unmoved, and only keepalives since the first |
| `SessionLife.PassKeeps` | opennopd/subsystems/sessioncleanup.c:137-170 | a pass keeps sequence numbers, accelerators and state |
| `SessionLife.QuietPass` | opennopd/subsystems/sessioncleanup.c:137-168 | a pass is quiet if and only if some endpoint's number is what it was at the pass before |
| `SessionLife.QuietFirstPass` | opennopd/subsystems/sessioncleanup.c:137-168 | the first one, if and only if some endpoint's number is 0 |
| `SessionLife.SilentIsRemoved` | opennopd/subsystems/sessioncleanup.c:137-170 | whatever has happened, a session that falls silent is found dead after four passes at most |
| `SessionLife.SegmentCounts` | opennopd/sessionmanager.c:474-500 | a segment is recorded and counts as life unless it probes the byte before the last; the other endpoint is untouched |
| `SessionLife.InOrder` | opennopd/sessionmanager.c:474-500 | segments in order move the expected number by exactly their bytes, modulo 2^32, whatever comes between |
| `PacketQueue.PacketHead.Enqueue` | opennopd/queuemanager.c:16-37 | append; a null packet is refused |
| `PacketQueue.PacketHead.Dequeue` | opennopd/queuemanager.c:43-75 | take the first, or null from an empty queue, despite stale back pointers |
| `PacketQueue.MoveQueued` | opennopd/queuemanager.c:81-117 | concatenation, the source emptied, the number moved |
| `MemoryManager.AllocateFreeBuffers` | opennopd/subsystems/memorymanager.c:128-136 | n new buffers at the end of the queue |
| `MemoryManager.FreePool.GetBuffer` | opennopd/subsystems/memorymanager.c:138-204 | the first free buffer, or a new one that is counted |
| `MemoryManager.FreePool.PutBuffer` | opennopd/subsystems/memorymanager.c:206-228 | the buffer becomes the last free one |
| `MemoryManager.FreePool.Refill` | opennopd/subsystems/memorymanager.c:91-97 | n new buffers join the pool and are counted |
| `PacketBuffers.StepConserves` | opennopd/subsystems/memorymanager.c:66-228 | every step of every thread keeps each buffer in one place and each packet accounted for |
| `PacketBuffers.AlwaysConserved` | opennopd/subsystems/memorymanager.c:66-228 | so does every interleaving |
| `PacketBuffers.Accounted` | opennopd/subsystems/fetcher.c:200-250 | the fetcher always gets a buffer; the count is the buffers in pool, queues and hands; a packet has one verdict exactly when it no longer waits |
| `PacketBuffers.WorkerDrains` | opennopd/subsystems/worker.c:54-230 | from any state a worker alone can give each of its packets one verdict and each buffer back, in order |
| `PacketBuffers.FetcherDelivers` | opennopd/subsystems/memorymanager.c:138-204 | the fetcher can always get a buffer and queue a packet at the end of any worker's queue |
| `Acceleration.Box.Fetch` | opennopd/subsystems/fetcher.c:63-281 | sessions, ids and states change as specified, and the packet is settled or queued for the right worker half |
| `Acceleration.Box.OptimizePacket` | opennopd/subsystems/worker.c:100-150 | the test for compression is the one specified |
| `Acceleration.Box.Work` | opennopd/subsystems/worker.c:65-230 | sessions change as specified; exactly one verdict and one buffer returned on every path |
| `Acceleration.VouchedNext` | opennopd/subsystems/fetcher.c:109-244 | no handler stores an id that was not seen from that endpoint |
| `Acceleration.AlwaysJustified` | opennopd/subsystems/worker.c:100-160 | in every run an accelerator is unset, the local id, or an id seen from that endpoint |
| `Acceleration.SeenMeansArrived` | opennopd/subsystems/fetcher.c:109-174 | what counts as seen came on a packet of that endpoint, of a neighbour then verified up, since which the session has existed |
| `Acceleration.EstablishedByHandshake` | opennopd/subsystems/fetcher.c:145-244 | a session is established only by the answer to its opening, or by a first packet another box had tagged |
| `Acceleration.CompressesOnEvidence` | opennopd/subsystems/worker.c:115-141 | a box compresses only in an established session and after another box's id was seen from the opposite endpoint |
| `Acceleration.HandshakeEstablishes` | opennopd/subsystems/fetcher.c:86-244 | the answer to an opening, and a tagged first packet, do establish the session |
| `Acceleration.HandshakeAccelerates` | opennopd/subsystems/fetcher.c:86-190 | after any run, an opening and its answer past this box and another one set both accelerators, whichever endpoint opened |
| `Acceleration.StaysAccelerated` | opennopd/subsystems/worker.c:98-193 | data of the two endpoints keeps it so |
| `Acceleration.AcceleratedCompresses` | opennopd/subsystems/worker.c:115-141 | in such a session every ordinary packet of this box's endpoint is compressed, for either endpoint |
| `Acceleration.CompressesAfterHandshake` | opennopd/subsystems/worker.c:98-141 | handshake, data, and then every ordinary packet of this box's endpoint is compressed |
| `Acceleration.RightHalf` | opennopd/subsystems/fetcher.c:181-244 | what is compressed goes to the optimizing half of a worker, what is restored or dropped to the other |
| `Acceleration.GoneIff` | opennopd/subsystems/worker.c:195-208 | a session goes with a reset, a FIN when closing, or a pass that finds it dead, and with nothing else |
| `Acceleration.TwoFinsEnd` | opennopd/subsystems/worker.c:486-508 | two FINs end an established session, whatever data comes between; one does not |
| `NeighborMessages.AcceptedIff` | opennopd/subsystems/ipc.c:354-422 | a message is accepted if and only if the modes agree and the keys give the same digest; it is read as sent |
| `NeighborMessages.SameKeyAccepted` | opennopd/subsystems/ipc.c:290-422 | with equal keys every message is accepted and gives the sender's id |
| `Neighbors.SendMessage` | opennopd/subsystems/ipc.c:427-614 | the buffer holds the message specified, digest included |
| `Neighbors.Neighbor.CheckHmac` | opennopd/subsystems/ipc.c:354-380 | acts on the message exactly if the digest over the blanked buffer agrees |
| `Neighbors.Neighbor.Receive` | opennopd/subsystems/ipc.c:382-574 | mode check, digest check and effect as specified |
| `Neighbors.NeighborList.Find` | opennopd/subsystems/ipc.c:99-129 | the neighbour with the address, or null |
| `Neighbors.NeighborList.VerifyInDomain` | opennopd/subsystems/ipc.c:1302-1320 | true exactly for the id of a neighbour that is up |
| `Neighbors.NeighborList.AddOrUpdate` | opennopd/subsystems/ipc.c:920-1000 | a known address gets the key, an unknown one is appended, down |
| `Neighbors.NeighborList.Delete` | opennopd/subsystems/ipc.c:1002-1038 | the neighbour with the address goes, the others keep their order |
| `Neighbors.NeighborList.HelloNeighbors` | opennopd/subsystems/ipc.c:616-702 | every neighbour is hailed as specified |
| `NeighborProtocol.OnlyByAccepted` | opennopd/subsystems/ipc.c:208-460 | a rise to UP, and a change of the stored id of an entry that stays, come only through a message that passed both checks |
| `NeighborProtocol.ReceiveSound` | opennopd/subsystems/ipc.c:290-352 | receiving keeps messages honest and a neighbour that is up known by its own id |
| `NeighborProtocol.OtherSound` | opennopd/subsystems/ipc.c:506-1038 | so do hellos, connections, losses, key changes, deleting and re-adding |
| `NeighborProtocol.ReceiveAgreed` | opennopd/subsystems/ipc.c:290-352 | receiving keeps knowledge mutual |
| `NeighborProtocol.OtherAgreed` | opennopd/subsystems/ipc.c:506-702 | so does everything that keeps the entry |
| `NeighborProtocol.ReaddForgets` | opennopd/subsystems/ipc.c:929-1038 | after deleting and re-adding, knowledge is mutual if and only if the neighbour was not up or the new entry holds its id by chance |
| `NeighborProtocol.UpMeansNamed` | opennopd/subsystems/ipc.c:290-1038 | in every run of two nodes, UP means the stored id is the peer's own |
| `NeighborProtocol.UpMeansKnown` | opennopd/subsystems/ipc.c:290-702 | in every run that deletes no entry, UP also means the peer has stored this node's id |
| `NeighborProtocol.UpMeansHeard` | opennopd/subsystems/ipc.c:290-352 | in every run a neighbour that is up was heard from, at the time its timer says |
| `NeighborProtocol.SilentGoesDown` | opennopd/subsystems/ipc.c:664-676 | after a hello that is due, one that is still up was heard from in the last 30 seconds |
| `NeighborProtocol.DownIsRetried` | opennopd/subsystems/ipc.c:643-663 | one that is down and not tried for 30 seconds is tried at the next hello, if it can be reached |
| `NeighborProtocol.HelloSent` | opennopd/subsystems/ipc.c:664-694 | a hello is sent exactly if it is due and can be; one that fails costs state and socket |
| `NeighborProtocol.HelloBringsUp` | opennopd/subsystems/ipc.c:290-694 | with keys that agree, a hello and its answer bring the neighbour up, both knowing the other's id |

## Left out

- QuickLZ levels 2 and 3, streaming mode and the memory-safe decoder: not compiled in the shipped configuration.
- Big-endian and 32-bit builds of the codec: the model is the 64-bit little-endian x86 one.
- QlzCompress.CompressCore: writes of the compressor's unused hash counter array are not modelled, because level 1 never reads it.
- QuickLz.Decompress: streams that the compressor did not make are outside its precondition.
- QuickLz.BlockShrinks: for blocks whose positions the hash tells apart; for longer blocks with collisions the size depends on which windows collide and is not characterised.
- TcpOptionEdit.GetOption: options with more than three data bytes, where the code shifts into the sign bit of an int, are outside its precondition.
- TcpOptionEdit.SetOption: malformed option areas (an option length of 0, or one past the area) are outside its precondition.
- NodEdit.SetNodHeaderData: a packet that already carries option 33 is covered if that tag is bare and last behind no padding options, as this code leaves it, or carries an id; other contents of option 33 are outside its precondition.
- NodEdit.GetNodHeaderData: tags with several headers, or whose first header is another vendor's, are outside its precondition, because the step to the next header compares addresses of local variables.
- NodEdit.TagRoundTrip: reading back from a packet whose option area ends inside the tag is outside its precondition; `Nod.TagInsideIff` says which packets those are and what becomes of them.
- Nod.TagThenRead: states what is read back where the tag fits; `Nod.ArrivesIff` has no such condition.
- Compression.TcpCompress: the branches for missing buffers, for compression switched off and for packets of other protocols only return and are not modelled.
- Worker.BothBoxes: for hosts that do not set options 31 and 33 themselves, and packets whose header can take a bare tag; for the others `Nod.TagInsideIff` says what the first box does.
- Worker.Carry: a packet that fits the buffer of 2048 bytes with 60 bytes of headers to spare; a flagged payload to be restored is one that the compressor made.
- Lockstep.Lockstep: packets reach the second box in the order the first one sent them, and none is lost between the boxes.
- SessionTable.Table.InsertSession: allocation failure, and the 32-bit width of the worker counters, are not modelled.
- PacketQueue.MoveQueued: moving an empty queue onto a filled one, where the code reaches through a null pointer, is outside its precondition.
- MemoryManager.FreePool.GetBuffer: waiting, signalling and locking are not part of the method; interleavings are in `PacketBuffers`.
- Acceleration.Box.Fetch: rewriting the maximum segment size and tagging handshake packets are not repeated here; what a packet carries and whether a neighbour is up are inputs.
- Acceleration.Box.Work: the bytes of the packet are not repeated here; they are in `Worker`.
- Neighbors.Neighbor.Receive: a length field beyond the receive buffer, and messages split or merged by the transport, are outside its precondition.
- Lockstep.InformedOpened: that box A lowers the maximum segment size and tags only with more than 60 bytes of it is its precondition; the bytes of handshake packets are not modelled.
- HMAC-SHA-256 is an uninterpreted function of key and data, so nothing is said about forging it.
- Races finer than a lock region or a handler call, such as unlocked bucket reads and the reuse of a freed session.
- Keepalive sending, counters and metrics: they would only add easy members.
- `set_nod_data` and `__del_tcp_option`: unfinished in the source.
- Netfilter, raw sockets, epoll, the kernel module, WCCP, the command line interface, logging and start-up.
