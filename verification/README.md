# Verified model of the ARC protocol library

ARC is the wire format and the reliable transport of a small radio/UART network: frames with a CRC-16, COBS byte
stuffing on serial links, an ACK/retry/duplicate-suppression endpoint per node (a C version over fixed tables and a
Python version over a dict and a set), a generator that compiles a message schema to C and to Python, and
hand-written encoders for variable-length reports. This project models those parts in Dafny and proves what they
promise. `dafny verify dfyconfig.toml` checks all of it.

Code that works in place is modelled in place: methods with loops over arrays, and classes whose fields are the
structs' tables. Each such method is proved equal to a function of its inputs or of the old state, and the theorems
are lemmas about those functions, for all inputs, all runs or all reachable states of a network. Lemmas carry
`{:induction false}`: every induction is written out.

- `Bytes`: bytes, wider integers, bits, the C operator `|`, `memcpy`.
- `Cobs`, `PyProtocol`: the stuffing codecs of both languages; round trips, exact output sizes, which buffers suffice.
- `Gf2`, `Gf2Order`, `Gf2Eval`, `Gf2Period`: polynomials over GF(2) modulo x^16 + x^12 + x^5 + 1, up to the order of x,
  which is 32767. `Gf2Eval` evaluates the powers of x this needs, on 16-bit words.
- `Checksum`, `KnownAnswers`: the CRC loop is polynomial division; which error patterns it detects, with sharp bounds; its
  published check value.
- `Framing`, `Stream`, `PyFraming`: frame layout, parsing, in-place flagging, the self-delimiting byte stream; the
  Python side, whose fields are unbounded integers.
- `Endpoint`, `Reliable`: `src/arc_reliable.c` as functions on its tables and as a class over arrays, callbacks being
  appended to a log. `PyEndpoint`, `PyReliable`: the same for `reliable.py`.
- `SendLaws`, `ReceiveLaws`, `TickLaws`: what one call does in either language, stated of the bits, fields and slots
  themselves, independently of the functions the endpoints are modelled with.
- `AckReturns`: a reliable frame and its ACK there and back, through forwarders that stamp flags on both.
- `Runs`: any interleaving of sends, arrivals and ticks at any times; the wrapping millisecond clock.
- `AtMostOnce`: which arrivals the unbounded Python endpoint takes for duplicates.
- `DedupWindow`, `DedupLifetime`, `DedupHoles`, `OutOfTurn`: which ones the bounded C table takes for duplicates, how long
  each entry lasts, when the table is a window of the last 16 deliveries, and a run in which it is not.
- `Tables`, `ReceiveSimulation`, `Refinement`: the C endpoint against the Python endpoint over whole runs.
- `Lifecycle`, `Tickets`, `TicketCalls`: what becomes of every accepted reliable send, when, and by which callbacks.
- `Network`, `SequenceWrap`: any number of endpoints on a network that loses, duplicates, delays and reorders frames.
- `Codegen`, `CodegenProofs`: the schema compiler; both back ends as syntax trees with a meaning.
- `FcVideo`, `FcVideoReports`: the variable-length FC_VIDEO payloads.

Where the code and its documentation or comments disagree, the model follows the code:

- `src/arc_protocol.h:139-141` says the encoder's output needs `len + 2` bytes, and that is the capacity the code
  tests. It is enough exactly when no zero-free run reaches 254 bytes (`Cobs.CapacityTestSufficesIff`,
  `Cobs.CapacityTestTooWeak`); frames, at most 252 bytes, are within that.
- The decoder accepts zero bytes inside a literal block, so re-encoding is exact only for zero-free bodies that do not
  end in a 0xFF block (`Cobs.ReencodesIff`; both exceptions occur: `Cobs.ZeroLiteralAccepted`, `Cobs.MaxBlockAccepted`).
- `src/arc_messages_fc_video.c:154-177` does not bound the length of a layouts report it decodes: longer ones than a
  payload may be are accepted and do not encode back (`FcVideo.LayoutsEncodeBackIff`, `FcVideo.LongLayoutsAccepted`).
- `src/arc_reliable.c:256` says that keys are evicted in FIFO order. They are as long as no change of session clears an
  entry (`DedupWindow.WindowRun`). After that they are not: a frame can be delivered twice with one delivery in between
  (`OutOfTurn.DeliveredOutOfTurn`). Which arrivals are duplicates in every run is `DedupLifetime.DuplicateIffHeld`, how
  many deliveries an entry outlasts is `DedupHoles.KeptIff`, and the order is restored as `DedupHoles.WindowAgain` says.
- `src/arc_reliable.c:296-297` says that frames of an untracked peer are still deduplicated within the current run. They
  are, but across its changes of session too: C refuses as a duplicate what Python delivers again
  (`ReceiveSimulation.UntrackedSourceDiverges`).

## Model

| member | source | states |
|---|---|---|
| Cobs.PutByte | src/arc_protocol.c:53-68 | One loop step of the encoder: which byte of the buffer it fills in or appends, and the new cursor. |
| Cobs.CobsEncode | src/arc_protocol.c:42-73 | In a buffer that passes the source's capacity test and is large enough, the encoder writes exactly the stuffed input and its delimiter and touches nothing behind them; otherwise it reports a full buffer and writes nothing. |
| Cobs.PartialStep | src/arc_protocol.c:53-68 | Between iterations the buffer holds finished blocks, a hole for the open block's code byte, and the open block, and finishing it from there yields the encoding of the whole input. |
| Cobs.TakeBlock | src/arc_protocol.c:96-115 | One block of the decoder: its bytes and its implicit zero appended, or the error the source's tests report, in their order. |
| Cobs.CobsDecode | src/arc_protocol.c:85-118 | The decoder returns exactly the decoding or exactly its error for every input and every capacity. |
| Cobs.EncodeIsZeroFree | src/arc_protocol.c:31-37 | The encoding contains no zero, so the delimiter is the only one on the wire. |
| Cobs.RoundTrip | src/arc_protocol.c:42-118 | Decoding the encoding of any byte string of any length returns it, maximal runs in every position included. |
| Cobs.WireRoundTrip | src/arc_protocol.c:42-118 | The same for the wire form with its delimiter, for every sufficient capacity. |
| Cobs.Canonical | src/arc_protocol.c:53-72 | A zero-free body that does not end in a 0xFF block is the encoding of what it decodes to, at any length. |
| Cobs.ReencodesIff | src/arc_protocol.c:53-117 | An accepted body encodes back to itself if and only if it is zero-free and does not end in a 0xFF block. |
| Cobs.ZeroLiteralAccepted | src/arc_protocol.c:96-115 | A literal zero is accepted, and the result encodes to other bytes. |
| Cobs.MaxBlockAccepted | src/arc_protocol.c:62-115 | A body that ends in a 0xFF block is accepted, and the result encodes to one byte more. |
| Cobs.BijectionUpTo254 | src/arc_protocol.h:40-42 | Up to 254 bytes, a wire is the wire form of d if and only if its only zero is its last byte and it decodes to d: encoding and decoding are inverse bijections. |
| Cobs.EncodedSize | src/arc_protocol.c:53-72 | The encoding is one byte longer than the input, plus one for every full 254 bytes of each zero-free run. |
| Cobs.CapacityTestSufficesIff | src/arc_protocol.c:45-47 | The test `out_capacity < len + 2` protects every buffer exactly when no zero-free run reaches 254 bytes. |
| Cobs.CapacityTestTooWeak | src/arc_protocol.c:45-47 | 254 nonzero bytes pass the test and need one byte more. |
| Cobs.ShortInputsHaveNoMaxRun | src/arc_protocol.h:40-42 | Inputs of frame size always take exactly two bytes more on the wire. |
| Cobs.DecodedSize | src/arc_protocol.c:96-115 | The output is as long as the body less one, less the number of 0xFF blocks that are followed by another block. |
| Cobs.AdvertisedCapacitySuffices | src/arc_protocol.h:143-145 | With the capacity the header asks for, len - 2, the decoder never reports a full buffer. |
| Cobs.CapacityOnlyLimits | src/arc_protocol.c:105-113 | Capacity decides between success and a full buffer and never changes the bytes. |
| Cobs.MalformedIff | src/arc_protocol.c:87-115 | Input shorter than two bytes or without a final zero is malformed at every capacity; with room for the output, malformed means exactly that, a zero code byte, or a code byte that points past the end. |
| PyProtocol.CobsEncode | python/arc_protocol/protocol.py:109-141 | The Python encoder returns the same stuffed bytes as C for every input of at most 252 bytes and refuses the others; its final size test never fires. |
| PyProtocol.CobsDecode | python/arc_protocol/protocol.py:144-173 | The Python decoder computes the same decoding, with its own size test at the end. |
| PyProtocol.DecodersAgree | python/arc_protocol/protocol.py:144-173 | Both languages accept the same wire bytes, read the same frame bytes from them, and C reports a full buffer whenever Python reports an oversized frame. |
| PyProtocol.PyMalformedIff | python/arc_protocol/protocol.py:144-173 | The same in Python; the only other refusal is of a frame that is too large. |
| Checksum.ShiftEight | src/arc_protocol.c:19-25 | The eight shift steps multiply the register by x^8 modulo the generator. |
| Checksum.Crc16 | src/arc_protocol.c:14-28 | The loop computes the checksum function of the first len bytes. |
| KnownAnswers.CheckValue | test/test_arc_protocol.c:48-59 | The checksum of no bytes is 0xFFFF and that of the digits "123456789" is 0x29B1. |
| Checksum.CrcIsRemainder | src/arc_protocol.c:14-28 | For every length the loop's result is the remainder of the message times x^16, its first sixteen bits inverted, divided by the generator. |
| Gf2.DivisionTheorem | src/arc_protocol.c:14-28 | The remainder used there is the remainder: the dividend is a multiple of the generator plus it. |
| Gf2.FeedIsRemainder | src/arc_protocol.c:19-25 | The bit-serial register computes that remainder from any preset. |
| Gf2.ZeroIffMultiple | src/arc_protocol.c:19-25 | The register started at zero ends at zero exactly for the multiples of the generator. |
| Checksum.CrcDifference | src/arc_protocol.c:14-28 | Affine over XOR: checksums of equally long messages differ by the remainder of the messages' difference. |
| Checksum.PassesIffZeroResidue | src/arc_protocol.c:170-175 | The trailer comparison succeeds exactly when the checksum over all bytes, trailer included, is zero. |
| Checksum.UndetectedIff | src/arc_protocol.c:170-175 | A change to an accepted string goes undetected exactly when the changed bits, as a polynomial, are a multiple of the generator. |
| Gf2Period.OrderOfX | src/arc_protocol.c:20-24 | x to the n is 1 modulo the generator exactly for multiples of 32767. |
| Checksum.TwoBitErrors | src/arc_protocol.c:164-175 | A two-bit error is missed exactly when its bits are a multiple of 32767 places apart. |
| Checksum.OddErrorsDetected | src/arc_protocol.c:164-175 | Strings of any length that both pass never differ in an odd number of bits. |
| Checksum.MinimumDistance | src/arc_protocol.c:164-175 | Up to 4095 bytes, changing one, two or three bits is always detected. |
| Checksum.BurstsDetected | src/arc_protocol.c:164-175 | Any change within sixteen consecutive bits is detected, at any bit offset and any length. |
| Checksum.FourBitsInSeventeenPass | src/arc_protocol.c:164-175 | Both bounds are sharp: the generator's pattern, four bits within seventeen, passes at every position. |
| Framing.FrameBuild | src/arc_protocol.c:124-156 | Building writes exactly the frame's bytes and leaves the rest of the buffer alone; oversized payloads and short buffers are refused, in that order, with the buffer untouched. |
| Framing.FrameParse | src/arc_protocol.c:158-188 | Parsing returns the fields, or the first failing test's error. |
| Framing.FrameBuildAck | src/arc_protocol.c:190-212 | The thirteen bytes of an ACK, one by one: addresses swapped, FLAGS 0x04 whatever the original's flags, family 0, type 2, the acknowledged number high byte first, a fitting checksum; a short buffer is refused. |
| Framing.FrameSetFlag | src/arc_protocol.c:214-230 | Flagging in place changes FLAGS and the trailer only, or returns an error and changes nothing. |
| Framing.WireLayout | src/arc_protocol.c:135-153 | Where each field of a frame is, byte by byte: LEN counts the bytes after it, SEQ and the checksum have their high byte first. |
| Framing.ParseBuild | src/arc_protocol.c:124-188 | Parsing a built frame returns its fields, for every payload of at most 241 bytes. |
| Framing.BuildParse | src/arc_protocol.c:124-188 | Every accepted byte string is the frame built from its parsed fields. |
| Framing.FlippedBitsRejected | src/arc_protocol.c:160-175 | Flipping one, two or three bits of any frame makes the parser report a bad length if the LEN byte is hit and a bad checksum otherwise. |
| Framing.BurstRejected | src/arc_protocol.c:160-175 | So does any change within sixteen consecutive bits. |
| Framing.OddChangesRejected | src/arc_protocol.c:160-175 | So does changing any odd number of bits. |
| Framing.TruncatedRejected | src/arc_protocol.c:161-165 | A proper prefix of a frame is too short below eleven bytes and otherwise of the wrong length. |
| Framing.ExtendedRejected | src/arc_protocol.c:162-165 | A frame with bytes behind it is of the wrong length up to 252 bytes and too long above. |
| Framing.ErrorsAre | src/arc_protocol.c:161-175 | Exactly which strings get each of the four errors; a bad checksum is a nonzero checksum over all bytes of a string whose LEN fits. |
| Framing.SetFlagRebuilds | src/arc_protocol.c:214-230 | On a frame, flagging in place gives the bytes of rebuilding with the flag set. |
| Framing.SetFlagsCommute | src/arc_protocol.c:214-230 | Flagging is idempotent, independent of order, and two flags can be set at once. |
| Framing.SetFlagHidesDamage | src/arc_protocol.c:214-230 | The old checksum is not looked at: damaged bytes whose LEN fits come out as a valid frame of the damaged fields. |
| Stream.WireOf | src/arc_protocol.h:37-43 | Every frame takes exactly its payload plus 13 bytes on the wire, at most 254, and is read back. |
| Stream.StreamRoundTrip | src/arc_protocol.c:42-188 | Concatenated wire forms, cut after each zero, decoded and parsed, give back the frames in order. |
| PyFraming.Crc16 | python/arc_protocol/protocol.py:95-106 | The Python checksum loop computes the same function as the C loop. |
| PyFraming.BuildFrame | python/arc_protocol/protocol.py:176-208 | Python builds the same bytes as C, and refuses an oversized payload first and then any field out of range. |
| PyFraming.ParseFrame | python/arc_protocol/protocol.py:211-239 | Python accepts the same frames as C with the same fields, its tests failing in the same order. |
| PyFraming.DamageRejected | python/arc_protocol/protocol.py:220-227 | The same errors for damaged frames in Python. |
| PyFraming.PyErrorsAre | python/arc_protocol/protocol.py:215-227 | Exactly which strings get each of Python's errors, prefixes of frames included. |
| PyFraming.EncodeFrame | python/arc_protocol/protocol.py:258-272 | Every draft Python accepts is sent as the wire form of its frame. |
| PyFraming.DecodeFrame | python/arc_protocol/protocol.py:275-278 | Unstuffing, then parsing; the first error wins. |
| PyFraming.SameLanguage | python/arc_protocol/protocol.py:275-278 | C and Python read the same frame from the same bytes of the link, or both refuse them. |
| PyFraming.DraftArrives | python/arc_protocol/protocol.py:258-278 | Python refuses exactly the drafts with an oversized payload, as a buffer error, or else with a field out of range, as a value error; every other one arrives as itself at a C and at a Python receiver. |
| Stream.Resynchronises | src/arc_protocol.c:70-71 | Whatever came before a zero byte, the pieces after it are cut as if it had not been there. |
| Reliable.ReliableEndpoint.constructor | src/arc_reliable.c:29-50 | A new endpoint has empty tables, the given settings and the given first number. |
| Reliable.ReliableEndpoint.Send | src/arc_reliable.c:52-104 | A send returns, stores and calls exactly what the send function says of the old tables; a send refused for a full table has taken a number. |
| Reliable.ReliableEndpoint.Receive | src/arc_reliable.c:106-140 | An arrival leaves the tables, result and callbacks of the receive function: ignored, ACK, duplicate or delivered. |
| Reliable.ReliableEndpoint.Tick | src/arc_reliable.c:142-165 | A tick changes every due slot and makes its callback, in slot order. |
| Reliable.ReliableEndpoint.CountPending | src/arc_reliable.c:167-174 | The number of used slots. |
| Reliable.ReliableEndpoint.PendingAlloc | src/arc_reliable.c:207-213 | The first free slot, if any. |
| Reliable.ReliableEndpoint.PendingFind | src/arc_reliable.c:215-228 | The first used slot with the destination, session and number, if any. |
| Reliable.ReliableEndpoint.SeenContains | src/arc_reliable.c:230-241 | Whether some used entry holds the key. |
| Reliable.ReliableEndpoint.SeenAdd | src/arc_reliable.c:243-263 | The key goes to the first free entry, else to the one the replacement index names, which moves on. |
| Reliable.ReliableEndpoint.SeenDropSource | src/arc_reliable.c:265-272 | Exactly the entries of the source are freed. |
| Reliable.ReliableEndpoint.SourceSessionChanged | src/arc_reliable.c:274-299 | Whether a tracked source changed its session; the session is recorded if the source has or finds an entry. |
| Reliable.ReliableEndpoint.EmitAck | src/arc_reliable.c:187-205 | The ACK takes the next number and goes to the sender. |
| PyReliable.ReliableEndpoint.Send | python/arc_protocol/reliable.py:58-87 | The Python send: frame, dict entry in insertion order, callback. |
| PyReliable.ReliableEndpoint.Receive | python/arc_protocol/reliable.py:89-106 | The Python receive: set, sessions, dict and callbacks after it. |
| PyReliable.ReliableEndpoint.TickKey | python/arc_protocol/reliable.py:114-127 | One key of the snapshot: failed and deleted, or retransmitted and re-armed. |
| PyReliable.ReliableEndpoint.Tick | python/arc_protocol/reliable.py:108-127 | The snapshot loop deals with exactly the expired entries of the old dict, each once, in dict order. |
| PyReliable.OnlyExpiredAct | python/arc_protocol/reliable.py:109-113 | Ticking the snapshot of expired keys is ticking all keys. |
| SendLaws.LongPayloadRefused | src/arc_reliable.c:63 | A payload of more than 64 bytes is refused: nothing changes, nothing is called. |
| SendLaws.FullTableRefused | src/arc_reliable.c:68-78 | A reliable send with all slots used calls nothing, takes a number and reports a full buffer. |
| SendLaws.SendCarries | src/arc_reliable.c:66-103 | Every other send returns the next number and sends one frame with the caller's fields, bit k of FLAGS set exactly if the caller set it or the send is reliable and k is 0; a reliable one is also in the first free slot, due timeout_ms from now. |
| SendLaws.PySendCarries | python/arc_protocol/reliable.py:68-87 | The same frame in Python; a reliable one is in the dict under its destination, session and number, last if new. |
| ReceiveLaws.OthersIgnored | src/arc_reliable.c:109 | A frame for another address changes and calls nothing. |
| ReceiveLaws.PlainDelivered | src/arc_reliable.c:127-139 | A frame with even FLAGS that is no ACK is delivered; nothing is sent, nothing changes. |
| ReceiveLaws.ReliableAnswered | src/arc_reliable.c:127-139 | A frame with odd FLAGS, whatever its other bits, that is no ACK gets exactly one ACK, first, with FLAGS 0x04 and its number, and is then delivered or taken for a duplicate. |
| ReceiveLaws.SecondIsDuplicate | src/arc_reliable.c:127-136 | A second such frame with the same source, session and number, at once, gets its ACK and is a duplicate, in any state. |
| ReceiveLaws.FirstTwo | src/arc_reliable.c:127-136 | Of the first two such frames the first is delivered, and the second is a duplicate exactly if it has the first one's source, session and number. |
| ReceiveLaws.AckFrees | src/arc_reliable.c:111-125 | A frame with the ACK bit, whatever other flags it carries, of family 0 and type 2 calls nothing and frees exactly the first slot whose frame went to its sender in our session with the number in its two payload bytes; with another payload size it frees none. |
| ReceiveLaws.PyReliableAnswered | python/arc_protocol/reliable.py:97-106 | The same ACK and delivery in Python. |
| ReceiveLaws.PySecondIsDuplicate | python/arc_protocol/reliable.py:97-103 | The same for a second frame. |
| ReceiveLaws.PyFirstTwo | python/arc_protocol/reliable.py:97-106 | The same for the first two frames. |
| ReceiveLaws.PyPlainDelivered | python/arc_protocol/reliable.py:97-106 | The same for even FLAGS. |
| ReceiveLaws.PyAckFrees | python/arc_protocol/reliable.py:93-95 | The ACK removes exactly the entry with its sender, our session and its number, and keeps the others in their order. |
| TickLaws.SlotAfterTick | src/arc_reliable.c:144-163 | What a tick does to each slot, in numbers. |
| TickLaws.CallsInSlotOrder | src/arc_reliable.c:144-163 | One callback for each due slot, in slot order, and no other: fail_fn after max_retries retransmissions, else send_fn. |
| TickLaws.EntryAfterTick | python/arc_protocol/reliable.py:108-127 | What a tick does to each entry. |
| TickLaws.CallsInDictOrder | python/arc_protocol/reliable.py:108-127 | One callback for each expired entry, in the order of the dict, and no other. |
| TickLaws.TickKeepsOrder | python/arc_protocol/reliable.py:119-127 | The entries a tick does not give up keep their order. |
| AckReturns.StampedArrives | src/arc_protocol.c:214-230 | A frame re-flagged any number of times is parsed, with its old flags and more, and all other fields as they were. |
| AckReturns.AckFreesSlot | src/arc_reliable.c:111-125 | An ACK of the frame in a slot, with any further flags, frees this slot and changes and calls nothing else. |
| AckReturns.RunOwnNumbers | src/arc_reliable.c:66-95 | In the first 65536 calls of every run the pending frames are the node's own, marked reliable, and numbered differently. |
| AckReturns.AcknowledgedThereAndBack | src/arc_reliable.c:106-140 | For every frame pending in such a run: through any stamps of flags out and back, and a C or Python peer in any state, its ACK comes back and frees exactly its slot. |
| AckReturns.PyAcknowledgedThereAndBack | python/arc_protocol/reliable.py:89-106 | The same for a Python sender, in runs of any length. |
| Runs.TimerAgreesIff | src/arc_reliable.c:147-151 | Less than one wrap apart, the signed comparison of wrapped times agrees with true time exactly when the two are within half a wrap. |
| AtMostOnce.SeenIffKnown | python/arc_protocol/reliable.py:97-103 | In every run a key is in the set exactly when it has arrived and its source has not used another session since. |
| AtMostOnce.DuplicateIff | python/arc_protocol/reliable.py:89-106 | An arrival is called a duplicate exactly when its key has arrived before without another session of its source in between; otherwise it is delivered; either way it is acknowledged. |
| AtMostOnce.FirstArrivalDelivered | python/arc_protocol/reliable.py:97-106 | The first arrival of every key is delivered. |
| AtMostOnce.AtMostOnceIff | python/arc_protocol/reliable.py:154-163 | Every frame is delivered at most once in exactly those runs in which no frame comes in again after its source has used another session. |
| AtMostOnce.ThereAndBackDeliversTwice | python/arc_protocol/reliable.py:154-163 | Sessions 1, 2, 1 of one source deliver one frame twice. |
| DedupWindow.WindowRun | src/arc_reliable.c:243-263 | While no session change clears an entry, entry m mod 16 holds delivery m for the last 16 deliveries and the replacement index points at the oldest. |
| DedupWindow.DuplicateIffRecent | src/arc_reliable.c:127-136 | Then an arrival is a duplicate exactly when its key is among the last 16 delivered. |
| DedupWindow.SeventeenDistinct | src/arc_reliable.c:243-263 | Then any 17 deliveries in a row have different keys. |
| DedupLifetime.ContainsIffHeld | src/arc_reliable.c:243-272 | In every run, changes of session included, the table holds a key exactly when some call delivered it, its source has not been cleared since, and there have been no more replacements than come before its entry's turn. |
| DedupLifetime.DuplicateIffHeld | src/arc_reliable.c:127-136 | In every run an arrival is a duplicate exactly when its key is held in that sense and the arrival itself does not change its source's session; otherwise it is delivered. |
| DedupHoles.KeptIff | src/arc_reliable.c:243-263 | In any state an entry outlasts every run of n more deliveries that does not clear its source if and only if n is at most the number of free entries plus the replacements before the index comes to it. |
| DedupHoles.WindowAgain | src/arc_reliable.c:243-272 | From any state, after as many deliveries as there were free entries and 16 more without a clearing change of session, an arrival is again a duplicate exactly when its key is among the last 16 delivered. |
| OutOfTurn.DeliveredOutOfTurn | src/arc_reliable.c:256-262 | From the start, for any two sources: one frame of the first, 15 of the other, the first in a new session, the other again, and the frame of the new session once more; C delivers that frame twice with one delivery in between, in a run in which Python delivers no frame twice. |
| ReceiveSimulation.RunCovers | src/arc_reliable.c:230-299 | With at most six reliable sources, in every run: the live keys of the C table are in Python's set, the source table records exactly Python's sessions, and both endpoints are at the same sequence number. |
| ReceiveSimulation.CDeliversWheneverPythonDoes | src/arc_reliable.c:127-139 | In every such run C sends the same ACK with the same number as Python at every arrival and delivers whenever Python does. |
| ReceiveSimulation.RunEquals | src/arc_reliable.c:243-263 | If Python's set never exceeds 16 keys, the C table holds exactly that set. |
| ReceiveSimulation.UntrackedSourceDiverges | src/arc_reliable.c:290-298 | Six is the limit: from the start, after one frame from each of any six sources, a seventh in sessions 1, 2 and 1 is refused as a duplicate by C and delivered by Python. |
| Refinement.TickSameCalls | src/arc_reliable.c:142-165 | One tick of corresponding pending tables makes the same callbacks in both languages, each once. |
| Refinement.TablesSuffice | src/arc_reliable.c:52-165 | With room to send, ticks less than half a wrap apart and a timeout of at most half a wrap, from however many sources and with however many keys: every call that is not the arrival of a reliable frame returns the same in both languages and makes the same callbacks with the same frames, in another order only inside one tick; such an arrival gets the same ACK; pending counts and next numbers agree after every call. |
| Refinement.TablesSufficeExactly | src/arc_reliable.c:52-165 | With at most six reliable sources, and while Python's set has at most 16 keys, arrivals are the same too, and the C table holds exactly Python's set. |
| Refinement.LateTickMissed | src/arc_reliable.c:147-151 | A tick half a wrap late makes Python act and C do nothing. |
| Lifecycle.TickCounts | src/arc_reliable.c:142-165 | A tick frees one slot for each call of fail_fn. |
| Lifecycle.Conservation | src/arc_reliable.c:52-174 | In every run: accepted reliable sends = slots cleared by ACKs + calls of fail_fn + pending count. |
| Lifecycle.TickSpends | src/arc_reliable.c:142-165 | Every callback of a tick uses up exactly one unit of the sum over used slots of max_retries - retries + 1. |
| Lifecycle.RetriesEnd | src/arc_reliable.c:142-165 | Once reliable sends stop, all later ticks together make no more callbacks than that sum, from any state whose retry counts are within bounds; all reachable ones are. |
| Tickets.RunConsistent | src/arc_reliable.c:52-165 | Every accepted send is open exactly while one slot holds its frame, with as many retries as emissions after the first; it is emitted between once and 1 + max_retries times, exactly so often if it failed. |
| TicketCalls.TickBooked | src/arc_reliable.c:142-165 | The callbacks of a tick are those of the open sends, each making its own exactly once, however calls are counted. |
| TicketCalls.CallsAreBooked | src/arc_reliable.c:52-165 | In every run and for every way of counting, accepted sends and ticks have called send_fn once for each recorded emission and fail_fn once for each abandoned send, and nothing else. |
| TicketCalls.FatesAreCalls | src/arc_reliable.c:52-165 | In every run: calls of fail_fn = abandoned sends, slots cleared by ACKs = acknowledged sends, callbacks of ticks = emissions after the first ones + abandoned sends. |
| TicketCalls.EmissionsBounded | src/arc_reliable.c:142-165 | For every frame and every run, the accepted sends of that frame and the ticks have called send_fn with it at least once and at most 1 + max_retries times for each such send. |
| TicketCalls.RetriesEndFromStart | src/arc_reliable.c:142-165 | From the start, after any run: once reliable sends stop, all later ticks together make at most 1 + max_retries callbacks for each pending frame. |
| Tickets.TimersKeepTheirDistance | src/arc_reliable.c:84-86 | However rarely or late ticks come, with a timeout of at most half a wrap: emissions of one frame are at least timeout_ms apart in true time, and failure comes no sooner than (max_retries + 1) * timeout_ms after the send. |
| Tickets.DueTicksAct | src/arc_reliable.c:147-163 | In every run a tick at or after the timeout of an open frame, less than half a wrap late, emits it again, or abandons it if it has been emitted 1 + max_retries times. |
| Tickets.LongTimeoutFiresAtOnce | src/arc_reliable.c:147-151 | For every longer timeout, a tick at the time of the send retransmits or gives up at once. |
| Network.AcksAreSound | src/arc_reliable.c:106-140 | In every reachable state of any number of nodes on a network that loses, duplicates, delays and reorders, a pending frame that an ACK clears has been delivered, exactly it, by its destination; the node whose frame it is has taken at most 65536 numbers, the others any number. |
| Network.NoSilentLoss | src/arc_reliable.c:52-165 | In every reachable state every frame accepted by a node that has taken at most 65536 numbers is pending, has been reported as failed, or has been delivered by its destination. |
| Network.InvStep | src/arc_reliable.c:52-205 | Every call at every node keeps the invariants: until a sender's numbers come round there is one frame per number and nothing of its is lost; seen keys are delivered keys; every ACK on the network is justified. |
| Network.FreshAckJustified | src/arc_reliable.c:127-136 | An ACK is sent only for a frame that is delivered now or was delivered before. |
| SequenceWrap.OldAckClearsNewFrame | src/arc_reliable.c:301-306 | The bound is sharp: in a run from the start between any two nodes, the sender has taken 65537 numbers, and a late copy of an ACK its peer sent clears a newer frame the peer has not delivered, which is then neither pending, nor failed, nor delivered. |
| Codegen.GenerateCEncoder | tools/generate_messages.py:212-216 | The first loop with its running offset emits the encoder's statements. |
| Codegen.GenerateCDecoder | tools/generate_messages.py:224-228 | The second loop emits the decoder's statements. |
| Codegen.GeneratePyEncoder | tools/generate_messages.py:300-307 | The Python encode method's expressions, one field or many. |
| Codegen.GeneratePyDecoder | tools/generate_messages.py:309-320 | The Python decode method's expressions with their offsets. |
| Codegen.BigEndianAt | tools/generate_messages.py:62-95 | Byte i of the wire form of a number, in arithmetic: the highest comes first. |
| CodegenProofs.EncodeFieldRuns | tools/generate_messages.py:62-95 | For each type the emitted statements run without undefined behaviour, with 16- or 32-bit int, and store the value's big-endian two's complement bytes at the offset and nothing else. |
| CodegenProofs.DecodeFieldRuns | tools/generate_messages.py:98-129 | For each type the emitted statement sets the field to the value of its bytes. |
| CodegenProofs.EachByteOnce | tools/generate_messages.py:212-215 | The emitted encoder stores to each of the bytes 0 to payload_size - 1 exactly once. |
| CodegenProofs.CEncodeWrites | tools/generate_messages.py:207-217 | The emitted C encoder checks the capacity, writes exactly the payload and leaves the rest of the buffer alone. |
| CodegenProofs.CDecodeReads | tools/generate_messages.py:219-229 | The emitted C decoder accepts exactly the payloads of the right length and sets every field. |
| CodegenProofs.PyEncodeWrites | tools/generate_messages.py:239-244 | The emitted Python encoder returns exactly the payload, and refuses exactly the values out of range. |
| CodegenProofs.PyDecodeReads | tools/generate_messages.py:247-254 | The emitted Python decoder accepts the same payloads as C and reads the same values. |
| CodegenProofs.ValuesOfBytes | tools/generate_messages.py:41-42 | Reading a payload gives back every value that was written. |
| CodegenProofs.BytesOfValues | tools/generate_messages.py:41-42 | Every byte string of payload size is the payload of the values read from it. |
| CodegenProofs.BackEndsAgree | tools/generate_messages.py:62-254 | For every field list and all values in range both languages write the same bytes and both decoders read them back. |
| CodegenProofs.EveryPayloadComesBack | tools/generate_messages.py:62-254 | Every payload of the right length is what both languages make of the values decoded from it. |
| FcVideoReports.LayoutsReport.Encode | src/arc_messages_fc_video.c:122-152 | The two passes return the report's bytes or the first error, and write nothing else. |
| FcVideoReports.LayoutsReport.NameLengthUnguarded | src/arc_messages_fc_video.c:146 | The second scan, which has no bound, stays inside the name because the first pass found its NUL. |
| FcVideoReports.LayoutsReport.Decode | src/arc_messages_fc_video.c:154-177 | Decoding fills the count and the names with their NULs, leaves all other bytes of the struct alone, or returns the first error. |
| FcVideo.DecodeOfEncodedLayouts | src/arc_messages_fc_video.c:122-177 | Decoding an encoded report gives back the count and every name up to its NUL. |
| FcVideo.LayoutsEncodeBackIff | src/arc_messages_fc_video.c:122-177 | An accepted payload encodes back to itself exactly when it has at most 241 bytes. |
| FcVideo.LongLayoutsAccepted | src/arc_messages_fc_video.c:154-177 | A report of sixteen 23-character names, 385 bytes, is accepted. |
| FcVideo.LayoutsLayout | src/arc_messages_fc_video.c:143-150 | Where each name of a report is, and its NUL. |
| FcVideo.EncodeLayoutsErrors | src/arc_messages_fc_video.c:125-141 | Exactly when the encoder gives which error. |
| FcVideo.LayoutsErrors | src/arc_messages_fc_video.c:158-171 | Which error the decoder gives for an empty report, for its count, and for a first name without a NUL or of more than 23 characters. |
| FcVideo.CutLayoutsRefused | src/arc_messages_fc_video.c:164-176 | Every proper prefix and every proper extension of an accepted report is of the wrong length. |
| FcVideoReports.StatusReport.Encode | src/arc_messages_fc_video.c:67-90 | The report's bytes, or the error for its counts or the capacity. |
| FcVideoReports.StatusReport.Decode | src/arc_messages_fc_video.c:92-120 | Slots and senders as far as the counts say, the rest of the struct unchanged, or the first error. |
| FcVideo.DecodeOfEncodedStatus | src/arc_messages_fc_video.c:67-120 | Every status report comes back from its bytes. |
| FcVideo.StatusEncodesBack | src/arc_messages_fc_video.c:67-120 | Every accepted payload is the encoding of what was read from it. |
| FcVideo.StatusLayout | src/arc_messages_fc_video.c:79-88 | Where each slot and each sender of a report is. |
| FcVideo.StatusErrors | src/arc_messages_fc_video.c:96-113 | Exactly when the decoder gives which error. |

## Left out

- CobsEncode: buffers that pass the capacity test and are still too small are excluded by a precondition, because the source writes past them; which ones they are is `Cobs.CapacityTestSufficesIff`.
- CobsDecode: what an error leaves in the output buffer is not stated; the source leaves a partial result there.
- AcksAreSound: assumes that nodes keep their session, that callers do not send frames shaped like ACKs, and that the ACK's addressee has taken at most 65536 sequence numbers; the last is shown to be needed. Likewise NoSilentLoss for the frame's sender.
- AcknowledgedThereAndBack: covers a sender's first 65536 calls; later two slots may wait under one number, and which one an ACK frees is `ReceiveLaws.AckFrees`. A frame that looks like an ACK when it arrives is excluded, because the code takes it for one.
- TablesSuffice: calls outside the limits are not compared, except where a lemma shows how the endpoints then differ; milliseconds are integers and Python's seconds exact reals, so rounding of Python's floats is not modelled.
- WindowAgain: its count of deliveries is sufficient, not necessary; the exact condition for each single arrival is `DedupLifetime.DuplicateIffHeld`.
- LayoutsReport.Decode: after an error the struct may be partly filled, and how far is not stated; likewise StatusReport.Decode.
- Aliasing of input and output buffers, NULL arguments and the `ARC_ERR_BAD_ARG` they cause, and `user` pointers.
- Callbacks that call back into the endpoint; callbacks are entries of a log.
- `build_ack` of `protocol.py`, which repeats the C code.
- The router and its latest-wins address table (`src/arc_router.c`, `python/arc_protocol/router.py`): small finite claims.
- The fixed-size message families: instances of the generator theorem or plain byte shuffles, overlays included.
- The variable-length power and video payloads and `python/arc_protocol/messages.py`: easier repeats of the FC_VIDEO ones, the Python side through UTF-8 library calls.
- The text the generator emits around its statements: banners, guards, declarations, enums, files, the `--check` mode.
- Schema entries with unsupported types, for which the generator raises an error.
- Link transports, superframe timing and node firmware, which live outside the repository.
