# UDPShield core in Dafny

UDPShield sends a file over UDP with a small TCP-like protocol (STP). Each segment is a
4-byte header, holding a 16-bit type tag (DATA, ACK, SYN, FIN) and a 16-bit sequence
number, followed by the payload.

The sender keeps sent segments in a fixed ring of slots until they are acknowledged. It has:
- a retransmission timer;
- fast retransmit after three duplicate ACKs;
- a SYN/FIN handshake.

The receiver buffers out-of-order segments and writes the in-order run to a file.

This project models the sequential core of that program and proves properties of it:

| module (file) | models |
|---|---|
| `Common` (common.dfy) | segment types, connection states, segments, sequence arithmetic modulo 2^16 |
| `BinaryCodec` (binary_codec.dfy) | `create_segment` / `unpack_segment` of helper.py |
| `PackedCodec` (packed_codec.dfy) | the second header codec, sender/segment_utils.py |
| `TextCodec` (text_codec.dfy) | the space-separated text codec, receiver/segment_utils.py |
| `Window` | the slot ring shared by the senders and the array receiver: ACK index search, "any unacknowledged", circular stepping and clearing |
| `SenderOne` (sender_one.dfy) | the first sender draft, sender.py: receive thread, timer thread, `send_syn`, `send_data`, `send_fin` |
| `SenderTwo` (sender_two.dfy) | the class-based sender draft, sender/sender.py and sender/timer_handler.py |
| `ReceiveWindow` (receive_window.dfy) | `find_expected_segno` and `remove_all_in_recv_buffer_if_full` of helper.py |
| `ArrayReceiver` (array_receiver.dfy) | the receive loop of receiver.py over its circular buffer |
| `ReorderBuffer` (reorder_buffer.dfy) | the dictionary buffer `ReceiverBuffer.process_data`, receiver/buffer.py |

Every handler that runs under the sender's lock, and every iteration of a receive loop, is
modelled in two ways:
- a pure step function from the old state to the new one (`SenderOne.DatagramStep`,
  `ArrayReceiver.LoopStep`, and so on), about which the lemmas are proved;
- a method of a class that holds the same state in fields and arrays and updates them in place.
  Each such method is proved to produce exactly the step function's result
  (`ensures View() == Step(old(View()), ...)`).

The loops of the source are `while` loops with invariants:
- the ACK index search;
- the "any unacknowledged" test;
- `send_data`;
- `find_expected_segno`;
- `remove_all_in_recv_buffer_if_full`;
- the dictionary drain;
- the receive loop.

The window slide invariant of the first sender draft is `Window.Contiguous`: the occupied slots
are one circular run that starts at `send_base`. The constructor establishes it, and every
handler keeps it (`SenderOne.DatagramKeepsContiguous`, `SenderOne.ControlStepsKeepContiguous`,
`SenderOne.SendDataKeepsContiguous`), as do the in-place methods of `SenderOne.Sender`.
`SenderOne.WindowInv` holds only the index bounds.

Modelling choices:
- The loss coins (`is_to_be_dropped`) are `bool` parameters.
- The input file is a byte sequence with a cursor.
- The received file is an appended sequence.
- Segments handed to `socket.send` are appended to a log (`sent` in the first sender draft).
  In the second draft that log is a list of `Action`s, because there a timeout calls
  `send_syn`/`send_fin` functions that the package does not define.
- The timer has three values, `Disarmed | Armed | Expired`, not two. A `threading.Timer` that
  has fired and was not replaced is still truthy. So after a timeout with nothing to resend,
  `send_data`'s `if not control.timer` starts no new timer
  (`SenderOne.ExpiredTimerStaysExpired`).

Quirks of the source are kept as written:
- The first draft's fast retransmit reuses the received type tag.
- The second draft sends its fast retransmit as DATA.
- receiver.py always clears slot `-1`, the last slot, before flushing
  (`ArrayReceiver.BufferedSegmentInLastSlotIsLost`).
- The dictionary buffer advances by the length of the arriving segment, not of the flushed one
  (`ReorderBuffer.StepIsArrivingLength`).
- The dictionary buffer starts at expected seqno -1, and nothing in receiver/buffer.py or
  receiver/receiver.py ever changes it. With non-negative sequence numbers it therefore never
  writes anything (`ReorderBuffer.NeverFlushesFromStart`).

## Model

| member | source | states |
|---|---|---|
| Common.TagFrom | enums.py:3-7 | `SegmentType(n)` succeeds exactly for 0..3, and then inverts the tag value |
| Common.Advance | sender.py:442 | `(seqno + n) % 2**16` lies in 0..65535 and is congruent to `seqno + n` |
| BinaryCodec.Be16 | helper.py:79-81 | `to_bytes(2, "big")` gives two bytes that read back as the value |
| BinaryCodec.Be32 | helper.py:85-87 | `struct.pack('>I', v)` gives four bytes that read back as the value |
| BinaryCodec.Encode | helper.py:78-94 | the encoding succeeds iff 0 <= seqno < 65536 (otherwise OverflowError); it has length 4 + payload, the big-endian tag in bytes 0-1, the seqno in bytes 2-3, then the payload |
| BinaryCodec.Decode | helper.py:96-102 | it succeeds iff there are at least 4 bytes and a tag below 4; fewer bytes are `Truncated`, another tag is `UnknownTag`; the type and seqno are the two header halves; SYN/FIN get an empty payload, DATA/ACK get `buf[4:]` |
| BinaryCodec.RoundTrip | helper.py:78-102 | decoding an encoded segment gives `(t, s, p)` for DATA/ACK and `(t, s, '')` for SYN/FIN, for every in-range seqno |
| BinaryCodec.EncodeOfDecode | helper.py:78-102 | re-encoding a decoded datagram gives the datagram back, with only the header for SYN/FIN |
| BinaryCodec.BigEndian2Injective | helper.py:99-102 | two header bytes are determined by the value `from_bytes` reads from them |
| PackedCodec.BitOr | sender/segment_utils.py:6 | Python's bitwise OR on naturals is at least each operand and at most their sum |
| PackedCodec.Encode | sender/segment_utils.py:4-7 | it succeeds iff the seqno is non-negative and the OR header is below 2^32 (otherwise OverflowError); on success it gives 4 header bytes then the payload, and the header bytes read as the integer `tag << 16 | seqno` (so at least the seqno) for every seqno; for 0 <= seqno < 65536 the bytes equal those of helper.py's `create_segment` |
| PackedCodec.SameHeader | sender/segment_utils.py:6 | for a 16-bit seqno the OR header is the value of helper.py's two 2-byte halves, fits in 32 bits, and packs back to those four bytes |
| PackedCodec.Decode | sender/segment_utils.py:9-15 | the same success condition and fields as the helper.py decoder |
| PackedCodec.HeaderIsSum | sender/segment_utils.py:6 | for a 16-bit seqno, the bitwise OR of `tag << 16` with the seqno equals `tag * 65536 + seqno` |
| PackedCodec.DecodeAgreesWithHelper | sender/segment_utils.py:9-15 | both `unpack_segment` drafts give the same segment or the same error on every input; the empty SYN/FIN payload, `''` (a str) in helper.py but `b''` here, is the empty byte sequence in both models, so the agreement is on bytes and not on Python's `'' != b''` |
| PackedCodec.RoundTrip | sender/segment_utils.py:4-15 | decode(encode(t, s, p)) gives back every field, with an empty payload for SYN/FIN |
| PackedCodec.SeqnoBleedsIntoType | sender/segment_utils.py:6 | DATA with seqno 65536 is encoded as the header of ACK 0 |
| PackedCodec.WideSeqnoIsLost | sender/segment_utils.py:6-13 | no seqno of 65536 or more survives an encode followed by a decode |
| TextCodec.ParseInt | receiver/segment_utils.py:9 | `int()` on a string of digits is its decimal value; it fails on the empty string |
| TextCodec.IntTextRoundTrip | receiver/segment_utils.py:4 | formatting an integer with `f"{seqno}"` and parsing it back gives the integer |
| TextCodec.IndexOfSpace | receiver/segment_utils.py:8 | the first space: none iff the text has no space, and no space before it |
| TextCodec.Split2 | receiver/segment_utils.py:8 | `split(" ", 2)` gives 1 to 3 fields, 1 exactly when there is no space, and the first two fields have no space |
| TextCodec.SplitJoin | receiver/segment_utils.py:8 | joining the fields with single spaces gives the text back |
| TextCodec.Encode | receiver/segment_utils.py:3-5 | the result starts with the type text and a space, and ends with the data |
| TextCodec.Decode | receiver/segment_utils.py:7-11 | it fails with `MissingSeqno` exactly when there is no space; on success the type is the spaceless prefix before the first space, kept as a string, and equal to the first field of `split(" ", 2)`; the seqno is what `int()` reads from the second field, and the data is the third field (a suffix of the text) or `''` when there is none |
| TextCodec.RoundTrip | receiver/segment_utils.py:3-11 | `unpack_segment(create_segment(t, s, d)) == (t, s, d)` for a type without spaces, any integer seqno and any data, spaces included |
| TextCodec.NoThirdFieldMeansEmptyData | receiver/segment_utils.py:10 | with only two fields the data is `''` |
| TextCodec.Failures | receiver/segment_utils.py:9 | text without a space fails at `parts[1]`; a second field that is not an integer fails in `int()` |
| Window.AckIndex | sender/sender.py:66-69 | the first occupied slot whose `(seqno + len) % 2**16` equals the ACK, or -1 exactly when there is none |
| Window.HasUnacked | sender.py:306-311 | `find_current_unACKed_segments`: true iff some slot is occupied |
| Window.FindAckIndex | sender.py:239-243 | the loop's `index` equals the first matching slot, or -1 |
| Window.Step | sender.py:288 | the slot `k` circular steps on from `b` is a valid slot, `k` steps away from `b` |
| Window.ClearRun | sender.py:286-290 | clearing a run keeps the buffer length |
| Window.ClearRunAt | sender.py:286-290 | after clearing `k` slots from `b`, exactly the slots fewer than `k` steps from `b` are empty; all others are unchanged |
| Window.ClearFrontOfRun | sender.py:286-290 | emptying the first `m` slots of a contiguous run of `k` occupied slots from `b` leaves a run of `k - m` from the slot `m` steps on |
| Window.FillAfterRun | sender.py:403-420 | storing a segment in the slot just past a run of `k` makes it a run of `k + 1` |
| Window.EmptyIsContiguous | sender.py:486 | an all-empty buffer satisfies the window slide invariant from any slot |
| SenderOne.ParseAck | sender.py:217-218 | the tag and ACK read from a short `recv` are 16-bit values; on a full header they agree with `unpack_segment` |
| SenderOne.EstablishedStep | sender.py:238-292 | the EST handler keeps the index bounds (`send_base` indexes the buffer, the duplicate count is below 3), the buffer length, the state, `seqno` and `last_segment_seqno`; contiguity is `EstablishedKeepsContiguous` |
| SenderOne.DatagramStep | sender.py:217-305 | one datagram keeps the index bounds, the buffer length, `seqno` and the file position; contiguity is `DatagramKeepsContiguous` |
| SenderOne.SynStep | sender.py:366-385 | `send_syn` enters SYN_SENT; it logs the SYN and bumps `seqno` by 1, without wrapping, unless this is the first SYN and it is dropped |
| SenderOne.FinStep | sender.py:446-464 | a dropped FIN only disarms the timer; otherwise the FIN is sent at `seqno` and the state is FIN_WAIT; slots, `send_base` and `seqno` are untouched |
| SenderOne.TimeoutStep | sender.py:312-363 | a timeout keeps the slots and `send_base`; either the timer is re-armed or the state is unchanged apart from an expired timer |
| SenderOne.Chunk | sender.py:404 | `file.read(MSS)` gives at most 1000 bytes from the cursor, and fewer only at end of file |
| SenderOne.FillStep | sender.py:403-442 | filling slot `i` stores a DATA segment at the current `seqno` with the bytes read, and advances `seqno` modulo 2^16; at EOF it closes the file and records `last_segment_seqno`; the segment is logged iff not dropped |
| SenderOne.Pump | sender.py:399-443 | the send loop keeps the index bounds, the buffer length and `send_base`, and moves the cursor forward only; contiguity is `PumpKeepsContiguous` |
| SenderOne.SendDataStep | sender.py:387-443 | the same for `send_data` as a whole; contiguity is `SendDataKeepsContiguous` |
| SenderOne.CumulativeAsWritten | sender.py:286-290 | models the cumulative loop as written, with fuel; a finished run keeps the buffer length |
| SenderOne.UnmatchedAckNeverLeavesLoop | sender.py:286-290 | with `index == -1` the loop never ends, for any number of iterations |
| SenderOne.EmptyWindowAckHangs | sender.py:239-290 | a concrete EST datagram takes the cumulative branch with `index == -1` and hangs |
| SenderOne.CumulativeFrom | sender.py:286-290 | part way through, the as-written loop has cleared the slots it has passed |
| SenderOne.MatchedAckLeavesLoop | sender.py:280-292 | for a real match the as-written loop ends, clears `send_base` through `index`, and sets `send_base` to `index + 1` |
| SenderOne.FinalAckCloses | sender.py:222-228 | the ACK of the last segment gives CLOSING and no timer; slots, `send_base`, the duplicate count and the log are unchanged |
| SenderOne.HandshakeAndTeardown | sender.py:234-300 | SYN_SENT plus any datagram gives EST; FIN_WAIT plus any datagram gives FINISHED with `is_alive` false; other states ignore it |
| SenderOne.ExactAck | sender.py:239-264 | an ACK for the slot at `send_base` clears exactly that slot, advances `send_base`, zeroes the count, and leaves a timer iff something is still unacknowledged |
| SenderOne.ThreeDuplicatesRetransmitOnce | sender.py:267-277 | three duplicates send exactly one segment (received tag, ACK seqno, payload at `send_base`) and leave the window unchanged |
| SenderOne.CumulativeAck | sender.py:280-292 | a later match clears `send_base..index` circularly and nothing else, and sets `send_base := (index + 1) % n`; the timer follows `restart_timer` |
| SenderOne.EstablishedCumulative | sender.py:280-292 | the same for the EST handler alone |
| SenderOne.UnmatchedAckIgnored | sender.py:280-292 | in the corrected model an ACK that matches nothing and is no duplicate changes nothing |
| SenderOne.EstablishedKeepsContiguous | sender.py:238-292 | the window slide invariant (the occupied slots are one circular run starting at `send_base`) survives every branch of the EST handler |
| SenderOne.ExactAckWindow | sender.py:253-262 | an exact ACK empties only the `send_base` slot and moves `send_base` on by one, keeping the slide invariant |
| SenderOne.CumulativeAckWindow | sender.py:280-292 | a cumulative ACK empties `send_base` through the match and moves `send_base` past it, keeping the slide invariant |
| SenderOne.OtherAckWindow | sender.py:265-279 | a duplicate or an unmatched ACK leaves the slots and `send_base` alone |
| SenderOne.HeadCleared | sender.py:253-258 | emptying the occupied head of a contiguous run leaves a contiguous run from the next slot |
| SenderOne.ClearedThrough | sender.py:285-289 | emptying a contiguous run up to an occupied slot leaves a contiguous run from the slot after it |
| SenderOne.DatagramKeepsContiguous | sender.py:217-305 | every datagram through the receive thread keeps the window slide invariant |
| SenderOne.ControlStepsKeepContiguous | sender.py:312-385 | `send_syn`, `send_fin` and the timer thread keep the window slide invariant |
| SenderOne.PumpKeepsContiguous | sender.py:399-443 | walking from `send_base`, the send loop skips the run and fills only the slot just past it, so the window slide invariant holds at the end |
| SenderOne.SendDataKeepsContiguous | sender.py:387-443 | `send_data` keeps the window slide invariant |
| SenderOne.TimeoutOrder | sender.py:329-362 | the fire order is dropped SYN, then dropped FIN, then the head segment; only these re-arm the timer and zero the count; with nothing to resend the timer stays expired |
| SenderOne.PumpKeepsOccupied | sender.py:403 | the send loop never overwrites an occupied slot |
| SenderOne.PumpStoresChunks | sender.py:404-420 | every stored segment is DATA with at most MSS bytes |
| SenderOne.PumpSeqnoFollowsCursor | sender.py:440-442 | `seqno` advances, modulo 2^16, by exactly the bytes read |
| SenderOne.PumpEndOfFile | sender.py:425-429 | at end of file the cursor is at the end and `last_segment_seqno` equals the next `seqno` |
| SenderOne.DropsOnlyAffectLog | sender.py:434-439 | the loss coins change only what is sent, never the buffer, the cursor, `seqno` or `control` |
| SenderOne.ExpiredTimerStaysExpired | sender.py:411-413 | a fired timer is truthy, so the send loop starts no new one |
| SenderOne.AdvanceTwice | sender.py:440-442 | advancing by `a` and then by `b` is advancing by `a + b`, modulo 2^16 |
| SenderOne.Sender.constructor | sender.py:486-517 | an empty buffer of `int(max_win / MSS)` slots, `seqno = isn = 23`, `last_segment_seqno = -1`, a started timer, CLOSED; the window slide invariant holds |
| SenderOne.Sender.RestartTimer | sender.py:189-204 | afterwards the timer is armed iff some slot is occupied |
| SenderOne.Sender.OnDatagram | sender.py:220-305 | the in-place handler gives exactly `DatagramStep` and keeps the window slide invariant |
| SenderOne.Sender.HandleDatagram | sender.py:220-305 | the final-ACK check and the state dispatch give exactly `DatagramStep` |
| SenderOne.Sender.OnEstablishedAck | sender.py:238-292 | the in-place EST branch gives exactly `EstablishedStep` |
| SenderOne.Sender.AckAtBase | sender.py:254-264 | clears the slot at `send_base`, advances it, restarts the timer and zeroes the count |
| SenderOne.Sender.DuplicateAck | sender.py:267-277 | counts a duplicate, and sends and resets at 3 |
| SenderOne.Sender.AckThrough | sender.py:280-292 | the in-place cumulative branch cancels the timer, clears `send_base` through `index`, moves `send_base` past `index` and restarts the timer |
| SenderOne.Sender.ClearThrough | sender.py:285-289 | the `while` loop and the clear after it empty exactly the slots from `send_base` through `index` and leave `send_base` at `index + 1` modulo the buffer length |
| SenderOne.Sender.SendSyn | sender.py:366-385 | gives exactly `SynStep` and keeps the window slide invariant |
| SenderOne.Sender.SendFin | sender.py:446-464 | gives exactly `FinStep` after the loss coin is drawn into `drop_fin`, and keeps the window slide invariant |
| SenderOne.Sender.OnTimeout | sender.py:312-363 | gives exactly `TimeoutStep` and keeps the window slide invariant |
| SenderOne.Sender.ResendSyn | sender.py:329-331 | resends the SYN, clears `drop_syn` and re-arms |
| SenderOne.Sender.ResendFin | sender.py:333-335 | calls `send_fin` with `drop_fin` still set, clears it and re-arms |
| SenderOne.Sender.FillSlot | sender.py:403-442 | gives exactly `FillStep` |
| SenderOne.Sender.SendData | sender.py:387-443 | the `for` loop gives exactly `SendDataStep` and keeps the window slide invariant |
| SenderTwo.EstablishedStep | sender/sender.py:64-86 | the EST handler keeps the index bounds and the modulus `int(max_win / 1000)` |
| SenderTwo.DatagramStep | sender/sender.py:32-48 | one ACK keeps the index bounds, the buffer length and the modulus |
| SenderTwo.TimeoutStep | sender/timer_handler.py:16-40 | a timeout never changes the slots or `send_base` |
| SenderTwo.FinalAckFirst | sender/sender.py:38-55 | the final-ACK test runs first, gives CLOSING and no timer, and no handler runs |
| SenderTwo.HandshakeAck | sender/sender.py:57-62 | on reverse loss it only records `recv_seqno` and stays in SYN_SENT; otherwise it gives EST |
| SenderTwo.Teardown | sender/sender.py:88-91 | FIN_WAIT gives FINISHED with `is_alive` false; states without a handler ignore the ACK |
| SenderTwo.ExactAck | sender/sender.py:71-75 | a match at `send_base` clears that slot, advances modulo `int(max_win / 1000)`, zeroes the count, and leaves a timer iff something is unacknowledged |
| SenderTwo.ThreeDuplicatesRetransmitOnce | sender/sender.py:76-86 | three duplicates emit exactly one DATA segment with the ACK seqno and the `send_base` payload; the window is unchanged |
| SenderTwo.OtherAckIgnored | sender/sender.py:71-79 | any other EST ACK, a later match included, changes nothing (no cumulative clearing) |
| SenderTwo.ReceiveOnlyClears | sender/sender.py:64-91 | the receive thread stores no segment and changes at most the slot at `send_base` |
| SenderTwo.TimeoutOrder | sender/timer_handler.py:16-40 | the priority is SYN, then `drop_fin` (cleared), then the head segment resent as stored; every case re-arms the timer and zeroes the count |
| SenderTwo.ActionsAppendOnly | sender/sender.py:81-86 | both threads only append to the action log, at most one entry per call |
| SenderTwo.Sender.constructor | sender/sender.py:11-16 | the given buffer and `max_win`, with the `Control` fields at their set-up values |
| SenderTwo.Sender.RestartTimer | sender/timer_handler.py:5-14 | afterwards the timer is armed iff `any(buffer)` |
| SenderTwo.Sender.OnDatagram | sender/sender.py:32-48 | the in-place dispatch gives exactly `DatagramStep` |
| SenderTwo.Sender.HandleFinalAck | sender/sender.py:50-55 | CLOSING and no timer |
| SenderTwo.Sender.HandleSynAck | sender/sender.py:57-62 | on reverse loss only `recv_seqno` changes; otherwise the state is EST |
| SenderTwo.Sender.HandleEstablishedAck | sender/sender.py:64-79 | gives exactly `EstablishedStep` |
| SenderTwo.Sender.HandleTripleDupAck | sender/sender.py:81-86 | emits the DATA segment and zeroes the count |
| SenderTwo.Sender.HandleFinAck | sender/sender.py:88-91 | `is_alive` false and FINISHED |
| SenderTwo.Sender.OnTimeout | sender/timer_handler.py:16-40 | gives exactly `TimeoutStep` |
| ReceiveWindow.RunLen | helper.py:111-127 | the occupied run from `b`: all of its slots are occupied, and the slot after it is empty unless the whole buffer is full |
| ReceiveWindow.Flush | helper.py:105-127 | the flush keeps the length, stops at a valid index, and returns a 16-bit expected seqno |
| ReceiveWindow.Visit | helper.py:125-127 | the walk position is always a valid slot |
| ReceiveWindow.FlushStopsAtEmpty | helper.py:113-115 | the returned index is an empty slot |
| ReceiveWindow.FlushNothing | helper.py:106-115 | if slot `(index + 1) % len` is empty, it returns `None`, that slot, and writes nothing |
| ReceiveWindow.FlushClearsRun | helper.py:109-127 | exactly the run from `(index + 1) % len` is cleared, every other slot is untouched, and the stop is right after the run |
| ReceiveWindow.FlushExpected | helper.py:120 | if something is flushed, the expected seqno is `(seqno + len(data)) % 2**16` of the last flushed slot |
| ReceiveWindow.FlushTwice | helper.py:105-127 | flushing again from just before the stop changes nothing |
| ReceiveWindow.FindExpectedSegno | helper.py:105-127 | the in-place `while` loop gives exactly `Flush`: buffer, return values and bytes written |
| ReceiveWindow.WindowSlots | helper.py:153 | `int(max_win / 1000)` truncates toward zero |
| ReceiveWindow.RemoveIfFull | helper.py:151-161 | if the first `c` slots are all occupied they are emptied and nothing else changes; otherwise the buffer is unchanged; IndexError iff `c` exceeds the length of a fully occupied buffer |
| ReceiveWindow.ClearFront | helper.py:158-160 | the first `c` slots are empty and the rest are unchanged |
| ReceiveWindow.RemoveIfFullIdempotent | helper.py:151-161 | a second call changes nothing |
| ReceiveWindow.RemoveAllIfFull | helper.py:151-161 | the in-place `for` loops give exactly `RemoveIfFull` |
| ArrayReceiver.SendAck | receiver.py:144-146 | an ACK for 0..65535 is appended; any other number fails in `to_bytes` and stops the receiver |
| ArrayReceiver.OutOfOrderSlot | receiver.py:122-125 | the slot index lies in 0..capacity-1 |
| ArrayReceiver.DistanceIsModular | receiver.py:122-123 | for 16-bit seqnos the distance lies in 0..65535 and equals `(seqno - expected) % 2**16` |
| ArrayReceiver.InOrder | receiver.py:133-146 | the in-order branch keeps the buffer length and a valid `expected_index` |
| ArrayReceiver.LoopStep | receiver.py:98-155 | one iteration keeps the buffer length and a valid `expected_index` |
| ArrayReceiver.Run | receiver.py:98-155 | the whole loop keeps the bounds, and the file and the ACK list only grow, with every ACK it sends a 16-bit number |
| ArrayReceiver.SynStep | receiver.py:106-113 | a SYN sets `expected_seqno := seqno + 1` without wrapping and ACKs it; at seqno 65535 the ACK fails |
| ArrayReceiver.OutOfOrderStep | receiver.py:121-132 | a segment is stored at the distance slot, the old ACK is repeated, and `expected_index` and the output are unchanged; before any SYN (expected -1) the ACK fails |
| ArrayReceiver.InOrderStep | receiver.py:133-146 | the output gains the payload and then the flushed run; `expected_index` is the empty stop slot; the new expected seqno is the flushed end or `(seqno + len) % 2**16`; it is ACKed and is 16-bit |
| ArrayReceiver.FinStep | receiver.py:148-155 | the FIN is ACKed with `seqno + 1` and the loop ends |
| ArrayReceiver.OtherDatagrams | receiver.py:102-118 | an undecodable datagram stops the receiver; an ACK segment is ignored |
| ArrayReceiver.BufferedSegmentInLastSlotIsLost | receiver.py:133-138 | a segment buffered in the last slot is wiped by the in-order segment before it |
| ArrayReceiver.RunAcksInRange | receiver.py:98-155 | if every ACK sent before the loop was 16-bit, every ACK sent by its end is too |
| ArrayReceiver.LoopStepAppends | receiver.py:134-146 | the same for one iteration |
| ArrayReceiver.InOrderAppends | receiver.py:133-146 | the in-order branch appends the payload and the flushed run to the file and one 16-bit ACK to the ACK list, or crashes |
| ArrayReceiver.RunStopsAtEnd | receiver.py:155 | nothing is processed after the loop ends |
| ArrayReceiver.Receiver.constructor | receiver.py:87-90 | `int(max_win / MSS)` empty slots, `expected_index = 0`, `expected_seqno = -1` |
| ArrayReceiver.Receiver.SendAck | receiver.py:131-132 | appends the ACK, or stops on a number out of range |
| ArrayReceiver.Receiver.OnDatagram | receiver.py:99-155 | one in-place iteration gives exactly `LoopStep` |
| ArrayReceiver.Receiver.OnInOrder | receiver.py:133-146 | the in-place in-order branch, calling `FindExpectedSegno`, gives exactly `InOrder` |
| ArrayReceiver.Receiver.FlushAfter | receiver.py:134-139 | writing the payload, emptying the last slot and calling `find_expected_segno` leave the array, `expected_index` and the file as `Flush` of the wiped buffer says |
| ArrayReceiver.Receiver.Receive | receiver.py:98-155 | the `while` loop gives exactly `Run` |
| ReorderBuffer.Drain | receiver/buffer.py:14-18 | the drain stops at an expected seqno that is not a key and never decreases it; it consumes nothing iff the expected seqno is absent |
| ReorderBuffer.DrainConsumes | receiver/buffer.py:14-18 | each round deletes one key, and the remaining entries are unchanged |
| ReorderBuffer.DrainAdvances | receiver/buffer.py:18 | the expected seqno grows by the step once per round |
| ReorderBuffer.DrainRemovesVisited | receiver/buffer.py:14-17 | only keys `expected + i * step` are deleted |
| ReorderBuffer.StaleOrDuplicateIgnored | receiver/buffer.py:9-10 | a buffered or stale seqno changes nothing and returns `expected_seqno` |
| ReorderBuffer.ProcessResult | receiver/buffer.py:8-20 | it returns the new `expected_seqno`, which is not a key and never below the old one; the output only grows |
| ReorderBuffer.OutOfOrderStored | receiver/buffer.py:12-14 | a fresh, later seqno is stored and nothing is written |
| ReorderBuffer.InOrderWritesRun | receiver/buffer.py:12-18 | the arriving payload is written first, then the run that follows it |
| ReorderBuffer.StepIsArrivingLength | receiver/buffer.py:18 | the step is the arriving segment's length: after "a" at 0 and "hello" at 1 the next expected seqno is 2 |
| ReorderBuffer.NeverFlushesFromStart | receiver/buffer.py:6-14 | from `expected_seqno = -1` and non-negative seqnos every call returns -1 and writes nothing |
| ReorderBuffer.ReceiverBuffer.constructor | receiver/buffer.py:2-6 | an empty map and `expected_seqno = -1` |
| ReorderBuffer.ReceiverBuffer.ProcessData | receiver/buffer.py:8-20 | the in-place method with its `while` loop gives exactly `Process`, and returns the same value |

## Left out

- Sockets, threads, the lock and real timers. Each lock-held handler is one atomic step, and interleavings are not modelled.
- Starting and cancelling a `threading.Timer` is one assignment to `timer`.
- The busy-wait driver loops of `__main__` in sender.py (467-563) are left out.
- `setup_socket`, sender/socket_handler.py and the `recv` error handling are left out.
- Randomness: each `is_to_be_dropped` outcome is a `bool` parameter.
- Logging, `print` and `print_buff`, and the wall-clock timestamps are left out.
- Command-line parsing (`parse_port`, `parse_run_time`, `parse_wait_time`) and the `sys.exit` paths are left out.
- File I/O: the input file is a byte sequence with a cursor, and the received file is an appended sequence. `write_to_file` (helper.py:130-141) is not called by the core and is not modelled.
- UTF-8 encoding and decoding of `str` payloads: payloads are bytes in the binary codecs and characters in the text codec. A decode error in receiver.py:135 is not modelled.
- `recv(BUF_SIZE)` truncation: the receiver sees the datagram as delivered.
- sender/main.py, receiver/main.py and receiver/receiver.py are wiring; their set-up values appear in the constructors.
- The sender receive threads' `SegmentType(segtype)` raises ValueError for an unknown tag. Here the first draft takes the tag as a `SegType` parameter, and the second draft handles only the ACK number.
- `SenderOne` and `ArrayReceiver` require `max_win >= 1000`. A smaller window makes an empty buffer, which the source then indexes with an IndexError or a division by zero; that path is not modelled.
- SenderTwo.Sender.constructor requires `int(max_win / 1000) <= len(buffer)`. With a larger modulus `send_base` can leave the buffer and the source raises IndexError; that path is not modelled.
- `send_syn`, `send_fin` and `control.sending_segtype` are used by sender/timer_handler.py but defined nowhere in the package. The calls are `Action` entries, and `sending_segtype` is an extra field.
- SenderTwo.TimeoutStep: the second draft's `timer_thread` resends before taking the lock; the model runs the resend and the re-arm as one step.
- `int(max_win / MSS)` goes through a float; rounding for windows above 2^53 is not modelled.
- The text codec's seqno is parsed as an optional sign followed by ASCII digits. `int()`'s acceptance of surrounding whitespace, underscores and non-ASCII digits is not modelled.
- The states LISTEN and TIME_WAIT are declared but never entered.
- SenderOne.SynStep and SenderOne.FillStep do not model the OverflowError `create_segment` raises for a seqno of 65536 or more (helper.py:78-94). From the constructor it cannot happen: the isn is 23, at most two SYNs add one each, and `FillStep` keeps `seqno` below 2^16.
- SenderTwo: the window slide invariant is not stated. This draft has no send loop (the buffer is handed to it), and `send_base` wraps at `int(max_win / 1000)`, not at the buffer length.
- receiver.py:114-116: the SYN branch's `continue` on a partial send has no effect on the state, because nothing else matches a SYN.

## Findings

| source | as written | input that shows it | evidently intended | confidence | as-written member | corrected member |
|---|---|---|---|---|---|---|
| sender.py:280-290 | In EST, an ACK that matches no buffered segment and is not a duplicate reaches `elif index != control.send_base` with `index == -1`. Then `while index != control.send_base` never ends, because `send_base` is always a slot index, and the thread spins holding the lock. | EST, buffer `[None, None]`, `send_base = 0`, ACK 7, `last_segment_seqno != 7` | an ACK that acknowledges nothing is ignored | not executed | SenderOne.UnmatchedAckNeverLeavesLoop | SenderOne.UnmatchedAckIgnored |
