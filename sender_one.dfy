/** The first sender draft, sender.py: a control block, the slot buffer and the module-level
    running `seqno`, changed by three threads under one lock. Each lock-held handler is one
    step here: a function from the old state to the new one (`...Step`), and a method of
    `Sender` that performs it in place and is proved to agree with it. */
module SenderOne {
  import opened Common
  import opened Window
  import BinaryCodec

  /** `MSS`: the largest payload one data segment carries. */
  const MSS: int := 1000

  /** `isn = 23`: the initial sequence number. */
  const ISN: int := 23

  /** Everything the handlers read or write: the buffer, the `Control` fields, the global
      `seqno`, the file position and the log of segments handed to `socket.send`. */
  datatype SenderState = SenderState(
    slots: Slots,
    sendBase: int,
    dupAckCount: int,
    timer: Timer,
    state: State,
    lastSegmentSeqno: int,
    dropSyn: bool,
    dropFin: bool,
    isAlive: bool,
    seqno: int,
    isn: int,
    cursor: int,
    fileClosed: bool,
    sent: seq<Segment>)

  /** The buffer has a slot, `send_base` indexes it and the duplicate counter is below the
      fast-retransmit threshold (it is reset on reaching 3). */
  predicate WindowInv(st: SenderState)
  {
    |st.slots| > 0 && 0 <= st.sendBase < |st.slots| && 0 <= st.dupAckCount < 3
  }

  /** `int.from_bytes(nread[:2], "big")` and `int.from_bytes(nread[2:4], "big")`: the type tag
      and ACK number read from however many bytes `recv(4)` returned. */
  function ParseAck(nread: seq<byte>): (r: (int, int))
    ensures 0 <= r.0 < 65536 && 0 <= r.1 < 65536
    ensures |nread| < 2 ==> r == (BinaryCodec.BigEndian(nread), 0)
    ensures |nread| >= 4 && BinaryCodec.Decode(nread).Success? ==>
      r == (TagValue(BinaryCodec.Decode(nread).value.segtype), BinaryCodec.Decode(nread).value.seqno)
  {
    var k := if |nread| < 2 then |nread| else 2;
    var m := if |nread| < 4 then |nread| else 4;
    BinaryCodec.BigEndianShort(nread[..k]);
    BinaryCodec.BigEndianShort(nread[k..m]);
    assert |nread| < 2 ==> nread[..k] == nread && nread[k..m] == [];
    (BinaryCodec.BigEndian(nread[..k]), BinaryCodec.BigEndian(nread[k..m]))
  }

  /** `control.sender_state = State.CLOSING` and the timer cancelled, when the ACK is the one
      that acknowledges the last data segment. */
  function CloseOnLastAck(st: SenderState, ack: int): SenderState
  {
    if st.lastSegmentSeqno == ack then st.(state := Closing, timer := Disarmed) else st
  }

  /** The EST branch of the receive thread, for an ACK that is not the final one. A match at
      `send_base` clears that slot; an ACK for `buffer[send_base].seqno` counts as a duplicate
      and every third one sends a copy of that slot's payload under the received tag; a match
      further on clears every slot from `send_base` through the match. An ACK that matches
      nothing and is no duplicate changes nothing. */
  function EstablishedStep(st: SenderState, tag: SegType, ack: int): (r: SenderState)
    requires WindowInv(st)
    ensures WindowInv(r) && |r.slots| == |st.slots|
    ensures r.state == st.state && r.seqno == st.seqno && r.lastSegmentSeqno == st.lastSegmentSeqno
  {
    var n := |st.slots|;
    var index := AckIndex(st.slots, ack);
    var base := st.slots[st.sendBase];
    if index == st.sendBase then
      var s := st.slots[index := None];
      st.(slots := s, sendBase := (st.sendBase + 1) % n, timer := Restarted(s), dupAckCount := 0)
    else if base.Some? && base.value.seqno == ack then
      if st.dupAckCount + 1 == 3 then
        st.(dupAckCount := 0, sent := st.sent + [Segment(ack, tag, base.value.data)])
      else
        st.(dupAckCount := st.dupAckCount + 1)
    else if index >= 0 then
      var s := ClearRun(st.slots, st.sendBase, Offset(index, st.sendBase, n) + 1);
      st.(slots := s, sendBase := (index + 1) % n, timer := Restarted(s))
    else
      st
  }

  /** One datagram through the receive thread: the final-ACK check, then the handler of the
      (possibly just changed) state. */
  function DatagramStep(st: SenderState, tag: SegType, ack: int): (r: SenderState)
    requires WindowInv(st)
    ensures WindowInv(r) && |r.slots| == |st.slots|
    ensures r.seqno == st.seqno && r.cursor == st.cursor && r.fileClosed == st.fileClosed
  {
    var c := CloseOnLastAck(st, ack);
    if c.state == SynSent then c.(state := Est)
    else if c.state == Est then EstablishedStep(c, tag, ack)
    else if c.state == FinWait then c.(isAlive := false, state := Finished)
    else c
  }

  /** `send_syn(control, is_first)`: enter SYN_SENT; the SYN is sent, and `seqno` bumped by one
      without wrapping, unless this is the first SYN and it is to be dropped. */
  function SynStep(st: SenderState, isFirst: bool): (r: SenderState)
    ensures r.state == SynSent && r.slots == st.slots && r.timer == st.timer
    ensures isFirst && st.dropSyn ==> r.sent == st.sent && r.seqno == st.seqno
    ensures !(isFirst && st.dropSyn) ==>
      r.sent == st.sent + [Segment(st.seqno, Syn, [])] && r.seqno == st.seqno + 1
  {
    if isFirst && st.dropSyn then st.(state := SynSent)
    else st.(state := SynSent, sent := st.sent + [Segment(st.seqno, Syn, [])], seqno := st.seqno + 1)
  }

  /** `send_fin(control)`: a FIN to be dropped only cancels the timer; otherwise the FIN goes
      out at the current `seqno` and the sender waits in FIN_WAIT. */
  function FinStep(st: SenderState): (r: SenderState)
    ensures r.slots == st.slots && r.sendBase == st.sendBase && r.seqno == st.seqno
    ensures st.dropFin ==> r.sent == st.sent && r.timer == Disarmed && r.state == st.state
    ensures !st.dropFin ==>
      r.sent == st.sent + [Segment(st.seqno, Fin, [])] && r.state == FinWait && r.timer == st.timer
  {
    if st.dropFin then st.(timer := Disarmed)
    else st.(sent := st.sent + [Segment(st.seqno, Fin, [])], state := FinWait)
  }

  /** A fresh timer and the duplicate counter reset: the tail of `timer_thread`. */
  function Rearm(st: SenderState): SenderState
  {
    st.(timer := Armed, dupAckCount := 0)
  }

  /** `timer_thread`, run when the armed timer fires: resend a dropped SYN, else "resend" a
      dropped FIN, else resend the segment at `send_base`; each of these re-arms the timer.
      With nothing to resend the fired timer stays where it is. */
  function TimeoutStep(st: SenderState): (r: SenderState)
    requires WindowInv(st) && st.timer == Armed
    ensures WindowInv(r) && r.slots == st.slots && r.sendBase == st.sendBase
    ensures r.timer == Armed || r == st.(timer := Expired)
  {
    var fired := st.(timer := Expired);
    var head := st.slots[st.sendBase];
    if st.dropSyn then Rearm(SynStep(fired, false).(dropSyn := false))
    else if st.dropFin then Rearm(FinStep(fired).(dropFin := false))
    else if head.Some? then Rearm(fired.(sent := fired.sent + [head.value]))
    else fired
  }

  /** The bytes `file.read(MSS)` returns at the cursor. */
  function Chunk(input: seq<byte>, cursor: int): (c: seq<byte>)
    requires 0 <= cursor <= |input|
    ensures |c| <= MSS && cursor + |c| <= |input|
    ensures c == input[cursor..cursor + |c|]
    ensures |c| < MSS ==> cursor + |c| == |input|
  {
    input[cursor..if cursor + MSS < |input| then cursor + MSS else |input|]
  }

  /** The body of `send_data`'s loop for an empty slot `i`: read a chunk, start a timer if
      there is none, store the DATA segment, note the end of file, send unless the loss coin
      says drop, and advance `seqno` modulo 2^16. */
  function FillStep(st: SenderState, input: seq<byte>, i: int, drop: bool): (r: SenderState)
    requires WindowInv(st) && 0 <= st.cursor <= |input| && 0 <= i < |st.slots|
    ensures WindowInv(r) && |r.slots| == |st.slots| && r.sendBase == st.sendBase
    ensures st.cursor <= r.cursor <= |input| && r.cursor - st.cursor <= MSS
    ensures r.slots == st.slots[i := Some(Segment(st.seqno, Data, input[st.cursor..r.cursor]))]
    ensures r.seqno == Advance(st.seqno, r.cursor - st.cursor)
    ensures r.fileClosed <==> r.cursor == |input|
    ensures r.fileClosed ==> r.lastSegmentSeqno == r.seqno
    ensures r.sent == if drop then st.sent else st.sent + [r.slots[i].value]
  {
    var chunk := Chunk(input, st.cursor);
    var seg := Segment(st.seqno, Data, chunk);
    var next := st.cursor + |chunk|;
    var eof := next == |input|;
    assert input[st.cursor..next] == chunk;
    st.(slots := st.slots[i := Some(seg)],
        timer := StartIfNone(st.timer),
        cursor := next,
        lastSegmentSeqno := if eof then Advance(st.seqno, |chunk|) else st.lastSegmentSeqno,
        fileClosed := eof,
        sent := SendUnlessDropped(st.sent, seg, drop),
        isn := IsnAfter(st.isn, st.seqno, |chunk|),
        seqno := Advance(st.seqno, |chunk|))
  }

  /** `if not control.timer:` start one. */
  function StartIfNone(t: Timer): Timer
  {
    if Truthy(t) then t else Armed
  }

  /** The segment goes to the socket unless the loss coin drops it. */
  function SendUnlessDropped(sent: seq<Segment>, seg: Segment, drop: bool): seq<Segment>
  {
    if drop then sent else sent + [seg]
  }

  /** `control.isn` moves down by 2^16 whenever `seqno` wraps. */
  function IsnAfter(isn: int, seqno: int, len: int): int
  {
    if seqno + len > 65535 then isn - 65536 else isn
  }

  /** The remaining iterations `j..times` of `send_data`'s loop, at slot `i`. */
  function Pump(st: SenderState, input: seq<byte>, i: int, j: int, times: int, drops: seq<bool>): (r: SenderState)
    requires WindowInv(st) && 0 <= st.cursor <= |input| && 0 <= i < |st.slots|
    requires 0 <= j <= times && |drops| == times
    ensures WindowInv(r) && |r.slots| == |st.slots| && r.sendBase == st.sendBase
    ensures st.cursor <= r.cursor <= |input|
    decreases times - j
  {
    if j == times || st.fileClosed then st
    else
      var next := if st.slots[i].None? then FillStep(st, input, i, drops[j]) else st;
      Pump(next, input, (i + 1) % |st.slots|, j + 1, times, drops)
  }

  /** `send_data(flp, control, num_times_to_send, file, buffer)`: nothing once the file is
      closed; otherwise `num_times_to_send` iterations from `send_base`, stopping at end of
      file. `drops[j]` is the loss coin of iteration `j`. */
  function SendDataStep(st: SenderState, input: seq<byte>, times: nat, drops: seq<bool>): (r: SenderState)
    requires WindowInv(st) && 0 <= st.cursor <= |input| && |drops| == times
    ensures WindowInv(r) && |r.slots| == |st.slots| && r.sendBase == st.sendBase
    ensures st.cursor <= r.cursor <= |input|
  {
    if st.fileClosed then st else Pump(st, input, st.sendBase, 0, times, drops)
  }

  // ---------------------------------------------------------------------------------------
  // The cumulative branch as written, and what it does.

  /** sender.py's cumulative branch exactly as written: `while index != send_base` clears and
      advances, then one more slot is cleared. `fuel` bounds the iterations; `None` means the
      loop has not finished within them. */
  function CumulativeAsWritten(s: Slots, base: int, index: int, fuel: nat): (r: Option<(Slots, int)>)
    requires 0 <= base < |s|
    ensures r.Some? ==> |r.value.0| == |s|
    decreases fuel
  {
    if index == base then Some((s[base := None], (base + 1) % |s|))
    else if fuel == 0 then None
    else CumulativeAsWritten(s[base := None], (base + 1) % |s|, index, fuel - 1)
  }

  /** With `index == -1`, no number of iterations ends the loop: `send_base` stays a valid
      slot index and never equals -1. */
  lemma {:induction false} UnmatchedAckNeverLeavesLoop(s: Slots, base: int, fuel: nat)
    requires 0 <= base < |s|
    ensures CumulativeAsWritten(s, base, -1, fuel) == None
    decreases fuel
  {
    if fuel > 0 {
      UnmatchedAckNeverLeavesLoop(s[base := None], (base + 1) % |s|, fuel - 1);
    }
  }

  /** A concrete datagram that hangs the receive thread: in EST with an empty two-slot buffer,
      an ACK that is not the final one matches nothing, is no duplicate, and takes the
      cumulative branch with `index == -1`. */
  lemma EmptyWindowAckHangs(st: SenderState, tag: SegType, fuel: nat)
    requires st.slots == [None, None] && st.sendBase == 0 && st.state == Est && st.lastSegmentSeqno != 7
    ensures AckIndex(st.slots, 7) == -1 && AckIndex(st.slots, 7) != st.sendBase
    ensures st.slots[st.sendBase].None?
    ensures CumulativeAsWritten(st.slots, st.sendBase, AckIndex(st.slots, 7), fuel) == None
  {
    UnmatchedAckNeverLeavesLoop(st.slots, st.sendBase, fuel);
  }

  /** After `k` iterations from `b0` the as-written loop sits at the slot `k` steps further
      on, with those `k` slots cleared. */
  lemma {:induction false} CumulativeFrom(s0: Slots, b0: int, index: int, k: int, p: int, fuel: nat)
    requires 0 <= b0 < |s0| && 0 <= index < |s0| && 0 <= p < |s0|
    requires 0 <= k <= Offset(index, b0, |s0|) && Offset(p, b0, |s0|) == k
    requires fuel >= Offset(index, b0, |s0|) - k
    ensures CumulativeAsWritten(ClearRun(s0, b0, k), p, index, fuel)
         == Some((ClearRun(s0, b0, Offset(index, b0, |s0|) + 1), (index + 1) % |s0|))
    decreases Offset(index, b0, |s0|) - k
  {
    var n := |s0|;
    ClearRunStep(s0, b0, k, p);
    if k < Offset(index, b0, n) {
      NextSlot(p, n);
      CumulativeFrom(s0, b0, index, k + 1, (p + 1) % n, fuel - 1);
    }
  }

  /** For a real match the as-written loop ends and clears exactly the slots from `send_base`
      through the match, as the corrected branch does. */
  lemma MatchedAckLeavesLoop(s: Slots, base: int, index: int, fuel: nat)
    requires 0 <= base < |s| && 0 <= index < |s| && fuel >= Offset(index, base, |s|)
    ensures CumulativeAsWritten(s, base, index, fuel)
         == Some((ClearRun(s, base, Offset(index, base, |s|) + 1), (index + 1) % |s|))
  {
    ClearRunNone(s, base);
    CumulativeFrom(s, base, index, 0, base, fuel);
  }

  // ---------------------------------------------------------------------------------------
  // Properties of the receive thread.

  /** The ACK of the last data segment closes: CLOSING, no timer, and the window, the
      duplicate counter and the send log stay as they were (no handler matches CLOSING). */
  lemma FinalAckCloses(st: SenderState, tag: SegType, ack: int)
    requires WindowInv(st) && st.lastSegmentSeqno == ack
    ensures var r := DatagramStep(st, tag, ack);
      r.state == Closing && r.timer == Disarmed && r.slots == st.slots && r.sendBase == st.sendBase
      && r.dupAckCount == st.dupAckCount && r.sent == st.sent && r.isAlive == st.isAlive
  {
  }

  /** Handshake and teardown: in SYN_SENT any datagram establishes the connection; in
      FIN_WAIT any datagram finishes it and stops the threads. */
  lemma HandshakeAndTeardown(st: SenderState, tag: SegType, ack: int)
    requires WindowInv(st) && st.lastSegmentSeqno != ack
    ensures st.state == SynSent ==> DatagramStep(st, tag, ack) == st.(state := Est)
    ensures st.state == FinWait ==> DatagramStep(st, tag, ack) == st.(isAlive := false, state := Finished)
    ensures st.state !in {SynSent, Est, FinWait} ==> DatagramStep(st, tag, ack) == st
  {
  }

  /** An ACK for the segment at `send_base` clears exactly that slot, moves `send_base` on by
      one, resets the duplicate count and leaves a timer running iff something is still
      unacknowledged. */
  lemma ExactAck(st: SenderState, tag: SegType, ack: int)
    requires WindowInv(st) && st.state == Est && st.lastSegmentSeqno != ack
    requires Acks(st.slots[st.sendBase], ack)
    requires forall j :: 0 <= j < st.sendBase ==> !Acks(st.slots[j], ack)
    ensures var r := DatagramStep(st, tag, ack);
      && r.slots == st.slots[st.sendBase := None]
      && r.sendBase == (st.sendBase + 1) % |st.slots|
      && r.dupAckCount == 0 && r.sent == st.sent
      && (r.timer == Armed <==> AnyOccupied(r.slots))
  {
  }

  /** Three duplicate ACKs in a row, starting from a zero count, send exactly one segment:
      the received seqno and tag over the payload at `send_base`. The window is unchanged. */
  lemma {:induction false} ThreeDuplicatesRetransmitOnce(st: SenderState, tag: SegType, ack: int)
    requires WindowInv(st) && st.state == Est && st.lastSegmentSeqno != ack && st.dupAckCount == 0
    requires AckIndex(st.slots, ack) != st.sendBase
    requires st.slots[st.sendBase].Some? && st.slots[st.sendBase].value.seqno == ack
    ensures var r1 := DatagramStep(st, tag, ack);
      var r2 := DatagramStep(r1, tag, ack);
      var r3 := DatagramStep(r2, tag, ack);
      && r1.sent == st.sent && r2.sent == st.sent
      && r3.sent == st.sent + [Segment(ack, tag, st.slots[st.sendBase].value.data)]
      && r3.dupAckCount == 0 && r3.slots == st.slots && r3.sendBase == st.sendBase
  {
    var r1 := DatagramStep(st, tag, ack);
    assert r1 == st.(dupAckCount := 1);
    var r2 := DatagramStep(r1, tag, ack);
    assert r2 == st.(dupAckCount := 2);
  }

  /** An ACK that matches a segment other than the one at `send_base`, and is no duplicate,
      clears the slots from `send_base` through the match and puts `send_base` right after
      it; every other slot keeps its segment. */
  lemma CumulativeAck(st: SenderState, tag: SegType, ack: int)
    requires WindowInv(st) && st.state == Est && st.lastSegmentSeqno != ack
    requires var i := AckIndex(st.slots, ack); i >= 0 && i != st.sendBase
    requires !(st.slots[st.sendBase].Some? && st.slots[st.sendBase].value.seqno == ack)
    ensures var n := |st.slots|; var i := AckIndex(st.slots, ack); var r := DatagramStep(st, tag, ack);
      && r.sendBase == (i + 1) % n
      && r.slots[i].None?
      && (forall p :: 0 <= p < n ==>
            r.slots[p] == (if Offset(p, st.sendBase, n) <= Offset(i, st.sendBase, n) then None else st.slots[p]))
      && r.dupAckCount == st.dupAckCount && r.sent == st.sent
      && (r.timer == Armed <==> AnyOccupied(r.slots))
  {
    assert DatagramStep(st, tag, ack) == EstablishedStep(st, tag, ack);
    EstablishedCumulative(st, tag, ack);
  }

  /** `CumulativeAck` for the EST handler alone. */
  lemma EstablishedCumulative(st: SenderState, tag: SegType, ack: int)
    requires WindowInv(st)
    requires var i := AckIndex(st.slots, ack); i >= 0 && i != st.sendBase
    requires !(st.slots[st.sendBase].Some? && st.slots[st.sendBase].value.seqno == ack)
    ensures var n := |st.slots|; var i := AckIndex(st.slots, ack); var r := EstablishedStep(st, tag, ack);
      && r.sendBase == (i + 1) % n
      && r.slots[i].None?
      && (forall p :: 0 <= p < n ==>
            r.slots[p] == (if Offset(p, st.sendBase, n) <= Offset(i, st.sendBase, n) then None else st.slots[p]))
      && r.dupAckCount == st.dupAckCount && r.sent == st.sent
      && (r.timer == Armed <==> AnyOccupied(r.slots))
  {
    var n := |st.slots|;
    var i := AckIndex(st.slots, ack);
    var k := Offset(i, st.sendBase, n) + 1;
    var s := ClearRun(st.slots, st.sendBase, k);
    assert EstablishedStep(st, tag, ack) == st.(slots := s, sendBase := (i + 1) % n, timer := Restarted(s));
    ClearRunAt(st.slots, st.sendBase, k);
  }

  /** An ACK that matches no segment and is no duplicate is ignored (the branch the source
      would enter with `index == -1` is not taken). */
  lemma UnmatchedAckIgnored(st: SenderState, tag: SegType, ack: int)
    requires WindowInv(st) && st.state == Est && st.lastSegmentSeqno != ack
    requires forall j :: 0 <= j < |st.slots| ==> !Acks(st.slots[j], ack)
    requires !(st.slots[st.sendBase].Some? && st.slots[st.sendBase].value.seqno == ack)
    ensures DatagramStep(st, tag, ack) == st
  {
  }

  // ---------------------------------------------------------------------------------------
  // Properties of the timer thread.

  /** The fire order of `timer_thread`, and that only a resend re-arms the timer and zeroes
      the duplicate counter. */
  lemma TimeoutOrder(st: SenderState)
    requires WindowInv(st) && st.timer == Armed
    ensures var r := TimeoutStep(st);
      && (st.dropSyn ==>
            r.sent == st.sent + [Segment(st.seqno, Syn, [])] && !r.dropSyn && r.seqno == st.seqno + 1
            && r.state == SynSent && r.timer == Armed && r.dupAckCount == 0)
      && (!st.dropSyn && st.dropFin ==>
            r.sent == st.sent && !r.dropFin && r.state == st.state && r.timer == Armed && r.dupAckCount == 0)
      && (!st.dropSyn && !st.dropFin && st.slots[st.sendBase].Some? ==>
            r.sent == st.sent + [st.slots[st.sendBase].value] && r.timer == Armed && r.dupAckCount == 0)
      && (!st.dropSyn && !st.dropFin && st.slots[st.sendBase].None? ==> r == st.(timer := Expired))
  {
  }

  // ---------------------------------------------------------------------------------------
  // Properties of the send loop.

  /** Every occupied slot holds a DATA segment of at most MSS bytes. */
  predicate DataChunks(s: Slots)
  {
    forall p :: 0 <= p < |s| && s[p].Some? ==> s[p].value.segtype == Data && |s[p].value.data| <= MSS
  }

  /** The send loop never overwrites an occupied slot. */
  lemma {:induction false} PumpKeepsOccupied(st: SenderState, input: seq<byte>, i: int, j: int, times: int, drops: seq<bool>)
    requires WindowInv(st) && 0 <= st.cursor <= |input| && 0 <= i < |st.slots|
    requires 0 <= j <= times && |drops| == times
    ensures var r := Pump(st, input, i, j, times, drops);
      forall p :: 0 <= p < |st.slots| && st.slots[p].Some? ==> r.slots[p] == st.slots[p]
    decreases times - j
  {
    if j < times && !st.fileClosed {
      var next := if st.slots[i].None? then FillStep(st, input, i, drops[j]) else st;
      PumpKeepsOccupied(next, input, (i + 1) % |st.slots|, j + 1, times, drops);
    }
  }

  /** Every segment the send loop stores is a DATA segment of at most MSS bytes. */
  lemma {:induction false} PumpStoresChunks(st: SenderState, input: seq<byte>, i: int, j: int, times: int, drops: seq<bool>)
    requires WindowInv(st) && 0 <= st.cursor <= |input| && 0 <= i < |st.slots|
    requires 0 <= j <= times && |drops| == times && DataChunks(st.slots)
    ensures DataChunks(Pump(st, input, i, j, times, drops).slots)
    decreases times - j
  {
    if j < times && !st.fileClosed {
      var next := if st.slots[i].None? then FillStep(st, input, i, drops[j]) else st;
      assert DataChunks(next.slots);
      PumpStoresChunks(next, input, (i + 1) % |st.slots|, j + 1, times, drops);
    }
  }

  /** The send loop moves `seqno` on by exactly the number of bytes it read, modulo 2^16. */
  lemma {:induction false} PumpSeqnoFollowsCursor(st: SenderState, input: seq<byte>, i: int, j: int, times: int, drops: seq<bool>)
    requires WindowInv(st) && 0 <= st.cursor <= |input| && 0 <= i < |st.slots|
    requires 0 <= j <= times && |drops| == times && 0 <= st.seqno < SeqModulus
    ensures var r := Pump(st, input, i, j, times, drops);
      r.seqno == Advance(st.seqno, r.cursor - st.cursor)
    decreases times - j
  {
    if j < times && !st.fileClosed {
      var next := if st.slots[i].None? then FillStep(st, input, i, drops[j]) else st;
      PumpSeqnoFollowsCursor(next, input, (i + 1) % |st.slots|, j + 1, times, drops);
      var r := Pump(next, input, (i + 1) % |st.slots|, j + 1, times, drops);
      AdvanceTwice(st.seqno, next.cursor - st.cursor, r.cursor - next.cursor);
    }
  }

  /** Reaching the end of the file records the seqno after the last segment as
      `last_segment_seqno` and leaves the cursor at the end. */
  lemma {:induction false} PumpEndOfFile(st: SenderState, input: seq<byte>, i: int, j: int, times: int, drops: seq<bool>)
    requires WindowInv(st) && 0 <= st.cursor <= |input| && 0 <= i < |st.slots|
    requires 0 <= j <= times && |drops| == times && !st.fileClosed
    ensures var r := Pump(st, input, i, j, times, drops);
      r.fileClosed ==> r.cursor == |input| && r.lastSegmentSeqno == r.seqno
    decreases times - j
  {
    if j < times {
      var next := if st.slots[i].None? then FillStep(st, input, i, drops[j]) else st;
      if !next.fileClosed {
        PumpEndOfFile(next, input, (i + 1) % |st.slots|, j + 1, times, drops);
      }
    }
  }

  /** The state with the send log forgotten. */
  function Unlogged(st: SenderState): SenderState
  {
    st.(sent := [])
  }

  /** The loss coins decide only what reaches the socket: with any two coin sequences the
      send loop leaves the same buffer, cursor, seqno and control fields. */
  lemma {:induction false} DropsOnlyAffectLog(st1: SenderState, st2: SenderState, input: seq<byte>, i: int, j: int,
                                              times: int, d1: seq<bool>, d2: seq<bool>)
    requires Unlogged(st1) == Unlogged(st2)
    requires WindowInv(st1) && 0 <= st1.cursor <= |input| && 0 <= i < |st1.slots|
    requires 0 <= j <= times && |d1| == times && |d2| == times
    ensures Unlogged(Pump(st1, input, i, j, times, d1)) == Unlogged(Pump(st2, input, i, j, times, d2))
    decreases times - j
  {
    assert st1.slots == st2.slots && st1.cursor == st2.cursor && st1.fileClosed == st2.fileClosed;
    if j < times && !st1.fileClosed {
      var n1 := if st1.slots[i].None? then FillStep(st1, input, i, d1[j]) else st1;
      var n2 := if st2.slots[i].None? then FillStep(st2, input, i, d2[j]) else st2;
      DropsOnlyAffectLog(n1, n2, input, (i + 1) % |st1.slots|, j + 1, times, d1, d2);
    }
  }

  /** A timer that fired with nothing to resend is still truthy, so the send loop starts no
      new timer for the segments it stores afterwards. */
  lemma {:induction false} ExpiredTimerStaysExpired(st: SenderState, input: seq<byte>, i: int, j: int, times: int, drops: seq<bool>)
    requires WindowInv(st) && 0 <= st.cursor <= |input| && 0 <= i < |st.slots|
    requires 0 <= j <= times && |drops| == times && st.timer == Expired
    ensures Pump(st, input, i, j, times, drops).timer == Expired
    decreases times - j
  {
    if j < times && !st.fileClosed {
      var next := if st.slots[i].None? then FillStep(st, input, i, drops[j]) else st;
      ExpiredTimerStaysExpired(next, input, (i + 1) % |st.slots|, j + 1, times, drops);
    }
  }

  /** Advancing by `a` and then by `b` is advancing by `a + b`. */
  lemma AdvanceTwice(s: int, a: int, b: int)
    ensures Advance(Advance(s, a), b) == Advance(s, a + b)
  {
    var x := s + a;
    var q := x / SeqModulus;
    assert Advance(s, a) == x - q * SeqModulus;
    assert (x - q * SeqModulus + b) % SeqModulus == (x + b) % SeqModulus;
  }

  // ---------------------------------------------------------------------------------------
  // The window slide invariant: occupied slots form one circular run from `send_base`.

  /** The EST handler keeps the run contiguous: an exact ACK empties the head of the run, a
      cumulative ACK empties the run up to an occupied (hence in-run) match, and `send_base`
      moves to the first slot not emptied. */
  lemma EstablishedKeepsContiguous(st: SenderState, tag: SegType, ack: int)
    requires WindowInv(st) && Contiguous(st.slots, st.sendBase)
    ensures var r := EstablishedStep(st, tag, ack); Contiguous(r.slots, r.sendBase)
  {
    var n := |st.slots|;
    var b := st.sendBase;
    var index := AckIndex(st.slots, ack);
    if index == b {
      ExactAckWindow(st, tag, ack);
    } else if index >= 0 && !(st.slots[b].Some? && st.slots[b].value.seqno == ack) {
      CumulativeAckWindow(st, tag, ack);
    } else {
      OtherAckWindow(st, tag, ack);
    }
  }

  /** The window an exact ACK leaves. */
  lemma ExactAckWindow(st: SenderState, tag: SegType, ack: int)
    requires WindowInv(st) && AckIndex(st.slots, ack) == st.sendBase
    ensures var r := EstablishedStep(st, tag, ack);
      r.slots == st.slots[st.sendBase := None] && r.sendBase == (st.sendBase + 1) % |st.slots|
    ensures Contiguous(st.slots, st.sendBase) ==>
      var r := EstablishedStep(st, tag, ack); Contiguous(r.slots, r.sendBase)
  {
    if Contiguous(st.slots, st.sendBase) {
      HeadCleared(st.slots, st.sendBase);
    }
  }

  /** The window a cumulative ACK leaves. */
  lemma CumulativeAckWindow(st: SenderState, tag: SegType, ack: int)
    requires WindowInv(st)
    requires var i := AckIndex(st.slots, ack); i >= 0 && i != st.sendBase
    requires !(st.slots[st.sendBase].Some? && st.slots[st.sendBase].value.seqno == ack)
    ensures var r := EstablishedStep(st, tag, ack); var i := AckIndex(st.slots, ack);
      r.slots == ClearRun(st.slots, st.sendBase, Offset(i, st.sendBase, |st.slots|) + 1)
      && r.sendBase == (i + 1) % |st.slots|
    ensures Contiguous(st.slots, st.sendBase) ==>
      var r := EstablishedStep(st, tag, ack); Contiguous(r.slots, r.sendBase)
  {
    if Contiguous(st.slots, st.sendBase) {
      ClearedThrough(st.slots, st.sendBase, AckIndex(st.slots, ack));
    }
  }

  /** A duplicate or unmatched ACK leaves the window alone. */
  lemma OtherAckWindow(st: SenderState, tag: SegType, ack: int)
    requires WindowInv(st)
    requires var i := AckIndex(st.slots, ack);
      i != st.sendBase && (i < 0 || (st.slots[st.sendBase].Some? && st.slots[st.sendBase].value.seqno == ack))
    ensures var r := EstablishedStep(st, tag, ack); r.slots == st.slots && r.sendBase == st.sendBase
  {
  }

  /** Emptying the occupied slot at the head of the run leaves a run from the next slot. */
  lemma HeadCleared(s: Slots, b: int)
    requires Contiguous(s, b) && s[b].Some?
    ensures Contiguous(s[b := None], (b + 1) % |s|)
  {
    var k :| 0 <= k <= |s| && OccupiedRun(s, b, k);
    assert ClearRun(s, b, 1) == s[b := None];
    ClearFrontOfRun(s, b, k, 1);
    NextSlot(b, |s|);
    assert OccupiedRun(s[b := None], (b + 1) % |s|, k - 1);
  }

  /** Emptying the run up to an occupied slot `index` leaves a run from the slot after it. */
  lemma ClearedThrough(s: Slots, b: int, index: int)
    requires Contiguous(s, b) && 0 <= index < |s| && s[index].Some?
    ensures Contiguous(ClearRun(s, b, Offset(index, b, |s|) + 1), (index + 1) % |s|)
  {
    var k :| 0 <= k <= |s| && OccupiedRun(s, b, k);
    var m := Offset(index, b, |s|) + 1;
    ClearFrontOfRun(s, b, k, m);
    NextSlot(index, |s|);
    assert Ahead(b, m, |s|) == (index + 1) % |s|;
    assert OccupiedRun(ClearRun(s, b, m), (index + 1) % |s|, k - m);
  }

  /** The receive thread keeps the run contiguous. */
  lemma DatagramKeepsContiguous(st: SenderState, tag: SegType, ack: int)
    requires WindowInv(st) && Contiguous(st.slots, st.sendBase)
    ensures var r := DatagramStep(st, tag, ack); Contiguous(r.slots, r.sendBase)
  {
    var c := CloseOnLastAck(st, ack);
    if c.state == Est {
      EstablishedKeepsContiguous(c, tag, ack);
    }
  }

  /** `send_syn`, `send_fin` and the timer thread leave the slots and `send_base` alone, so
      they keep the run contiguous too. */
  lemma ControlStepsKeepContiguous(st: SenderState, isFirst: bool)
    requires WindowInv(st) && Contiguous(st.slots, st.sendBase)
    ensures var r := SynStep(st, isFirst); Contiguous(r.slots, r.sendBase)
    ensures var r := FinStep(st); Contiguous(r.slots, r.sendBase)
    ensures st.timer == Armed ==> var r := TimeoutStep(st); Contiguous(r.slots, r.sendBase)
  {
  }

  /** The send loop walks from `send_base` and fills only the slot just past the run of `k`
      (the slots of the run are skipped), so the run stays contiguous. `i` is either inside
      the run or just past it, unless the whole buffer is the run. */
  lemma {:induction false} PumpKeepsContiguous(st: SenderState, input: seq<byte>, i: int, j: int, times: int,
                                               drops: seq<bool>, k: int)
    requires WindowInv(st) && 0 <= st.cursor <= |input| && 0 <= i < |st.slots|
    requires 0 <= j <= times && |drops| == times
    requires OccupiedRun(st.slots, st.sendBase, k)
    requires k == |st.slots| || Offset(i, st.sendBase, |st.slots|) <= k
    ensures var r := Pump(st, input, i, j, times, drops); Contiguous(r.slots, r.sendBase)
    decreases times - j
  {
    var n := |st.slots|;
    var b := st.sendBase;
    if j == times || st.fileClosed {
      assert OccupiedRun(st.slots, b, k);
    } else {
      NextSlot(i, n);
      if st.slots[i].None? {
        var next := FillStep(st, input, i, drops[j]);
        FillAfterRun(st.slots, b, k, i, Segment(st.seqno, Data, input[st.cursor..next.cursor]));
        PumpKeepsContiguous(next, input, (i + 1) % n, j + 1, times, drops, k + 1);
      } else {
        PumpKeepsContiguous(st, input, (i + 1) % n, j + 1, times, drops, k);
      }
    }
  }

  /** `send_data` keeps the run contiguous. */
  lemma SendDataKeepsContiguous(st: SenderState, input: seq<byte>, times: nat, drops: seq<bool>)
    requires WindowInv(st) && 0 <= st.cursor <= |input| && |drops| == times
    requires Contiguous(st.slots, st.sendBase)
    ensures var r := SendDataStep(st, input, times, drops); Contiguous(r.slots, r.sendBase)
  {
    if !st.fileClosed {
      var k :| 0 <= k <= |st.slots| && OccupiedRun(st.slots, st.sendBase, k);
      PumpKeepsContiguous(st, input, st.sendBase, 0, times, drops, k);
    }
  }

  // ---------------------------------------------------------------------------------------
  // The sender, updated in place.

  class Sender {
    /** The file being sent, read through `cursor`. */
    const input: seq<byte>
    /** `buffer = [None] * int(max_win / MSS)`. */
    const slots: array<Option<Segment>>
    var sendBase: int
    var dupAckCount: int
    var timer: Timer
    var state: State
    var lastSegmentSeqno: int
    var dropSyn: bool
    var dropFin: bool
    var isAlive: bool
    var seqno: int
    var isn: int
    var cursor: int
    var fileClosed: bool
    var sent: seq<Segment>

    function View(): SenderState
      reads this, slots
    {
      SenderState(slots[..], sendBase, dupAckCount, timer, state, lastSegmentSeqno, dropSyn, dropFin,
                  isAlive, seqno, isn, cursor, fileClosed, sent)
    }

    predicate Valid()
      reads this, slots
    {
      WindowInv(View()) && 0 <= cursor <= |input|
    }

    /** The set-up in `__main__`: an empty buffer of `int(max_win / MSS)` slots, `seqno` and
        `isn` at 23, no final seqno yet, and the first timer started. */
    constructor (file: seq<byte>, maxWin: int, dropFirstSyn: bool)
      requires maxWin >= MSS
      ensures Valid() && fresh(slots) && input == file
      ensures slots.Length == maxWin / MSS && forall p :: 0 <= p < slots.Length ==> slots[p].None?
      ensures sendBase == 0 && dupAckCount == 0 && timer == Armed && state == Closed
      ensures lastSegmentSeqno == -1 && dropSyn == dropFirstSyn && !dropFin && isAlive
      ensures seqno == ISN && isn == ISN && cursor == 0 && !fileClosed && sent == []
      ensures Contiguous(slots[..], sendBase)
    {
      input := file;
      slots := new Option<Segment>[maxWin / MSS](_ => None);
      sendBase := 0;
      dupAckCount := 0;
      timer := Armed;
      state := Closed;
      lastSegmentSeqno := -1;
      dropSyn := dropFirstSyn;
      dropFin := false;
      isAlive := true;
      seqno := ISN;
      isn := ISN;
      cursor := 0;
      fileClosed := false;
      sent := [];
      new;
      EmptyIsContiguous(slots[..], 0);
    }

    /** `restart_timer(control, buffer, rto)`: the old timer is cancelled and a new one is
        started iff something is unacknowledged. */
    method RestartTimer()
      modifies this`timer
      ensures timer == Restarted(slots[..])
    {
      var pending := HasUnacked(slots);
      if pending {
        timer := Armed;
      } else {
        timer := Disarmed;
      }
    }

    /** The lock-held body of `recv_thread` for one datagram with type tag `tag` and ACK
        number `ack`; it keeps the window slide invariant. */
    method OnDatagram(tag: SegType, ack: int)
      requires Valid()
      modifies this, slots
      ensures Valid()
      ensures View() == DatagramStep(old(View()), tag, ack)
      ensures Contiguous(old(slots[..]), old(sendBase)) ==> Contiguous(slots[..], sendBase)
    {
      ghost var v0 := View();
      HandleDatagram(tag, ack);
      if Contiguous(v0.slots, v0.sendBase) {
        DatagramKeepsContiguous(v0, tag, ack);
      }
    }

    /** The final-ACK check, then the handler of the current state. */
    method HandleDatagram(tag: SegType, ack: int)
      requires Valid()
      modifies this, slots
      ensures Valid()
      ensures View() == DatagramStep(old(View()), tag, ack)
    {
      if lastSegmentSeqno == ack {
        state := Closing;
        timer := Disarmed;
      }
      if state == SynSent {
        state := Est;
      } else if state == Est {
        OnEstablishedAck(tag, ack);
      } else if state == FinWait {
        isAlive := false;
        state := Finished;
      }
    }

    /** The EST branch of `recv_thread`. */
    method OnEstablishedAck(tag: SegType, ack: int)
      requires Valid()
      modifies this, slots
      ensures Valid()
      ensures View() == EstablishedStep(old(View()), tag, ack)
    {
      var index := FindAckIndex(slots, ack);
      if index == sendBase {
        AckAtBase();
      } else if slots[sendBase].Some? && slots[sendBase].value.seqno == ack {
        DuplicateAck(tag, ack);
      } else if index >= 0 {
        AckThrough(index);
      }
    }

    /** The ACK acknowledges the segment at `send_base`. */
    method AckAtBase()
      requires Valid()
      modifies slots, this`sendBase, this`timer, this`dupAckCount
      ensures Valid()
      ensures var s := old(slots[..])[old(sendBase) := None];
        View() == old(View()).(slots := s, sendBase := (old(sendBase) + 1) % slots.Length,
                              timer := Restarted(s), dupAckCount := 0)
    {
      slots[sendBase] := None;
      sendBase := (sendBase + 1) % slots.Length;
      RestartTimer();
      dupAckCount := 0;
    }

    /** The ACK repeats the seqno of the segment at `send_base`. */
    method DuplicateAck(tag: SegType, ack: int)
      requires Valid() && slots[sendBase].Some?
      modifies this`dupAckCount, this`sent
      ensures Valid()
      ensures View() == if old(dupAckCount) + 1 == 3
        then old(View()).(dupAckCount := 0, sent := old(sent) + [Segment(ack, tag, old(slots[sendBase]).value.data)])
        else old(View()).(dupAckCount := old(dupAckCount) + 1)
    {
      dupAckCount := dupAckCount + 1;
      if dupAckCount == 3 {
        sent := sent + [Segment(ack, tag, slots[sendBase].value.data)];
        dupAckCount := 0;
      }
    }

    /** The cumulative branch for a match at `index`: clear from `send_base` through `index`. */
    method AckThrough(index: int)
      requires Valid() && 0 <= index < slots.Length
      modifies slots, this`sendBase, this`timer
      ensures Valid()
      ensures var s := ClearRun(old(slots[..]), old(sendBase), Offset(index, old(sendBase), slots.Length) + 1);
        View() == old(View()).(slots := s, sendBase := (index + 1) % slots.Length, timer := Restarted(s))
    {
      timer := Disarmed;
      ClearThrough(index);
      RestartTimer();
    }

    /** The `while index != self.send_base` loop and the clear after it: every slot from
        `send_base` through `index` is emptied and `send_base` ends just past `index`. */
    method ClearThrough(index: int)
      requires 0 <= sendBase < slots.Length && 0 <= index < slots.Length
      modifies slots, this`sendBase
      ensures slots[..] == ClearRun(old(slots[..]), old(sendBase), Offset(index, old(sendBase), slots.Length) + 1)
      ensures sendBase == (index + 1) % slots.Length
    {
      var n := slots.Length;
      ghost var s0 := slots[..];
      ghost var b0 := sendBase;
      ghost var k := 0;
      while index != sendBase
        invariant 0 <= sendBase < n && 0 <= k <= Offset(index, b0, n)
        invariant Offset(sendBase, b0, n) == k
        invariant slots[..] == ClearRun(s0, b0, k)
        decreases Offset(index, b0, n) - k
      {
        ClearRunStep(s0, b0, k, sendBase);
        slots[sendBase] := None;
        NextSlot(sendBase, n);
        sendBase := (sendBase + 1) % n;
        k := k + 1;
      }
      ClearRunStep(s0, b0, k, sendBase);
      slots[sendBase] := None;
      sendBase := (sendBase + 1) % n;
    }

    /** `send_syn(control, is_first)`. */
    method SendSyn(isFirst: bool)
      requires Valid()
      modifies this`state, this`sent, this`seqno
      ensures Valid() && View() == SynStep(old(View()), isFirst)
      ensures Contiguous(old(slots[..]), old(sendBase)) ==> Contiguous(slots[..], sendBase)
    {
      state := SynSent;
      if !(isFirst && dropSyn) {
        sent := sent + [Segment(seqno, Syn, [])];
        seqno := seqno + 1;
      }
    }

    /** One round of the closing loop in `__main__`: draw the loss coin into `drop_fin`, then
        `send_fin(control)`. */
    method SendFin(drop: bool)
      requires Valid()
      modifies this`dropFin, this`timer, this`sent, this`state
      ensures Valid() && View() == FinStep(old(View()).(dropFin := drop))
      ensures Contiguous(old(slots[..]), old(sendBase)) ==> Contiguous(slots[..], sendBase)
    {
      dropFin := drop;
      if dropFin {
        timer := Disarmed;
      } else {
        sent := sent + [Segment(seqno, Fin, [])];
        state := FinWait;
      }
    }

    /** `timer_thread(control, buffer, rto)`, run when the armed timer fires. */
    method OnTimeout()
      requires Valid() && timer == Armed
      modifies this
      ensures Valid() && View() == TimeoutStep(old(View()))
      ensures Contiguous(old(slots[..]), old(sendBase)) ==> Contiguous(slots[..], sendBase)
    {
      timer := Expired;
      if dropSyn {
        ResendSyn();
      } else if dropFin {
        ResendFin();
      } else if slots[sendBase].Some? {
        sent := sent + [slots[sendBase].value];
        timer, dupAckCount := Armed, 0;
      }
    }

    /** The first branch of `timer_thread`: the dropped SYN goes out again. */
    method ResendSyn()
      requires Valid()
      modifies this
      ensures Valid() && View() == Rearm(SynStep(old(View()), false).(dropSyn := false))
    {
      SendSyn(false);
      dropSyn := false;
      timer, dupAckCount := Armed, 0;
    }

    /** The second branch of `timer_thread`: `send_fin` with `drop_fin` still set. */
    method ResendFin()
      requires Valid() && dropFin
      modifies this
      ensures Valid() && View() == Rearm(FinStep(old(View())).(dropFin := false))
    {
      SendFin(true);
      dropFin := false;
      timer, dupAckCount := Armed, 0;
    }

    /** The body of `send_data`'s loop for the empty slot `i`. */
    method FillSlot(i: int, drop: bool)
      requires Valid() && 0 <= i < slots.Length
      modifies slots, this`timer, this`cursor, this`lastSegmentSeqno, this`fileClosed, this`sent, this`isn, this`seqno
      ensures Valid()
      ensures View() == FillStep(old(View()), input, i, drop)
    {
      var chunk := Chunk(input, cursor);
      var seg := Segment(seqno, Data, chunk);
      var next := cursor + |chunk|;
      var eof := next == |input|;
      slots[i] := Some(seg);
      timer, cursor, fileClosed := StartIfNone(timer), next, eof;
      if eof {
        lastSegmentSeqno := Advance(seqno, |chunk|);
      }
      sent, isn, seqno := SendUnlessDropped(sent, seg, drop), IsnAfter(isn, seqno, |chunk|), Advance(seqno, |chunk|);
    }

    /** `send_data(flp, control, num_times_to_send, file, buffer)`; `drops[j]` is the loss coin
        drawn in iteration `j`. */
    method SendData(times: nat, drops: seq<bool>)
      requires Valid() && |drops| == times
      modifies this, slots
      ensures Valid() && View() == SendDataStep(old(View()), input, times, drops)
      ensures Contiguous(old(slots[..]), old(sendBase)) ==> Contiguous(slots[..], sendBase)
    {
      ghost var v0 := View();
      if Contiguous(v0.slots, v0.sendBase) {
        SendDataKeepsContiguous(v0, input, times, drops);
      }
      if fileClosed {
        return;
      }
      var i := sendBase;
      var j := 0;
      while j < times && !fileClosed
        invariant Valid() && 0 <= i < slots.Length && 0 <= j <= times
        invariant Pump(View(), input, i, j, times, drops) == SendDataStep(old(View()), input, times, drops)
        decreases times - j
      {
        if slots[i].None? {
          FillSlot(i, drops[j]);
        }
        i := (i + 1) % slots.Length;
        j := j + 1;
      }
    }
  }
}
