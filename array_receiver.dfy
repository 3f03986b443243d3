/** The receiver of receiver.py: one datagram per iteration of its `while True` loop, decoded
    with the binary codec of helper.py, against a circular buffer of `int(max_win / MSS)`
    slots, the slot where the next in-order segment belongs (`expected_index`) and the
    sequence number it must carry (`expected_seqno`). */
module ArrayReceiver {
  import opened Common
  import opened Window
  import BinaryCodec
  import ReceiveWindow

  const MSS: int := 1000

  /** Still receiving, left the loop after a FIN, or stopped by an exception: a datagram that
      does not decode, or an ACK number that `to_bytes(2, "big")` cannot write. */
  datatype Phase = Running | Done | Crashed

  /** The buffer and the two cursors, the bytes appended to the received file and the ACK
      numbers sent back. */
  datatype ReceiverState = ReceiverState(
    slots: Slots,
    expectedIndex: int,
    expectedSeqno: int,
    output: seq<byte>,
    acks: seq<int>,
    phase: Phase)

  predicate Inv(st: ReceiverState)
  {
    |st.slots| > 0 && 0 <= st.expectedIndex < |st.slots|
  }

  /** `s.send(create_segment(SegmentType.ACK, n, ''))`: the ACK goes out, or, for a number
      outside 0..65535, `to_bytes` raises and the receiver stops. */
  function SendAck(st: ReceiverState, n: int): (r: ReceiverState)
    ensures 0 <= n < SeqModulus ==> r == st.(acks := st.acks + [n])
    ensures !(0 <= n < SeqModulus) ==> r == st.(phase := Crashed)
  {
    var a := BinaryCodec.Encode(Ack, n, []);
    if a.Success? then st.(acks := st.acks + [n]) else st.(phase := Crashed)
  }

  /** How far the arriving seqno lies past the expected one, taken into 0..65535 by adding
      2^16 to a negative difference. */
  function Distance(expectedSeqno: int, seqno: int): int
  {
    var diff := seqno - expectedSeqno;
    if diff < 0 then diff + 65536 else diff
  }

  /** The slot of an out-of-order segment: `(expected_index + diff_seqno // 1000) %
      int(max_win / MSS)`. */
  function OutOfOrderSlot(expectedIndex: int, expectedSeqno: int, seqno: int, n: int): (r: int)
    requires n > 0
    ensures 0 <= r < n
  {
    (expectedIndex + Distance(expectedSeqno, seqno) / MSS) % n
  }

  /** Between two sequence numbers the distance is their difference modulo 2^16. */
  lemma DistanceIsModular(expectedSeqno: int, seqno: int)
    requires 0 <= expectedSeqno < SeqModulus && 0 <= seqno < SeqModulus
    ensures 0 <= Distance(expectedSeqno, seqno) < SeqModulus
    ensures Distance(expectedSeqno, seqno) == (seqno - expectedSeqno) % SeqModulus
  {
  }

  /** An in-order DATA segment: its payload goes to the file, slot `index` (always -1, so the
      last slot) is emptied, the buffered run after `expected_index` is flushed, and the ACK
      carries the end of the last flushed segment, or of this one when nothing was flushed. */
  function InOrder(st: ReceiverState, seg: Segment): (r: ReceiverState)
    requires Inv(st)
    ensures Inv(r) && |r.slots| == |st.slots|
  {
    var wiped := st.slots[|st.slots| - 1 := None];
    var f := ReceiveWindow.Flush(wiped, st.expectedIndex);
    var expected := if f.expected.Some? then f.expected.value else Advance(seg.seqno, |seg.data|);
    SendAck(st.(slots := f.slots, expectedIndex := f.next, expectedSeqno := expected,
                output := st.output + seg.data + f.written), expected)
  }

  /** One iteration of the receive loop for the datagram `buf`. */
  function LoopStep(st: ReceiverState, buf: seq<byte>): (r: ReceiverState)
    requires Inv(st)
    ensures Inv(r) && |r.slots| == |st.slots|
  {
    match BinaryCodec.Decode(buf)
    case Failure(_) => st.(phase := Crashed)
    case Success(seg) =>
      if seg.segtype == Syn then
        SendAck(st.(expectedSeqno := seg.seqno + 1), seg.seqno + 1)
      else if seg.segtype == Data then
        if seg.seqno != st.expectedSeqno then
          var i := OutOfOrderSlot(st.expectedIndex, st.expectedSeqno, seg.seqno, |st.slots|);
          SendAck(st.(slots := st.slots[i := Some(seg)]), st.expectedSeqno)
        else
          InOrder(st, seg)
      else if seg.segtype == Fin then
        var a := SendAck(st, seg.seqno + 1);
        if a.phase == Crashed then a else a.(phase := Done)
      else
        st
  }

  /** The loop over the datagrams received, until a FIN or an exception ends it. The file
      and the ACK list only grow, and every ACK it sends is a 16-bit number. */
  function Run(st: ReceiverState, bufs: seq<seq<byte>>): (r: ReceiverState)
    requires Inv(st)
    ensures Inv(r) && |r.slots| == |st.slots|
    ensures Extends(st, r)
    decreases |bufs|
  {
    if bufs == [] || st.phase != Running then st
    else
      var s := LoopStep(st, bufs[0]);
      LoopStepAppends(st, bufs[0]);
      var r := Run(s, bufs[1..]);
      ExtendsTransitive(st, s, r);
      r
  }

  // ---------------------------------------------------------------------------------------
  // Properties of one iteration.

  /** A SYN sets `expected_seqno` to its seqno plus one, without wrapping, and acknowledges
      that number; for seqno 65535 the ACK cannot be written and the receiver stops. */
  lemma SynStep(st: ReceiverState, buf: seq<byte>)
    requires Inv(st)
    requires BinaryCodec.Decode(buf).Success? && BinaryCodec.Decode(buf).value.segtype == Syn
    ensures var s := BinaryCodec.Decode(buf).value.seqno; var r := LoopStep(st, buf);
      && r.expectedSeqno == s + 1 && r.slots == st.slots && r.output == st.output
      && (s < 65535 ==> r.acks == st.acks + [s + 1] && r.phase == st.phase)
      && (s == 65535 ==> r.phase == Crashed)
  {
  }

  /** An out-of-order DATA segment is stored at the slot its distance selects, the previous
      ACK is repeated (or, before any SYN, when `expected_seqno` is still -1, the receiver
      stops), and nothing else changes. */
  lemma OutOfOrderStep(st: ReceiverState, buf: seq<byte>)
    requires Inv(st)
    requires BinaryCodec.Decode(buf).Success? && BinaryCodec.Decode(buf).value.segtype == Data
    requires BinaryCodec.Decode(buf).value.seqno != st.expectedSeqno
    ensures var seg := BinaryCodec.Decode(buf).value; var r := LoopStep(st, buf);
      var i := OutOfOrderSlot(st.expectedIndex, st.expectedSeqno, seg.seqno, |st.slots|);
      && r.slots == st.slots[i := Some(Segment(seg.seqno, Data, buf[4..]))]
      && r.expectedIndex == st.expectedIndex && r.expectedSeqno == st.expectedSeqno
      && r.output == st.output
      && (0 <= st.expectedSeqno < SeqModulus ==> r.acks == st.acks + [st.expectedSeqno] && r.phase == st.phase)
      && (st.expectedSeqno == -1 ==> r.phase == Crashed)
  {
  }

  /** An in-order DATA segment: the file receives its payload and then, in order, the payloads
      of the run that follows `expected_index` (after the last slot has been emptied);
      `expected_index` moves to the empty slot where the flush stopped; the ACK carries the new
      `expected_seqno`, which is always a 16-bit number. */
  lemma {:induction false} InOrderStep(st: ReceiverState, buf: seq<byte>)
    requires Inv(st)
    requires BinaryCodec.Decode(buf).Success? && BinaryCodec.Decode(buf).value.segtype == Data
    requires BinaryCodec.Decode(buf).value.seqno == st.expectedSeqno
    ensures var r := LoopStep(st, buf);
      var f := ReceiveWindow.Flush(st.slots[|st.slots| - 1 := None], st.expectedIndex);
      && r.output == st.output + buf[4..] + f.written
      && r.slots == f.slots && r.expectedIndex == f.next && r.slots[r.expectedIndex].None?
      && 0 <= r.expectedSeqno < SeqModulus && r.acks == st.acks + [r.expectedSeqno]
      && r.phase == st.phase
      && (f.expected.None? ==> r.expectedSeqno == Advance(st.expectedSeqno, |buf| - 4))
      && (f.expected.Some? ==> r.expectedSeqno == f.expected.value)
  {
    var seg := BinaryCodec.Decode(buf).value;
    assert LoopStep(st, buf) == InOrder(st, seg);
    ReceiveWindow.FlushStopsAtEmpty(st.slots[|st.slots| - 1 := None], st.expectedIndex);
  }

  /** A FIN is acknowledged with its seqno plus one and ends the loop; for seqno 65535 the
      ACK cannot be written. */
  lemma FinStep(st: ReceiverState, buf: seq<byte>)
    requires Inv(st) && st.phase == Running
    requires BinaryCodec.Decode(buf).Success? && BinaryCodec.Decode(buf).value.segtype == Fin
    ensures var s := BinaryCodec.Decode(buf).value.seqno; var r := LoopStep(st, buf);
      && r.slots == st.slots && r.output == st.output && r.expectedSeqno == st.expectedSeqno
      && (s < 65535 ==> r.acks == st.acks + [s + 1] && r.phase == Done)
      && (s == 65535 ==> r.phase == Crashed)
  {
  }

  /** A datagram that does not decode stops the receiver and changes nothing else; an ACK
      segment is ignored. */
  lemma OtherDatagrams(st: ReceiverState, buf: seq<byte>)
    requires Inv(st)
    ensures BinaryCodec.Decode(buf).Failure? ==> LoopStep(st, buf) == st.(phase := Crashed)
    ensures BinaryCodec.Decode(buf).Success? && BinaryCodec.Decode(buf).value.segtype == Ack ==>
      LoopStep(st, buf) == st
  {
  }

  /** The wiped slot loses data: with two slots, a segment buffered in the last slot is
      discarded by the in-order segment that precedes it, and the ACK asks for it again. */
  lemma BufferedSegmentInLastSlotIsLost(early: Segment, data: seq<byte>)
    requires early.seqno == 1000 && early.segtype == Data && |data| == 1000
    ensures var st := ReceiverState([None, Some(early)], 0, 0, [], [], Running);
      var buf := BinaryCodec.Encode(Data, 0, data).value;
      var r := LoopStep(st, buf);
      && r.slots == [None, None] && r.output == data && r.expectedSeqno == 1000
      && r.acks == [1000] && r.expectedIndex == 1
  {
    var st := ReceiverState([None, Some(early)], 0, 0, [], [], Running);
    BinaryCodec.RoundTrip(Data, 0, data);
    var buf := BinaryCodec.Encode(Data, 0, data).value;
    assert buf[4..] == data;
    var seg := BinaryCodec.Decode(buf).value;
    assert seg == Segment(0, Data, data);
    var wiped := st.slots[1 := None];
    assert wiped == [None, None];
    ReceiveWindow.FlushNothing(wiped, 0);
    assert LoopStep(st, buf) == InOrder(st, seg);
  }

  // ---------------------------------------------------------------------------------------
  // Properties of the loop.

  /** When every ACK sent before the loop was a 16-bit number, so is every ACK sent by the
      end of it. */
  lemma RunAcksInRange(st: ReceiverState, bufs: seq<seq<byte>>)
    requires Inv(st) && AcksInRange(st)
    ensures AcksInRange(Run(st, bufs))
  {
    ExtendsKeepsRange(st, Run(st, bufs));
  }

  /** Every ACK sent so far is a 16-bit number. */
  predicate AcksInRange(st: ReceiverState)
  {
    forall j :: 0 <= j < |st.acks| ==> 0 <= st.acks[j] < SeqModulus
  }

  lemma ExtendsKeepsRange(a: ReceiverState, b: ReceiverState)
    requires AcksInRange(a) && Extends(a, b)
    ensures AcksInRange(b)
  {
    forall j | 0 <= j < |b.acks|
      ensures 0 <= b.acks[j] < SeqModulus
    {
      if j < |a.acks| {
        assert b.acks[j] == b.acks[..|a.acks|][j];
      }
    }
  }

  lemma ExtendsTransitive(a: ReceiverState, b: ReceiverState, c: ReceiverState)
    requires Extends(a, b) && Extends(b, c)
    ensures Extends(a, c)
  {
    assert c.output[..|a.output|] == c.output[..|b.output|][..|a.output|];
    assert c.acks[..|a.acks|] == c.acks[..|b.acks|][..|a.acks|];
    forall j | |a.acks| <= j < |c.acks|
      ensures 0 <= c.acks[j] < SeqModulus
    {
      if j < |b.acks| {
        assert c.acks[j] == c.acks[..|b.acks|][j];
      }
    }
  }

  /** `r` extends `st`: the file and the ACK list of `st` are prefixes of those of `r`, and
      every ACK added is a 16-bit number. */
  predicate Extends(st: ReceiverState, r: ReceiverState)
  {
    && |st.output| <= |r.output| && r.output[..|st.output|] == st.output
    && |st.acks| <= |r.acks| && r.acks[..|st.acks|] == st.acks
    && forall j :: |st.acks| <= j < |r.acks| ==> 0 <= r.acks[j] < SeqModulus
  }

  /** One iteration appends to the file and to the ACKs, and only 16-bit ACK numbers. */
  lemma LoopStepAppends(st: ReceiverState, buf: seq<byte>)
    requires Inv(st)
    ensures Extends(st, LoopStep(st, buf))
  {
    match BinaryCodec.Decode(buf)
    case Failure(_) =>
    case Success(seg) =>
      if seg.segtype == Data && seg.seqno == st.expectedSeqno {
        assert LoopStep(st, buf) == InOrder(st, seg);
        InOrderAppends(st, seg);
      }
  }

  /** The in-order branch appends the payload and the flushed bytes, and one 16-bit ACK. */
  lemma InOrderAppends(st: ReceiverState, seg: Segment)
    requires Inv(st)
    ensures Extends(st, InOrder(st, seg))
  {
    var f := ReceiveWindow.Flush(st.slots[|st.slots| - 1 := None], st.expectedIndex);
    assert (st.output + seg.data + f.written)[..|st.output|] == st.output;
  }

  /** Nothing is processed after the loop has ended. */
  lemma RunStopsAtEnd(st: ReceiverState, bufs: seq<seq<byte>>)
    requires Inv(st) && st.phase != Running
    ensures Run(st, bufs) == st
  {
  }

  // ---------------------------------------------------------------------------------------
  // The receiver, updated in place.

  class Receiver {
    /** `receive_buffer = [None] * int(max_win / MSS)`. */
    const slots: array<Option<Segment>>
    var expectedIndex: int
    var expectedSeqno: int
    var output: seq<byte>
    var acks: seq<int>
    var phase: Phase

    function View(): ReceiverState
      reads this, slots
    {
      ReceiverState(slots[..], expectedIndex, expectedSeqno, output, acks, phase)
    }

    predicate Valid()
      reads this, slots
    {
      Inv(View())
    }

    /** The set-up before the loop: an empty buffer, `expected_index = 0`,
        `expected_seqno = -1` and an empty received file. */
    constructor (maxWin: int)
      requires maxWin >= MSS
      ensures Valid() && fresh(slots) && slots.Length == maxWin / MSS
      ensures forall p :: 0 <= p < slots.Length ==> slots[p].None?
      ensures expectedIndex == 0 && expectedSeqno == -1 && output == [] && acks == [] && phase == Running
    {
      slots := new Option<Segment>[maxWin / MSS](_ => None);
      expectedIndex := 0;
      expectedSeqno := -1;
      output := [];
      acks := [];
      phase := Running;
    }

    /** `create_segment(SegmentType.ACK, n, '')` and `s.send(segment)`. */
    method SendAck(n: int)
      modifies this`acks, this`phase
      ensures 0 <= n < SeqModulus ==> acks == old(acks) + [n] && phase == old(phase)
      ensures !(0 <= n < SeqModulus) ==> acks == old(acks) && phase == Crashed
    {
      var a := BinaryCodec.Encode(Ack, n, []);
      if a.Failure? {
        phase := Crashed;
        return;
      }
      acks := acks + [n];
    }

    /** One iteration of the loop of `__main__` for the datagram `buf`. */
    method OnDatagram(buf: seq<byte>)
      requires Valid()
      modifies this, slots
      ensures Valid() && View() == LoopStep(old(View()), buf)
    {
      var d := BinaryCodec.Decode(buf);
      if d.Failure? {
        phase := Crashed;
        return;
      }
      var seg := d.value;
      if seg.segtype == Syn {
        expectedSeqno := seg.seqno + 1;
        SendAck(seg.seqno + 1);
      }
      if seg.segtype == Data {
        if seg.seqno != expectedSeqno {
          var i := OutOfOrderSlot(expectedIndex, expectedSeqno, seg.seqno, slots.Length);
          slots[i] := Some(seg);
          SendAck(expectedSeqno);
        } else {
          OnInOrder(seg);
        }
      }
      if seg.segtype == Fin {
        SendAck(seg.seqno + 1);
        if phase != Crashed {
          phase := Done;
        }
      }
    }

    /** The in-order branch: write the payload, empty slot `index`, flush, then acknowledge. */
    method OnInOrder(seg: Segment)
      requires Valid()
      modifies this, slots
      ensures Valid() && View() == InOrder(old(View()), seg)
    {
      ghost var v0 := View();
      var expected := FlushAfter(seg);
      ghost var f := ReceiveWindow.Flush(v0.slots[|v0.slots| - 1 := None], v0.expectedIndex);
      if expected.None? {
        expectedSeqno := Advance(seg.seqno, |seg.data|);
      } else {
        expectedSeqno := expected.value;
      }
      assert View() == v0.(slots := f.slots, expectedIndex := f.next, expectedSeqno := expectedSeqno,
                           output := v0.output + seg.data + f.written);
      SendAck(expectedSeqno);
    }

    /** The payload is written, the last slot is emptied and `find_expected_segno` flushes the
        run after `expected_index`. */
    method FlushAfter(seg: Segment) returns (expected: Option<int>)
      requires Valid()
      modifies slots, this`output, this`expectedIndex
      ensures var f := ReceiveWindow.Flush(old(slots[..])[slots.Length - 1 := None], old(expectedIndex));
        && slots[..] == f.slots && expectedIndex == f.next && expected == f.expected
        && output == old(output) + seg.data + f.written
    {
      output := output + seg.data;
      slots[slots.Length - 1] := None;
      var next, written;
      expected, next, written := ReceiveWindow.FindExpectedSegno(slots, expectedIndex);
      output := output + written;
      expectedIndex := next;
    }

    /** The `while True` loop over the datagrams `bufs`, left after a FIN or an exception. */
    method Receive(bufs: seq<seq<byte>>)
      requires Valid()
      modifies this, slots
      ensures Valid() && View() == Run(old(View()), bufs)
    {
      var j := 0;
      while j < |bufs| && phase == Running
        invariant 0 <= j <= |bufs| && Valid()
        invariant Run(View(), bufs[j..]) == Run(old(View()), bufs)
        decreases |bufs| - j
      {
        assert bufs[j..][1..] == bufs[j + 1..];
        OnDatagram(bufs[j]);
        j := j + 1;
      }
    }
  }
}
