/** The second sender draft: the `Sender` class of sender/sender.py (the receive thread's
    dispatch and its handlers) and sender/timer_handler.py (`restart_timer`, `timer_thread`).
    Unlike the first draft it never clears more than one slot per ACK, it may ignore the
    handshake ACK on a reverse-loss coin, it sends fast retransmits as DATA, and its timer
    thread re-arms unconditionally. */
module SenderTwo {
  import opened Common
  import opened Window

  /** What the handlers hand to the outside world: a segment to `control.socket.send`, or a
      call of `send_syn(control, False)` / `send_fin(control)`, which this draft imports but
      whose effect lies outside it. */
  datatype Action = Transmit(seg: Segment) | InvokeSendSyn | InvokeSendFin

  /** The buffer, `int(max_win / 1000)` (the modulus of `send_base`), the `Control` fields the
      handlers touch and the log of actions. `sendingSegType` stands for
      `control.sending_segtype`, which the timer thread reads. */
  datatype SenderState = SenderState(
    slots: Slots,
    sendBase: int,
    slotsMod: int,
    dupAckCount: int,
    timer: Timer,
    state: State,
    lastSegmentSeqno: int,
    recvSeqno: int,
    dropFin: bool,
    sendingSegType: SegType,
    isAlive: bool,
    actions: seq<Action>)

  /** `send_base` counts modulo `int(max_win / 1000)`, which must not exceed the buffer's
      length; the duplicate counter is reset on reaching 3. */
  predicate WindowInv(st: SenderState)
  {
    1 <= st.slotsMod <= |st.slots| && 0 <= st.sendBase < st.slotsMod && 0 <= st.dupAckCount < 3
  }

  /** `_handle_final_ack`: CLOSING, and the timer cancelled and set to `None`. */
  function FinalAck(st: SenderState): SenderState
  {
    st.(state := Closing, timer := Disarmed)
  }

  /** `_handle_syn_ack`: when the reverse-loss coin drops the ACK only `recv_seqno` is noted;
      otherwise the connection is established. */
  function SynAck(st: SenderState, ack: int, reverseLoss: bool): SenderState
  {
    if reverseLoss then st.(recvSeqno := ack) else st.(state := Est)
  }

  /** `_handle_established_ack` (with `_handle_triple_dup_ack`): a match at `send_base` clears
      that slot, advances `send_base` modulo `int(max_win / 1000)`, restarts the timer and
      zeroes the counter; an ACK for `buffer[send_base].seqno` is a duplicate, and the third
      sends a DATA segment with that seqno and the slot's payload; anything else is ignored. */
  function EstablishedStep(st: SenderState, ack: int): (r: SenderState)
    requires WindowInv(st)
    ensures WindowInv(r) && |r.slots| == |st.slots| && r.slotsMod == st.slotsMod
  {
    var index := AckIndex(st.slots, ack);
    var base := st.slots[st.sendBase];
    if index == st.sendBase && st.slots[index].Some? then
      var s := st.slots[index := None];
      st.(slots := s, sendBase := (st.sendBase + 1) % st.slotsMod, timer := Restarted(s), dupAckCount := 0)
    else if base.Some? && base.value.seqno == ack then
      if st.dupAckCount + 1 == 3 then
        st.(dupAckCount := 0, actions := st.actions + [Transmit(Segment(ack, Data, base.value.data))])
      else
        st.(dupAckCount := st.dupAckCount + 1)
    else
      st
  }

  /** `_handle_fin_ack`: stop the threads and finish. */
  function FinAck(st: SenderState): SenderState
  {
    st.(isAlive := false, state := Finished)
  }

  /** The lock-held part of `_recv_thread` for one ACK number: the final-ACK test first, then
      the handler of the current state. */
  function DatagramStep(st: SenderState, ack: int, reverseLoss: bool): (r: SenderState)
    requires WindowInv(st)
    ensures WindowInv(r) && |r.slots| == |st.slots| && r.slotsMod == st.slotsMod
  {
    if st.lastSegmentSeqno == ack then FinalAck(st)
    else if st.state == SynSent then SynAck(st, ack, reverseLoss)
    else if st.state == Est then EstablishedStep(st, ack)
    else if st.state == FinWait then FinAck(st)
    else st
  }

  /** What `timer_thread` does before it takes the lock: a SYN resend while the SYN is the
      segment being sent, else a FIN resend (clearing `drop_fin`), else the segment at
      `send_base` sent again as it is stored, else nothing. */
  function Resend(st: SenderState): (r: SenderState)
    requires WindowInv(st)
  {
    var head := st.slots[st.sendBase];
    if st.sendingSegType == Syn then st.(actions := st.actions + [InvokeSendSyn])
    else if st.dropFin then st.(actions := st.actions + [InvokeSendFin], dropFin := false)
    else if head.Some? then st.(actions := st.actions + [Transmit(head.value)])
    else st
  }

  /** `timer_thread`, run when the timer fires: the resend, then in every case a new timer and
      the duplicate counter zeroed. */
  function TimeoutStep(st: SenderState): (r: SenderState)
    requires WindowInv(st)
    ensures WindowInv(r) && r.slots == st.slots && r.sendBase == st.sendBase && r.slotsMod == st.slotsMod
  {
    Resend(st).(timer := Armed, dupAckCount := 0)
  }

  // ---------------------------------------------------------------------------------------
  // Properties of the receive thread.

  /** The final-ACK test comes first: whatever the state, the ACK of the last segment only
      closes and cancels the timer; no handler runs. */
  lemma FinalAckFirst(st: SenderState, ack: int, reverseLoss: bool)
    requires WindowInv(st) && st.lastSegmentSeqno == ack
    ensures var r := DatagramStep(st, ack, reverseLoss);
      && r.state == Closing && r.timer == Disarmed
      && r.slots == st.slots && r.sendBase == st.sendBase && r.dupAckCount == st.dupAckCount
      && r.recvSeqno == st.recvSeqno && r.isAlive == st.isAlive && r.actions == st.actions
  {
  }

  /** The handshake ACK: a reverse loss only records the ACK number and stays in SYN_SENT;
      otherwise the state becomes EST and nothing else changes. */
  lemma HandshakeAck(st: SenderState, ack: int, reverseLoss: bool)
    requires WindowInv(st) && st.state == SynSent && st.lastSegmentSeqno != ack
    ensures reverseLoss ==> DatagramStep(st, ack, reverseLoss) == st.(recvSeqno := ack)
    ensures !reverseLoss ==> DatagramStep(st, ack, reverseLoss) == st.(state := Est)
  {
  }

  /** Teardown: in FIN_WAIT any ACK but the final one finishes and stops the threads; in a
      state with no handler the ACK changes nothing. */
  lemma Teardown(st: SenderState, ack: int, reverseLoss: bool)
    requires WindowInv(st) && st.lastSegmentSeqno != ack
    ensures st.state == FinWait ==> DatagramStep(st, ack, reverseLoss) == st.(isAlive := false, state := Finished)
    ensures st.state !in {SynSent, Est, FinWait} ==> DatagramStep(st, ack, reverseLoss) == st
  {
  }

  /** An ACK for the segment at `send_base` clears exactly that slot, moves `send_base` on
      modulo `int(max_win / 1000)`, zeroes the counter, and leaves a timer iff something is
      still unacknowledged. */
  lemma ExactAck(st: SenderState, ack: int, reverseLoss: bool)
    requires WindowInv(st) && st.state == Est && st.lastSegmentSeqno != ack
    requires Acks(st.slots[st.sendBase], ack)
    requires forall j :: 0 <= j < st.sendBase ==> !Acks(st.slots[j], ack)
    ensures var r := DatagramStep(st, ack, reverseLoss);
      && r.slots == st.slots[st.sendBase := None]
      && r.sendBase == (st.sendBase + 1) % st.slotsMod
      && r.dupAckCount == 0 && r.actions == st.actions && r.state == Est
      && (r.timer == Armed <==> AnyOccupied(r.slots))
  {
  }

  /** Three duplicate ACKs in a row from a zero count emit exactly one segment, a DATA segment
      with the ACK number as seqno and the payload at `send_base`; the window stays as it was. */
  lemma {:induction false} ThreeDuplicatesRetransmitOnce(st: SenderState, ack: int, reverseLoss: bool)
    requires WindowInv(st) && st.state == Est && st.lastSegmentSeqno != ack && st.dupAckCount == 0
    requires AckIndex(st.slots, ack) != st.sendBase
    requires st.slots[st.sendBase].Some? && st.slots[st.sendBase].value.seqno == ack
    ensures var r1 := DatagramStep(st, ack, reverseLoss);
      var r2 := DatagramStep(r1, ack, reverseLoss);
      var r3 := DatagramStep(r2, ack, reverseLoss);
      && r1.actions == st.actions && r2.actions == st.actions
      && r3.actions == st.actions + [Transmit(Segment(ack, Data, st.slots[st.sendBase].value.data))]
      && r3.dupAckCount == 0 && r3.slots == st.slots && r3.sendBase == st.sendBase
  {
    var r1 := DatagramStep(st, ack, reverseLoss);
    assert r1 == st.(dupAckCount := 1);
    var r2 := DatagramStep(r1, ack, reverseLoss);
    assert r2 == st.(dupAckCount := 2);
  }

  /** No cumulative clearing: an ACK that is not for the segment at `send_base` and is no
      duplicate is ignored, even when it acknowledges a later slot. */
  lemma OtherAckIgnored(st: SenderState, ack: int, reverseLoss: bool)
    requires WindowInv(st) && st.state == Est && st.lastSegmentSeqno != ack
    requires AckIndex(st.slots, ack) != st.sendBase
    requires !(st.slots[st.sendBase].Some? && st.slots[st.sendBase].value.seqno == ack)
    ensures DatagramStep(st, ack, reverseLoss) == st
  {
  }

  /** The receive thread never stores a segment: every slot it leaves occupied held that very
      segment before, and at most one slot changes. */
  lemma ReceiveOnlyClears(st: SenderState, ack: int, reverseLoss: bool)
    requires WindowInv(st)
    ensures var r := DatagramStep(st, ack, reverseLoss);
      forall p :: 0 <= p < |st.slots| && r.slots[p].Some? ==> r.slots[p] == st.slots[p]
    ensures var r := DatagramStep(st, ack, reverseLoss);
      r.slots == st.slots || r.slots == st.slots[st.sendBase := None]
  {
  }

  // ---------------------------------------------------------------------------------------
  // Properties of the timer thread.

  /** The fire order of `timer_thread`, and that every case, the one with nothing to resend
      included, re-arms the timer and zeroes the counter without touching the window. */
  lemma TimeoutOrder(st: SenderState)
    requires WindowInv(st)
    ensures var r := TimeoutStep(st);
      && r.timer == Armed && r.dupAckCount == 0 && r.slots == st.slots && r.sendBase == st.sendBase
      && r.state == st.state && r.isAlive == st.isAlive
      && (st.sendingSegType == Syn ==> r.actions == st.actions + [InvokeSendSyn] && r.dropFin == st.dropFin)
      && (st.sendingSegType != Syn && st.dropFin ==> r.actions == st.actions + [InvokeSendFin] && !r.dropFin)
      && (st.sendingSegType != Syn && !st.dropFin && st.slots[st.sendBase].Some? ==>
            r.actions == st.actions + [Transmit(st.slots[st.sendBase].value)])
      && (st.sendingSegType != Syn && !st.dropFin && st.slots[st.sendBase].None? ==> r.actions == st.actions)
  {
  }

  /** Both threads only ever append to the action log. */
  lemma ActionsAppendOnly(st: SenderState, ack: int, reverseLoss: bool)
    requires WindowInv(st)
    ensures var r := DatagramStep(st, ack, reverseLoss);
      |r.actions| <= |st.actions| + 1 && r.actions[..|st.actions|] == st.actions
    ensures var r := TimeoutStep(st);
      |r.actions| <= |st.actions| + 1 && r.actions[..|st.actions|] == st.actions
  {
  }

  // ---------------------------------------------------------------------------------------
  // The sender, updated in place.

  class Sender {
    /** `self.buffer`. */
    const slots: array<Option<Segment>>
    /** `int(self.max_win / 1000)`. */
    const slotsMod: int
    var sendBase: int
    var dupAckCount: int
    var timer: Timer
    var state: State
    var lastSegmentSeqno: int
    var recvSeqno: int
    var dropFin: bool
    var sendingSegType: SegType
    var isAlive: bool
    var actions: seq<Action>

    function View(): SenderState
      reads this, slots
    {
      SenderState(slots[..], sendBase, slotsMod, dupAckCount, timer, state, lastSegmentSeqno, recvSeqno,
                  dropFin, sendingSegType, isAlive, actions)
    }

    predicate Valid()
      reads this, slots
    {
      WindowInv(View())
    }

    /** The set-up of sender/main.py: the given buffer, `max_win`, and a `Control` with no
        timer, `last_segment_seqno` and `recv_seqno` 0, and the dataclass defaults. */
    constructor (buffer: seq<Option<Segment>>, maxWin: int, segtype: SegType)
      requires 1000 <= maxWin && maxWin / 1000 <= |buffer|
      ensures Valid() && fresh(slots) && slots[..] == buffer && slotsMod == maxWin / 1000
      ensures sendBase == 0 && dupAckCount == 0 && timer == Disarmed && state == Closed
      ensures lastSegmentSeqno == 0 && recvSeqno == 0 && !dropFin && sendingSegType == segtype
      ensures isAlive && actions == []
    {
      slots := new Option<Segment>[|buffer|](p requires 0 <= p < |buffer| => buffer[p]);
      slotsMod := maxWin / 1000;
      sendBase := 0;
      dupAckCount := 0;
      timer := Disarmed;
      state := Closed;
      lastSegmentSeqno := 0;
      recvSeqno := 0;
      dropFin := false;
      sendingSegType := segtype;
      isAlive := true;
      actions := [];
    }

    /** `restart_timer(control, buffer, rto)` of sender/timer_handler.py. */
    method RestartTimer()
      modifies this`timer
      ensures timer == Restarted(slots[..])
    {
      var pending := HasUnacked(slots);
      if pending {
        timer := Armed;
      } else {
        timer := Disarmed;
      }
    }

    /** The lock-held body of `_recv_thread` for the ACK number `ack`; `reverseLoss` is the coin
        `_handle_syn_ack` draws. */
    method OnDatagram(ack: int, reverseLoss: bool)
      requires Valid()
      modifies this, slots
      ensures Valid() && View() == DatagramStep(old(View()), ack, reverseLoss)
    {
      if lastSegmentSeqno == ack {
        HandleFinalAck();
      } else if state == SynSent {
        HandleSynAck(ack, reverseLoss);
      } else if state == Est {
        HandleEstablishedAck(ack);
      } else if state == FinWait {
        HandleFinAck();
      }
    }

    /** `_handle_final_ack`. */
    method HandleFinalAck()
      modifies this`state, this`timer
      ensures state == Closing && timer == Disarmed
    {
      state := Closing;
      timer := Disarmed;
    }

    /** `_handle_syn_ack(recv_seqno)`. */
    method HandleSynAck(ack: int, reverseLoss: bool)
      modifies this`recvSeqno, this`state
      ensures reverseLoss ==> recvSeqno == ack && state == old(state)
      ensures !reverseLoss ==> recvSeqno == old(recvSeqno) && state == Est
    {
      if reverseLoss {
        recvSeqno := ack;
        return;
      }
      state := Est;
    }

    /** `_handle_established_ack(recv_seqno)`. */
    method HandleEstablishedAck(ack: int)
      requires Valid()
      modifies slots, this`sendBase, this`timer, this`dupAckCount, this`actions
      ensures Valid() && View() == EstablishedStep(old(View()), ack)
    {
      var index := FindAckIndex(slots, ack);
      if index == sendBase && slots[index].Some? {
        slots[index] := None;
        sendBase := (sendBase + 1) % slotsMod;
        RestartTimer();
        dupAckCount := 0;
      } else if slots[sendBase].Some? && slots[sendBase].value.seqno == ack {
        dupAckCount := dupAckCount + 1;
        if dupAckCount == 3 {
          HandleTripleDupAck(ack);
        }
      }
    }

    /** `_handle_triple_dup_ack(recv_seqno)`: a DATA segment with the ACK number and the
        payload at `send_base`, then the counter reset. */
    method HandleTripleDupAck(ack: int)
      requires 0 <= sendBase < slots.Length && slots[sendBase].Some?
      modifies this`actions, this`dupAckCount
      ensures actions == old(actions) + [Transmit(Segment(ack, Data, slots[sendBase].value.data))]
      ensures dupAckCount == 0
    {
      actions := actions + [Transmit(Segment(ack, Data, slots[sendBase].value.data))];
      dupAckCount := 0;
    }

    /** `_handle_fin_ack`. */
    method HandleFinAck()
      modifies this`isAlive, this`state
      ensures !isAlive && state == Finished
    {
      isAlive := false;
      state := Finished;
    }

    /** `timer_thread(control, buffer, rto)` of sender/timer_handler.py. */
    method OnTimeout()
      requires Valid()
      modifies this`actions, this`dropFin, this`timer, this`dupAckCount
      ensures Valid() && View() == TimeoutStep(old(View()))
    {
      if sendingSegType == Syn {
        actions := actions + [InvokeSendSyn];
      } else if dropFin {
        actions := actions + [InvokeSendFin];
        dropFin := false;
      } else if slots[sendBase].Some? {
        actions := actions + [Transmit(slots[sendBase].value)];
      }
      timer, dupAckCount := Armed, 0;
    }
  }
}
