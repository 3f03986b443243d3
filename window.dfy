/** The fixed-length slot lists ("buffers") that both sender drafts and the array receiver
    keep: one optional segment per slot, searched front to back and walked circularly. */
module Window {
  import opened Common

  /** A buffer: `[None] * int(max_win / MSS)`, each slot empty or holding one segment. */
  type Slots = seq<Option<Segment>>

  /** `control.timer`: no timer (`None`), a started timer that has not fired, or a timer that
      has fired and was not replaced. A fired `threading.Timer` is still truthy, so code that
      tests `if not control.timer` sees Expired like Armed. */
  datatype Timer = Disarmed | Armed | Expired

  /** `if control.timer:` */
  predicate Truthy(t: Timer)
  {
    t != Disarmed
  }

  /** The slot holds a segment whose end `(seqno + len(data)) % 2**16` is the ACK number. */
  predicate Acks(o: Option<Segment>, ack: int)
  {
    o.Some? && SegEnd(o.value) == ack
  }

  /** The index search of an incoming ACK: the first occupied slot that the ACK acknowledges,
      or -1 when there is none. */
  function AckIndex(s: Slots, ack: int): (r: int)
    ensures -1 <= r < |s|
    ensures r >= 0 ==> Acks(s[r], ack) && forall j :: 0 <= j < r ==> !Acks(s[j], ack)
    ensures r == -1 <==> forall j :: 0 <= j < |s| ==> !Acks(s[j], ack)
  {
    if s == [] then -1
    else
      var r := AckIndex(s[..|s| - 1], ack);
      if r >= 0 then r else if Acks(s[|s| - 1], ack) then |s| - 1 else -1
  }

  /** Some slot holds a segment, i.e. something is unacknowledged. */
  predicate AnyOccupied(s: Slots)
  {
    exists j :: 0 <= j < |s| && s[j].Some?
  }

  /** What `restart_timer` leaves in `control.timer`: a fresh timer when something is
      unacknowledged, otherwise no timer. */
  function Restarted(s: Slots): Timer
  {
    if AnyOccupied(s) then Armed else Disarmed
  }

  /** How many circular steps from slot `b` reach slot `p` in a buffer of `n` slots. */
  function Offset(p: int, b: int, n: int): (r: nat)
    requires 0 <= p < n && 0 <= b < n
    ensures r < n && (b + r) % n == p
  {
    if p >= b then p - b else p + n - b
  }

  /** The slot `k` circular steps on from slot `b`. */
  function Step(b: int, k: int, n: int): (p: int)
    requires 0 <= b < n && 0 <= k < n
    ensures 0 <= p < n && Offset(p, b, n) == k
  {
    if b + k < n then b + k else b + k - n
  }

  /** The buffer with the `k` slots starting at `b` (circularly) emptied, one after another. */
  function ClearRun(s: Slots, b: int, k: int): (r: Slots)
    requires 0 <= b < |s| && 0 <= k <= |s|
    ensures |r| == |s|
    decreases k
  {
    if k == 0 then s else ClearRun(s, b, k - 1)[Step(b, k - 1, |s|) := None]
  }

  /** Slot by slot: the run is empty, every other slot is as it was. */
  lemma {:induction false} ClearRunAt(s: Slots, b: int, k: int)
    requires 0 <= b < |s| && 0 <= k <= |s|
    ensures forall p :: 0 <= p < |s| ==> ClearRun(s, b, k)[p] == if Offset(p, b, |s|) < k then None else s[p]
    decreases k
  {
    if k > 0 {
      ClearRunAt(s, b, k - 1);
    }
  }

  /** Emptying one more slot extends the run by the slot `k` steps from `b`. */
  lemma ClearRunStep(s: Slots, b: int, k: int, p: int)
    requires 0 <= b < |s| && 0 <= k < |s| && 0 <= p < |s| && Offset(p, b, |s|) == k
    ensures ClearRun(s, b, k + 1) == ClearRun(s, b, k)[p := None]
  {
    assert p == Step(b, k, |s|);
  }

  /** The slot after `x` in a buffer of `n` slots. */
  lemma NextSlot(x: int, n: int)
    requires 0 <= x < n
    ensures (x + 1) % n == if x + 1 < n then x + 1 else 0
  {
  }

  /** An empty run leaves the buffer as it was. */
  lemma ClearRunNone(s: Slots, b: int)
    requires 0 <= b < |s|
    ensures ClearRun(s, b, 0) == s
  {
  }

  /** The occupied slots are exactly the `k` slots from `b` on, taken circularly. */
  predicate OccupiedRun(s: Slots, b: int, k: int)
    requires 0 <= b < |s|
  {
    0 <= k <= |s| && forall p :: 0 <= p < |s| ==> (s[p].Some? <==> Offset(p, b, |s|) < k)
  }

  /** The window slide invariant: the occupied slots form one contiguous circular run that
      starts at `b`, the `send_base`. */
  predicate Contiguous(s: Slots, b: int)
  {
    0 <= b < |s| && exists k :: 0 <= k <= |s| && OccupiedRun(s, b, k)
  }

  /** The slot `m` steps on from `b`, as `(b + m) % n` gives it for `0 <= m <= n`. */
  function Ahead(b: int, m: int, n: int): (r: int)
    requires 0 <= b < n && 0 <= m <= n
    ensures 0 <= r < n
  {
    if b + m < n then b + m else b + m - n
  }

  /** Seen from `m` slots further on, every offset drops by `m`, circularly. */
  lemma OffsetShift(p: int, b: int, m: int, n: int)
    requires 0 <= p < n && 0 <= b < n && 0 <= m <= n
    ensures Offset(p, Ahead(b, m, n), n)
         == if Offset(p, b, n) >= m then Offset(p, b, n) - m else Offset(p, b, n) + n - m
  {
  }

  /** Emptying the first `m` slots of a run of `k` leaves a run of `k - m` that starts just
      past them. */
  lemma {:induction false} ClearFrontOfRun(s: Slots, b: int, k: int, m: int)
    requires 0 <= b < |s| && OccupiedRun(s, b, k) && 0 <= m <= k
    ensures OccupiedRun(ClearRun(s, b, m), Ahead(b, m, |s|), k - m)
  {
    var n := |s|;
    var c := ClearRun(s, b, m);
    ClearRunAt(s, b, m);
    forall p | 0 <= p < n
      ensures c[p].Some? <==> Offset(p, Ahead(b, m, n), n) < k - m
    {
      OffsetShift(p, b, m, n);
    }
  }

  /** Filling the slot just past a run of `k` makes it a run of `k + 1`. */
  lemma FillAfterRun(s: Slots, b: int, k: int, i: int, x: Segment)
    requires 0 <= b < |s| && OccupiedRun(s, b, k) && k < |s| && 0 <= i < |s| && Offset(i, b, |s|) == k
    ensures OccupiedRun(s[i := Some(x)], b, k + 1)
  {
    var t := s[i := Some(x)];
    forall p | 0 <= p < |s|
      ensures t[p].Some? <==> Offset(p, b, |s|) < k + 1
    {
      if p != i {
        assert Offset(p, b, |s|) != k;
      }
    }
  }

  /** An empty buffer is a run of length zero from any slot. */
  lemma EmptyIsContiguous(s: Slots, b: int)
    requires 0 <= b < |s| && forall p :: 0 <= p < |s| ==> s[p].None?
    ensures Contiguous(s, b)
  {
    assert OccupiedRun(s, b, 0);
  }

  /** Whether some slot of the buffer is occupied: `find_current_unACKed_segments(buffer)` of
      the first sender draft, `any(buffer)` of the second. */
  method HasUnacked(slots: array<Option<Segment>>) returns (r: bool)
    ensures r <==> AnyOccupied(slots[..])
  {
    var i := 0;
    while i < slots.Length
      invariant 0 <= i <= slots.Length
      invariant forall j :: 0 <= j < i ==> slots[j].None?
    {
      if slots[i].Some? {
        assert slots[..][i].Some?;
        return true;
      }
      i := i + 1;
    }
    return false;
  }

  /** The search for the slot an incoming ACK acknowledges: the first occupied slot whose
      segment ends at the ACK number, or -1. */
  method FindAckIndex(slots: array<Option<Segment>>, ack: int) returns (index: int)
    ensures index == AckIndex(slots[..], ack)
  {
    index := -1;
    var i := 0;
    while i < slots.Length
      invariant 0 <= i <= slots.Length
      invariant forall j :: 0 <= j < i ==> !Acks(slots[j], ack)
    {
      if Acks(slots[i], ack) {
        index := i;
        break;
      }
      i := i + 1;
    }
    assert index >= 0 ==> Acks(slots[..][index], ack);
    assert index == -1 ==> forall j :: 0 <= j < |slots[..]| ==> !Acks(slots[..][j], ack);
  }
}
