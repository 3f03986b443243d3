/** The receive-buffer helpers of helper.py: `find_expected_segno`, which flushes the run of
    buffered segments that follows the slot just filled, and
    `remove_all_in_recv_buffer_if_full`, which empties the front of a full buffer. */
module ReceiveWindow {
  import opened Common
  import opened Window

  /** How many slots, counted circularly from `b` and starting at step `k`, are occupied in a
      row, plus `k`. */
  function RunFrom(s: Slots, b: int, k: int): (r: int)
    requires 0 <= b < |s| && 0 <= k <= |s|
    ensures k <= r <= |s|
    ensures r < |s| ==> s[Step(b, r, |s|)].None?
    ensures forall j :: k <= j < r ==> s[Step(b, j, |s|)].Some?
    decreases |s| - k
  {
    if k == |s| || s[Step(b, k, |s|)].None? then k else RunFrom(s, b, k + 1)
  }

  /** The length of the run of occupied slots that starts at `b`: all of them when the whole
      buffer is occupied. */
  function RunLen(s: Slots, b: int): (r: nat)
    requires 0 <= b < |s|
    ensures r <= |s|
    ensures r < |s| ==> s[Step(b, r, |s|)].None?
    ensures forall j :: 0 <= j < r ==> s[Step(b, j, |s|)].Some?
  {
    RunFrom(s, b, 0)
  }

  /** The payloads of the first `k` slots from `b`, in visiting order. */
  function Flushed(s: Slots, b: int, k: int): seq<byte>
    requires 0 <= b < |s| && 0 <= k <= |s|
    requires forall j :: 0 <= j < k ==> s[Step(b, j, |s|)].Some?
  {
    if k == 0 then [] else Flushed(s, b, k - 1) + s[Step(b, k - 1, |s|)].value.data
  }

  /** What `find_expected_segno` returns and leaves behind: the buffer with the run cleared,
      the end of the last segment flushed (`None` when nothing was), the slot it stopped at
      and the bytes it appended to the received file. */
  datatype FlushResult = FlushResult(slots: Slots, expected: Option<int>, next: int, written: seq<byte>)

  /** `find_expected_segno(max_win, receive_buffer, index, buf, file_received)`: walk
      circularly from `(index + 1) % len(receive_buffer)`, flushing and clearing occupied
      slots, and stop at the first empty one. */
  function Flush(s: Slots, index: int): (r: FlushResult)
    requires |s| > 0
    ensures |r.slots| == |s| && 0 <= r.next < |s|
    ensures r.expected.Some? ==> 0 <= r.expected.value < SeqModulus
  {
    var n := |s|;
    var b := (index + 1) % n;
    var run := RunLen(s, b);
    FlushResult(ClearRun(s, b, run), if run == 0 then None else Some(SegEnd(s[Step(b, run - 1, n)].value)),
                Visit(b, run, n), Flushed(s, b, run))
  }

  /** The slot the walk from `b` reaches after `k` steps: back at `b` once it has gone round. */
  function Visit(b: int, k: int, n: int): (p: int)
    requires 0 <= b < n && 0 <= k <= n
    ensures 0 <= p < n
  {
    if k < n then Step(b, k, n) else b
  }

  /** One step of the walk: `cur += 1`, wrapping to 0 at the end of the buffer. */
  lemma VisitNext(b: int, k: int, n: int)
    requires 0 <= b < n && 0 <= k < n
    ensures Visit(b, k + 1, n) == if Visit(b, k, n) + 1 == n then 0 else Visit(b, k, n) + 1
  {
  }

  /** The slot where the walk stops is empty afterwards: it was empty already, or (when every
      slot was occupied) it is the first slot flushed. */
  lemma FlushStopsAtEmpty(s: Slots, index: int)
    requires |s| > 0
    ensures Flush(s, index).slots[Flush(s, index).next].None?
  {
    var n := |s|;
    var b := (index + 1) % n;
    var run := RunLen(s, b);
    ClearRunAt(s, b, run);
    if run == n {
      assert Offset(b, b, n) == 0;
    }
  }

  /** When the slot after `index` is empty nothing is flushed: `None`, that slot, no bytes. */
  lemma FlushNothing(s: Slots, index: int)
    requires |s| > 0 && s[(index + 1) % |s|].None?
    ensures Flush(s, index) == FlushResult(s, None, (index + 1) % |s|, [])
  {
    var b := (index + 1) % |s|;
    assert Step(b, 0, |s|) == b;
  }

  /** The run and nothing else is cleared: the slots from `(index + 1) % len` up to the stop
      are emptied, every other slot is left as it was, and the stop lies right after the run. */
  lemma {:induction false} FlushClearsRun(s: Slots, index: int)
    requires |s| > 0
    ensures var b := (index + 1) % |s|; var run := RunLen(s, b); var r := Flush(s, index);
      && (forall j :: 0 <= j < run ==> s[Step(b, j, |s|)].Some?)
      && (forall p :: 0 <= p < |s| ==> r.slots[p] == if Offset(p, b, |s|) < run then None else s[p])
      && (run < |s| ==> Offset(r.next, b, |s|) == run)
  {
    var b := (index + 1) % |s|;
    var run := RunLen(s, b);
    ClearRunAt(s, b, run);
  }

  /** When something is flushed, the expected seqno is the end of the last flushed segment. */
  lemma FlushExpected(s: Slots, index: int)
    requires |s| > 0 && s[(index + 1) % |s|].Some?
    ensures var b := (index + 1) % |s|; var run := RunLen(s, b);
      && run >= 1
      && Flush(s, index).expected == Some(SegEnd(s[Step(b, run - 1, |s|)].value))
  {
    var b := (index + 1) % |s|;
    assert Step(b, 0, |s|) == b;
  }

  /** A second flush from the slot just before the stop finds that slot empty and changes
      nothing. */
  lemma FlushTwice(s: Slots, index: int)
    requires |s| > 0
    ensures var r := Flush(s, index); var before := (r.next + |s| - 1) % |s|;
      Flush(r.slots, before) == FlushResult(r.slots, None, r.next, [])
  {
    var r := Flush(s, index);
    FlushStopsAtEmpty(s, index);
    PrevSlot(r.next, |s|);
    FlushNothing(r.slots, (r.next + |s| - 1) % |s|);
  }

  /** The slot after the one before `x` is `x`. */
  lemma PrevSlot(x: int, n: int)
    requires 0 <= x < n
    ensures ((x + n - 1) % n + 1) % n == x
  {
    if x == 0 {
      assert (n - 1) % n == n - 1;
    } else {
      assert (x + n - 1) % n == x - 1;
    }
  }

  /** `find_expected_segno`, on the receive buffer in place. `written` is what it appends to
      the received file. The loop ends within `len(receive_buffer)` steps because each step
      empties a slot. */
  method FindExpectedSegno(buf: array<Option<Segment>>, index: int)
      returns (expected: Option<int>, next: int, written: seq<byte>)
    requires buf.Length > 0
    modifies buf
    ensures Flush(old(buf[..]), index) == FlushResult(buf[..], expected, next, written)
  {
    var n := buf.Length;
    ghost var s0 := buf[..];
    ghost var b := (index + 1) % n;
    ghost var run := RunLen(s0, b);
    ghost var k := 0;
    expected := None;
    written := [];
    var cur := (index + 1) % n;
    ClearRunNone(s0, b);
    while buf[cur].Some?
      invariant 0 <= k <= run && cur == Visit(b, k, n)
      invariant buf[..] == ClearRun(s0, b, k)
      invariant written == Flushed(s0, b, k)
      invariant expected == if k == 0 then None else Some(SegEnd(s0[Step(b, k - 1, n)].value))
      decreases run - k
    {
      RunGoesOn(s0, b, k, cur);
      written := written + buf[cur].value.data;
      expected := Some(SegEnd(buf[cur].value));
      ClearRunStep(s0, b, k, cur);
      buf[cur] := None;
      VisitNext(b, k, n);
      cur := cur + 1;
      if cur == n {
        cur := 0;
      }
      k := k + 1;
    }
    RunStops(s0, b, k, cur);
    next := cur;
  }

  /** Inside the loop: an occupied slot at step `k` means the run is longer than `k`, and the
      slot is the original one, `k` steps on. */
  lemma RunGoesOn(s0: Slots, b: int, k: int, cur: int)
    requires 0 <= b < |s0| && 0 <= k <= RunLen(s0, b) && cur == Visit(b, k, |s0|)
    requires ClearRun(s0, b, k)[cur].Some?
    ensures k < RunLen(s0, b) && cur == Step(b, k, |s0|) && ClearRun(s0, b, k)[cur] == s0[cur]
  {
    ClearRunAt(s0, b, k);
  }

  /** At the exit: the loop has flushed the whole run. */
  lemma RunStops(s0: Slots, b: int, k: int, cur: int)
    requires 0 <= b < |s0| && 0 <= k <= RunLen(s0, b) && cur == Visit(b, k, |s0|)
    requires ClearRun(s0, b, k)[cur].None?
    ensures k == RunLen(s0, b)
  {
    ClearRunAt(s0, b, k);
  }

  // ---------------------------------------------------------------------------------------
  // remove_all_in_recv_buffer_if_full

  /** `int(max_win / 1000)`: the quotient truncated toward zero. */
  function WindowSlots(maxWin: int): (r: int)
    ensures maxWin >= 0 ==> r == maxWin / 1000
    ensures maxWin < 0 ==> r <= 0
  {
    if maxWin >= 0 then maxWin / 1000 else -((-maxWin) / 1000)
  }

  /** The first `c` slots (at most the whole buffer) are occupied. */
  predicate FrontFull(s: Slots, c: int)
  {
    forall i :: 0 <= i < c && i < |s| ==> s[i].Some?
  }

  /** `remove_all_in_recv_buffer_if_full(buffer, max_win)` with `c = int(max_win / 1000)`: if
      the first `c` slots are all occupied, all of them are emptied; otherwise the buffer is
      returned as it was. `None` is the IndexError raised when `c` exceeds the length of a
      buffer whose every slot is occupied. */
  function RemoveIfFull(s: Slots, c: int): (r: Option<Slots>)
    ensures r.None? <==> c > |s| && FrontFull(s, |s|)
    ensures r.Some? ==> |r.value| == |s|
    ensures r.Some? && FrontFull(s, c) ==>
      forall i :: 0 <= i < |s| ==> r.value[i] == if i < c then None else s[i]
    ensures r.Some? && !FrontFull(s, c) ==> r.value == s
  {
    if !FrontFull(s, c) then Some(s)
    else if c > |s| then None
    else Some(ClearFront(s, c))
  }

  /** The buffer with its first `c` slots emptied. */
  function ClearFront(s: Slots, c: int): (r: Slots)
    ensures |r| == |s|
    ensures forall i :: 0 <= i < |s| ==> r[i] == if i < c then None else s[i]
  {
    seq(|s|, i requires 0 <= i < |s| => if i < c then None else s[i])
  }

  /** A second call right after a clearing one changes nothing, and so does a second call
      after one that changed nothing. */
  lemma RemoveIfFullIdempotent(s: Slots, c: int)
    requires RemoveIfFull(s, c).Some?
    ensures RemoveIfFull(RemoveIfFull(s, c).value, c) == RemoveIfFull(s, c)
  {
    var r := RemoveIfFull(s, c).value;
    if FrontFull(s, c) {
      if c > 0 {
        assert r[0].None?;
        assert !FrontFull(r, c);
      } else {
        assert r == s;
      }
    }
  }

  /** `remove_all_in_recv_buffer_if_full`, on the buffer in place; `ok` is false where the
      source raises IndexError. */
  method RemoveAllIfFull(buf: array<Option<Segment>>, maxWin: int) returns (ok: bool)
    modifies buf
    ensures ok <==> RemoveIfFull(old(buf[..]), WindowSlots(maxWin)).Some?
    ensures ok ==> buf[..] == RemoveIfFull(old(buf[..]), WindowSlots(maxWin)).value
    ensures !ok ==> buf[..] == old(buf[..])
  {
    var c := WindowSlots(maxWin);
    var flag := true;
    var i := 0;
    while i < c
      invariant 0 <= i <= buf.Length && (c > 0 ==> i <= c)
      invariant flag
      invariant forall j :: 0 <= j < i ==> buf[j].Some?
      decreases c - i
    {
      if i >= buf.Length {
        assert FrontFull(buf[..], buf.Length);
        return false;
      }
      if buf[i].None? {
        assert buf[..][i].None?;
        flag := false;
        break;
      }
      i := i + 1;
    }
    ghost var s0 := buf[..];
    if flag {
      assert FrontFull(s0, c);
      i := 0;
      while i < c
        invariant 0 <= i <= (if c > 0 then c else 0)
        invariant c <= buf.Length
        invariant forall j :: 0 <= j < buf.Length ==> buf[j] == if j < i then None else s0[j]
        decreases c - i
      {
        buf[i] := None;
        i := i + 1;
      }
      assert buf[..] == ClearFront(s0, c);
    }
    return true;
  }
}
