/** The dictionary reorder buffer of receiver/buffer.py: payloads wait under their sequence
    number until the expected one is present, and are then written out in a run. The
    arithmetic is unbounded: there is no wrap at 2^16. */
module ReorderBuffer {

  /** What the drain loop leaves behind: the remaining map, the new expected seqno, the text
      appended to the received file and how many entries it consumed. */
  datatype DrainResult = DrainResult(buffer: map<int, string>, expected: int, written: string, count: nat)

  /** `while self.expected_seqno in self.buffer`: write the payload stored under the expected
      seqno, delete it, and move on by `step`, the length of the segment that arrived. */
  function Drain(buffer: map<int, string>, expected: int, step: nat): (r: DrainResult)
    ensures r.expected !in r.buffer
    ensures r.expected >= expected
    ensures r.count == 0 <==> expected !in buffer
    decreases |buffer|
  {
    if expected in buffer then
      RemoveKey(buffer, expected);
      var d := Drain(buffer - {expected}, expected + step, step);
      DrainResult(d.buffer, d.expected, buffer[expected] + d.written, d.count + 1)
    else
      DrainResult(buffer, expected, "", 0)
  }

  /** Deleting a key makes the map one entry smaller. */
  lemma RemoveKey(m: map<int, string>, k: int)
    requires k in m
    ensures |m - {k}| == |m| - 1
  {
    assert (m - {k}).Keys == m.Keys - {k};
  }

  /** Each round of the drain deletes one key and keeps every other entry as it was. */
  lemma {:induction false} DrainConsumes(buffer: map<int, string>, expected: int, step: nat)
    ensures var r := Drain(buffer, expected, step);
      && r.count <= |buffer| && |r.buffer| == |buffer| - r.count
      && forall k :: k in r.buffer ==> k in buffer && r.buffer[k] == buffer[k]
    decreases |buffer|
  {
    if expected in buffer {
      RemoveKey(buffer, expected);
      DrainConsumes(buffer - {expected}, expected + step, step);
    }
  }

  /** The expected seqno moves by `step` per round. */
  lemma {:induction false} DrainAdvances(buffer: map<int, string>, expected: int, step: nat)
    ensures Drain(buffer, expected, step).expected == expected + Drain(buffer, expected, step).count * step
    decreases |buffer|
  {
    if expected in buffer {
      RemoveKey(buffer, expected);
      DrainAdvances(buffer - {expected}, expected + step, step);
      var c := Drain(buffer - {expected}, expected + step, step).count;
      assert expected + step + c * step == expected + (c + 1) * step;
    }
  }

  /** Only the keys the drain visited are gone: `expected`, `expected + step`, and so on. */
  lemma {:induction false} DrainRemovesVisited(buffer: map<int, string>, expected: int, step: nat, k: int)
    requires k in buffer && k !in Drain(buffer, expected, step).buffer
    ensures exists i :: 0 <= i < Drain(buffer, expected, step).count && k == expected + i * step
    decreases |buffer|
  {
    var r := Drain(buffer, expected, step);
    RemoveKey(buffer, expected);
    if k == expected {
      assert k == expected + 0 * step;
    } else {
      DrainRemovesVisited(buffer - {expected}, expected + step, step, k);
      var i :| 0 <= i < Drain(buffer - {expected}, expected + step, step).count && k == expected + step + i * step;
      assert k == expected + (i + 1) * step;
    }
  }

  /** One round of the drain, as the loop of `process_data` performs it. */
  lemma DrainRound(buffer: map<int, string>, expected: int, step: nat, out: string)
    requires expected in buffer
    ensures var d, d' := Drain(buffer, expected, step), Drain(buffer - {expected}, expected + step, step);
      && d.expected == d'.expected && d.buffer == d'.buffer
      && out + d.written == (out + buffer[expected]) + d'.written
  {
  }

  /** The state of a `ReceiverBuffer`, with the received file as `output`. */
  datatype BufferState = BufferState(buffer: map<int, string>, expectedSeqno: int, output: string)

  /** `process_data(seqno, data, file_received)`: the new state and the seqno it returns. */
  datatype Processed = Processed(state: BufferState, ack: int)

  function Process(st: BufferState, seqno: int, data: string): (r: Processed)
  {
    if seqno in st.buffer || seqno < st.expectedSeqno then Processed(st, st.expectedSeqno)
    else
      var d := Drain(st.buffer[seqno := data], st.expectedSeqno, |data|);
      Processed(BufferState(d.buffer, d.expected, st.output + d.written), d.expected)
  }

  // ---------------------------------------------------------------------------------------
  // Properties of `process_data`.

  /** A seqno that is already buffered, or lies below the expected one, changes nothing and
      is answered with the expected seqno. */
  lemma StaleOrDuplicateIgnored(st: BufferState, seqno: int, data: string)
    requires seqno in st.buffer || seqno < st.expectedSeqno
    ensures Process(st, seqno, data) == Processed(st, st.expectedSeqno)
  {
  }

  /** The value returned is the new expected seqno, which is then not a key, never lies below
      the old one, and the file only grows. */
  lemma ProcessResult(st: BufferState, seqno: int, data: string)
    ensures var r := Process(st, seqno, data);
      && r.ack == r.state.expectedSeqno
      && r.state.expectedSeqno >= st.expectedSeqno
      && (r.state != st ==> r.state.expectedSeqno !in r.state.buffer)
      && |r.state.output| >= |st.output| && r.state.output[..|st.output|] == st.output
  {
    var r := Process(st, seqno, data);
    if !(seqno in st.buffer || seqno < st.expectedSeqno) {
      var d := Drain(st.buffer[seqno := data], st.expectedSeqno, |data|);
      assert (st.output + d.written)[..|st.output|] == st.output;
    }
  }

  /** A fresh seqno is stored before the drain: when it is not the expected one nothing is
      written, and the map gains exactly that entry. */
  lemma OutOfOrderStored(st: BufferState, seqno: int, data: string)
    requires seqno !in st.buffer && seqno > st.expectedSeqno && st.expectedSeqno !in st.buffer
    ensures Process(st, seqno, data) ==
      Processed(st.(buffer := st.buffer[seqno := data]), st.expectedSeqno)
  {
  }

  /** The expected seqno arriving is written first, then, while the next expected seqno is a
      key, its payload; the seqno advances by the arriving segment's length each time. */
  lemma {:induction false} InOrderWritesRun(st: BufferState, seqno: int, data: string)
    requires seqno !in st.buffer && seqno == st.expectedSeqno
    ensures var r := Process(st, seqno, data);
      var d := Drain(st.buffer, seqno + |data|, |data|);
      && r.state.output == st.output + data + d.written
      && r.state.expectedSeqno == d.expected && r.state.buffer == d.buffer
  {
    var b := st.buffer[seqno := data];
    assert b - {seqno} == st.buffer;
  }

  /** The step is the arriving segment's length, not the stored one's: after a 1-byte segment
      at 0, a 5-byte segment buffered under 1 is written, and the next expected seqno is 2,
      not 6. */
  lemma StepIsArrivingLength()
    ensures var st := BufferState(map[1 := "hello"], 0, "");
      Process(st, 0, "a") == Processed(BufferState(map[], 2, "ahello"), 2)
  {
    var b := map[1 := "hello"][0 := "a"];
    assert b - {0} == map[1 := "hello"];
    assert map[1 := "hello"] - {1} == map[];
    assert Drain(map[], 2, 1) == DrainResult(map[], 2, "", 0);
    assert Drain(map[1 := "hello"], 1, 1) == DrainResult(map[], 2, "hello", 1);
    assert Drain(b, 0, 1) == DrainResult(map[], 2, "a" + "hello", 2);
  }

  /** Before any expected seqno is set, `expected_seqno` stays at -1 for non-negative
      sequence numbers: every call answers -1 and writes nothing. */
  lemma NeverFlushesFromStart(st: BufferState, seqno: int, data: string)
    requires st.expectedSeqno == -1 && -1 !in st.buffer && seqno >= 0
    ensures var r := Process(st, seqno, data);
      && r.ack == -1 && r.state.expectedSeqno == -1 && r.state.output == st.output
      && -1 !in r.state.buffer
  {
  }

  // ---------------------------------------------------------------------------------------
  // The buffer, updated in place.

  class ReceiverBuffer {
    var buffer: map<int, string>
    var expectedSeqno: int
    var output: string
    const maxWin: int
    const mss: int

    function View(): BufferState
      reads this
    {
      BufferState(buffer, expectedSeqno, output)
    }

    /** `ReceiverBuffer(max_win, mss)`: an empty map and `expected_seqno = -1`. */
    constructor (maxWin: int, mss: int)
      ensures buffer == map[] && expectedSeqno == -1 && output == ""
      ensures this.maxWin == maxWin && this.mss == mss
    {
      buffer := map[];
      expectedSeqno := -1;
      output := "";
      this.maxWin := maxWin;
      this.mss := mss;
    }

    method ProcessData(seqno: int, data: string) returns (ack: int)
      modifies this
      ensures Processed(View(), ack) == Process(old(View()), seqno, data)
    {
      if seqno in buffer || seqno < expectedSeqno {
        return expectedSeqno;
      }
      buffer := buffer[seqno := data];
      ghost var b0 := buffer;
      ghost var e0 := expectedSeqno;
      ghost var out0 := output;
      while expectedSeqno in buffer
        invariant Drain(buffer, expectedSeqno, |data|).expected == Drain(b0, e0, |data|).expected
        invariant Drain(buffer, expectedSeqno, |data|).buffer == Drain(b0, e0, |data|).buffer
        invariant output + Drain(buffer, expectedSeqno, |data|).written == out0 + Drain(b0, e0, |data|).written
        decreases |buffer|
      {
        DrainRound(buffer, expectedSeqno, |data|, output);
        var w := buffer[expectedSeqno];
        output := output + w;
        buffer := buffer - {expectedSeqno};
        expectedSeqno := expectedSeqno + |data|;
      }
      return expectedSeqno;
    }
  }
}
