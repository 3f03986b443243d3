/** Types shared by every part of the STP model: bytes, segment types, connection
    states, segments and sequence-number arithmetic modulo 2^16. */
module Common {

  /** An octet, as a Python `bytes` object holds it. */
  type byte = x: int | 0 <= x < 256

  /** Sequence numbers live in Z/65536Z. */
  const SeqModulus: int := 65536

  datatype Option<+T> = None | Some(value: T)

  datatype Result<+T, +E> = Success(value: T) | Failure(error: E)

  /** `SegmentType`: the 16-bit type tag of a segment. */
  datatype SegType = Data | Ack | Syn | Fin

  /** `State`: the sender's connection state (LISTEN and TIME_WAIT are declared, never entered). */
  datatype State = Closed | Listen | SynSent | Est | Closing | FinWait | TimeWait | Finished

  /** `SenderSegment` / `ReceiverSegment`: what a window slot holds. */
  datatype Segment = Segment(seqno: int, segtype: SegType, data: seq<byte>)

  /** The enum value of a segment type. */
  function TagValue(t: SegType): nat
  {
    match t
    case Data => 0
    case Ack => 1
    case Syn => 2
    case Fin => 3
  }

  /** `SegmentType(n)`: the constructor call that raises ValueError for an unknown tag. */
  function TagFrom(n: int): (r: Option<SegType>)
    ensures r.Some? <==> 0 <= n < 4
    ensures r.Some? ==> TagValue(r.value) == n
    ensures forall t: SegType :: TagValue(t) == n ==> r == Some(t)
  {
    if n == 0 then Some(Data)
    else if n == 1 then Some(Ack)
    else if n == 2 then Some(Syn)
    else if n == 3 then Some(Fin)
    else None
  }

  /** SYN and FIN carry no payload on decode. */
  predicate IsControl(t: SegType)
  {
    t == Syn || t == Fin
  }

  /** `(seqno + n) % 2**16`, Python's floor modulo (non-negative for a positive modulus,
      like Dafny's Euclidean `%`). */
  function Advance(seqno: int, n: int): (r: int)
    ensures 0 <= r < SeqModulus
    ensures (r - seqno - n) % SeqModulus == 0
  {
    (seqno + n) % SeqModulus
  }

  /** The cumulative-ACK value that acknowledges a whole segment. */
  function SegEnd(s: Segment): int
  {
    Advance(s.seqno, |s.data|)
  }
}
