/** The second draft of the header codec, sender/segment_utils.py: the header is the
    single integer `segtype.value << 16 | seqno`, written as four big-endian bytes. */
module PackedCodec {
  import opened Common
  import BinaryCodec

  function Pow2(k: nat): (r: nat)
    ensures r > 0
  {
    if k == 0 then 1 else 2 * Pow2(k - 1)
  }

  /** Python's `|` on non-negative integers, bit by bit from the least significant end. */
  function BitOr(a: nat, b: nat): (r: nat)
    ensures a <= r && b <= r && r <= a + b
    decreases a + b
  {
    if a == 0 then b
    else if b == 0 then a
    else 2 * BitOr(a / 2, b / 2) + (if a % 2 == 1 || b % 2 == 1 then 1 else 0)
  }

  /** OR-ing a value below 2^k into a multiple of 2^k is addition: the bits do not overlap. */
  lemma {:induction false} BitOrDisjoint(a: nat, b: nat, k: nat)
    requires b < Pow2(k)
    ensures BitOr(a * Pow2(k), b) == a * Pow2(k) + b
  {
    if k == 0 || a == 0 || b == 0 {
    } else {
      var hi := a * Pow2(k);
      assert hi == 2 * (a * Pow2(k - 1));
      assert hi / 2 == a * Pow2(k - 1) && hi % 2 == 0;
      BitOrDisjoint(a, b / 2, k - 1);
    }
  }

  datatype EncodeError = HeaderOutOfRange

  /** `(segtype.value << 16 | seqno).to_bytes(4, "big")` followed by the payload. `to_bytes`
      raises OverflowError for a negative header (a negative seqno makes the OR negative) and
      for one of 2^32 or more. */
  function Encode(t: SegType, seqno: int, payload: seq<byte>): (r: Result<seq<byte>, EncodeError>)
    ensures r.Success? <==> 0 <= seqno && BitOr(TagValue(t) * 65536, seqno) < 0x1_0000_0000
    ensures seqno < 0 || seqno >= 0x1_0000_0000 ==> r == Failure(HeaderOutOfRange)
    ensures r.Success? ==> |r.value| == 4 + |payload| && r.value[4..] == payload
    ensures r.Success? ==> BinaryCodec.BigEndian(r.value[..4]) == BitOr(TagValue(t) * 65536, seqno)
    ensures r.Success? ==> BinaryCodec.BigEndian(r.value[..4]) >= seqno
    ensures 0 <= seqno < SeqModulus ==>
      r.Success? && BinaryCodec.Encode(t, seqno, payload).Success?
      && r.value == BinaryCodec.Encode(t, seqno, payload).value
  {
    if seqno < 0 then Failure(HeaderOutOfRange)
    else
      var header := BitOr(TagValue(t) * 65536, seqno);
      if header >= 0x1_0000_0000 then Failure(HeaderOutOfRange)
      else
        var h := BinaryCodec.Be32(header);
        assert (h + payload)[..4] == h;
        SameHeader(t, seqno);
        Success(h + payload)
  }

  /** For a 16-bit seqno, the packed header is the one helper.py builds from two halves. */
  lemma SameHeader(t: SegType, seqno: int)
    ensures 0 <= seqno < SeqModulus ==>
      var header := BinaryCodec.Be16(TagValue(t)) + BinaryCodec.Be16(seqno);
      && BitOr(TagValue(t) * 65536, seqno) == BinaryCodec.BigEndian(header)
      && BinaryCodec.BigEndian(header) < 0x1_0000_0000
      && BinaryCodec.Be32(BinaryCodec.BigEndian(header)) == header
  {
    if 0 <= seqno < SeqModulus {
      HeaderIsSum(t, seqno);
      var header := BinaryCodec.Be16(TagValue(t)) + BinaryCodec.Be16(seqno);
      BinaryCodec.BigEndianSplit(header);
      assert header[..2] == BinaryCodec.Be16(TagValue(t)) && header[2..] == BinaryCodec.Be16(seqno);
      BinaryCodec.Be32OfBigEndian(header);
    }
  }

  /** `unpack_segment(buffer)`: type `(h >> 16) & 0xFFFF`, seqno `h & 0xFFFF`; a short buffer
      or an unknown type raises; SYN and FIN give `b''`. */
  function Decode(buf: seq<byte>): (r: Result<Segment, BinaryCodec.DecodeError>)
    ensures r.Success? <==> |buf| >= 4 && BinaryCodec.BigEndian(buf[..2]) < 4
    ensures r.Success? ==>
      && TagValue(r.value.segtype) == BinaryCodec.BigEndian(buf[..2])
      && r.value.seqno == BinaryCodec.BigEndian(buf[2..4])
      && r.value.data == (if IsControl(r.value.segtype) then [] else buf[4..])
  {
    if |buf| < 4 then Failure(BinaryCodec.Truncated(|buf|))
    else
      var h := BinaryCodec.BigEndian(buf[..4]);
      BinaryCodec.BigEndianSplit(buf[..4]);
      assert buf[..4][..2] == buf[..2] && buf[..4][2..] == buf[2..4];
      match TagFrom((h / 65536) % 65536)
      case None => Failure(BinaryCodec.UnknownTag((h / 65536) % 65536))
      case Some(t) => Success(Segment(h % 65536, t, if IsControl(t) then [] else buf[4..]))
  }

  /** For a seqno in 0..65535 the OR of the packed draft is the plain sum `tag * 2^16 + seqno`. */
  lemma HeaderIsSum(t: SegType, seqno: int)
    requires 0 <= seqno < SeqModulus
    ensures BitOr(TagValue(t) * 65536, seqno) == TagValue(t) * 65536 + seqno
  {
    assert Pow2(16) == 65536 by {
      assert Pow2(4) == 16;
      assert Pow2(8) == 256;
      assert Pow2(12) == 4096;
    }
    BitOrDisjoint(TagValue(t), seqno, 16);
  }

  /** Both drafts of `unpack_segment` read a datagram the same way. */
  lemma DecodeAgreesWithHelper(buf: seq<byte>)
    ensures Decode(buf) == BinaryCodec.Decode(buf)
  {
  }

  /** Decoding an encoded segment gives back every field, the payload of SYN/FIN aside. */
  lemma RoundTrip(t: SegType, seqno: int, payload: seq<byte>)
    requires 0 <= seqno < SeqModulus
    ensures Encode(t, seqno, payload).Success?
    ensures Decode(Encode(t, seqno, payload).value)
         == Success(Segment(seqno, t, if IsControl(t) then [] else payload))
  {
    BinaryCodec.RoundTrip(t, seqno, payload);
    DecodeAgreesWithHelper(Encode(t, seqno, payload).value);
  }

  /** Without the 16-bit bound the seqno bleeds into the type half: DATA with seqno 65536
      is encoded as the header of an ACK with seqno 0. */
  lemma SeqnoBleedsIntoType()
    ensures Encode(Data, 65536, []) == Success([0, 1, 0, 0])
    ensures Decode([0, 1, 0, 0]) == Success(Segment(0, Ack, []))
  {
    assert TagValue(Data) * 65536 == 0;
    assert BitOr(0, 65536) == 65536;
    assert BinaryCodec.Be32(65536) == [0, 1, 0, 0];
    assert BinaryCodec.Be32(65536) + [] == [0, 1, 0, 0];
    BinaryCodec.BigEndian4([0, 1, 0, 0]);
    BinaryCodec.BigEndian2([0, 1]);
    BinaryCodec.BigEndian2([0, 0]);
    assert [0, 1, 0, 0][..2] == [0, 1] && [0, 1, 0, 0][2..4] == [0, 0];
  }

  /** Any encodable seqno of 65536 or more fails to survive a decode. */
  lemma {:induction false} WideSeqnoIsLost(t: SegType, seqno: int, payload: seq<byte>)
    requires seqno >= SeqModulus
    requires Encode(t, seqno, payload).Success?
    ensures Decode(Encode(t, seqno, payload).value).Success? ==>
            Decode(Encode(t, seqno, payload).value).value.seqno != seqno
  {
    var b := Encode(t, seqno, payload).value;
    BinaryCodec.BigEndianSplit(b[..4]);
    assert b[..4][2..] == b[2..4];
  }
}
