/** The 4-byte STP header codec of helper.py (`create_segment`, `unpack_segment`):
    a 2-byte big-endian type tag, a 2-byte big-endian sequence number, then the payload. */
module BinaryCodec {
  import opened Common

  /** `int.from_bytes(b, "big")`. */
  function BigEndian(b: seq<byte>): nat
  {
    if b == [] then 0 else BigEndian(b[..|b| - 1]) * 256 + b[|b| - 1]
  }

  /** `v.to_bytes(2, "big")` for a value that fits. */
  function Be16(v: int): (r: seq<byte>)
    requires 0 <= v < 65536
    ensures |r| == 2 && BigEndian(r) == v
  {
    var r := [v / 256, v % 256];
    BigEndian2(r);
    r
  }

  /** `struct.pack('>I', v)` for a value that fits. */
  function Be32(v: int): (r: seq<byte>)
    requires 0 <= v < 0x1_0000_0000
    ensures |r| == 4 && BigEndian(r) == v
  {
    var x := v / 256;
    var y := x / 256;
    assert v == x * 256 + v % 256 && x == y * 256 + x % 256 && y == (y / 256) * 256 + y % 256;
    var r := [y / 256, y % 256, x % 256, v % 256];
    BigEndian4(r);
    r
  }

  /** The value of two bytes, written out. */
  lemma {:induction false} BigEndian2(b: seq<byte>)
    requires |b| == 2
    ensures BigEndian(b) == (b[0] as int) * 256 + (b[1] as int)
  {
    assert b[..1][..0] == [];
    assert BigEndian(b[..1]) == b[0];
  }

  /** The value of four bytes, written out. */
  lemma {:induction false} BigEndian4(b: seq<byte>)
    requires |b| == 4
    ensures BigEndian(b) == (((b[0] as int) * 256 + (b[1] as int)) * 256 + (b[2] as int)) * 256 + (b[3] as int)
  {
    assert b[..3][..2] == b[..2];
    BigEndian2(b[..2]);
  }

  /** At most two bytes hold a value below 2^16. */
  lemma {:induction false} BigEndianShort(b: seq<byte>)
    requires |b| <= 2
    ensures BigEndian(b) < 65536
  {
    if |b| == 2 {
      BigEndian2(b);
    } else if |b| == 1 {
      assert b[..0] == [];
    }
  }

  /** Four bytes are determined by their big-endian value. */
  lemma {:induction false} Be32OfBigEndian(b: seq<byte>)
    requires |b| == 4
    ensures BigEndian(b) < 0x1_0000_0000 && Be32(BigEndian(b)) == b
  {
    BigEndian4(b);
    var b0, b1, b2, b3 := b[0] as int, b[1] as int, b[2] as int, b[3] as int;
    var hi, mid := b0 * 256 + b1, (b0 * 256 + b1) * 256 + b2;
    var v := mid * 256 + b3;
    assert v == BigEndian(b);
    assert v % 256 == b3 && v / 256 == mid;
    assert mid % 256 == b2 && mid / 256 == hi;
    assert hi % 256 == b1 && hi / 256 == b0;
    assert hi < 0x1_0000 && mid < 0x100_0000 && v < 0x1_0000_0000;
    assert Be32(v) == [b0, b1, b2, b3];
    assert b == [b0, b1, b2, b3];
  }

  /** The big-endian value of a 4-byte header is its high half times 2^16 plus its low half. */
  lemma {:induction false} BigEndianSplit(b: seq<byte>)
    requires |b| == 4
    ensures BigEndian(b[..2]) < 65536 && BigEndian(b[2..]) < 65536
    ensures BigEndian(b) == BigEndian(b[..2]) * 65536 + BigEndian(b[2..])
    ensures BigEndian(b) / 65536 == BigEndian(b[..2]) && BigEndian(b) % 65536 == BigEndian(b[2..])
  {
    BigEndian4(b);
    BigEndian2(b[..2]);
    BigEndian2(b[2..]);
  }

  datatype EncodeError = SeqnoOutOfRange(seqno: int)

  datatype DecodeError = Truncated(length: nat) | UnknownTag(tag: int)

  /** `create_segment(segtype, seqno, data)`: the tag and the seqno are each turned into two
      bytes (`to_bytes(2, "big")` raises OverflowError outside 0..65535), joined, read back as
      an integer and packed with `'>I'`. */
  function Encode(t: SegType, seqno: int, payload: seq<byte>): (r: Result<seq<byte>, EncodeError>)
    ensures r.Success? <==> 0 <= seqno < SeqModulus
    ensures r.Failure? ==> r.error == SeqnoOutOfRange(seqno)
    ensures r.Success? ==>
      && |r.value| == 4 + |payload|
      && BigEndian(r.value[..2]) == TagValue(t)
      && BigEndian(r.value[2..4]) == seqno
      && r.value[4..] == payload
  {
    if !(0 <= seqno < SeqModulus) then Failure(SeqnoOutOfRange(seqno))
    else
      var hi, lo := Be16(TagValue(t)), Be16(seqno);
      var header := hi + lo;
      Be32OfBigEndian(header);
      var packed := Be32(BigEndian(header));
      assert packed == header;
      assert (packed + payload)[..2] == hi && (packed + payload)[2..4] == lo;
      Success(packed + payload)
  }

  /** `unpack_segment(buffer)`: `struct.unpack_from('>I', ...)` raises on fewer than four
      bytes, `SegmentType(...)` raises on an unknown tag; SYN and FIN decode with an empty
      payload whatever follows the header. */
  function Decode(buf: seq<byte>): (r: Result<Segment, DecodeError>)
    ensures r.Success? <==> |buf| >= 4 && BigEndian(buf[..2]) < 4
    ensures |buf| < 4 ==> r == Failure(Truncated(|buf|))
    ensures |buf| >= 4 && BigEndian(buf[..2]) >= 4 ==> r == Failure(UnknownTag(BigEndian(buf[..2])))
    ensures r.Success? ==>
      && TagValue(r.value.segtype) == BigEndian(buf[..2])
      && r.value.seqno == BigEndian(buf[2..4])
      && r.value.data == (if IsControl(r.value.segtype) then [] else buf[4..])
  {
    if |buf| < 4 then Failure(Truncated(|buf|))
    else
      var header := BigEndian(buf[..4]);
      BigEndianSplit(buf[..4]);
      assert buf[..4][..2] == buf[..2] && buf[..4][2..] == buf[2..4];
      var seqno := header % 65536;
      match TagFrom((header / 65536) % 65536)
      case None => Failure(UnknownTag((header / 65536) % 65536))
      case Some(t) =>
        Success(Segment(seqno, t, if IsControl(t) then [] else buf[4..]))
  }

  /** Decoding an encoded segment gives back the type, the seqno and (except for SYN/FIN,
      whose payload is dropped) the payload. */
  lemma RoundTrip(t: SegType, seqno: int, payload: seq<byte>)
    requires 0 <= seqno < SeqModulus
    ensures Encode(t, seqno, payload).Success?
    ensures Decode(Encode(t, seqno, payload).value)
         == Success(Segment(seqno, t, if IsControl(t) then [] else payload))
  {
    var b := Encode(t, seqno, payload).value;
    assert b[..4][..2] == b[..2];
  }

  /** The converse: a datagram that decodes is re-encoded to itself, except that for SYN
      and FIN only the header survives. */
  lemma {:induction false} EncodeOfDecode(buf: seq<byte>)
    requires Decode(buf).Success?
    ensures var s := Decode(buf).value;
      Encode(s.segtype, s.seqno, s.data)
        == Success(if IsControl(s.segtype) then buf[..4] else buf)
  {
    var s := Decode(buf).value;
    var e := Encode(s.segtype, s.seqno, s.data).value;
    BigEndian2Injective(e[..2], buf[..2]);
    BigEndian2Injective(e[2..4], buf[2..4]);
    assert e[..4] == e[..2] + e[2..4] && buf[..4] == buf[..2] + buf[2..4];
    if IsControl(s.segtype) {
      assert e == e[..4];
    } else {
      assert e == e[..4] + e[4..];
      assert buf == buf[..4] + buf[4..];
    }
  }

  /** Two bytes are determined by their big-endian value. */
  lemma BigEndian2Injective(a: seq<byte>, b: seq<byte>)
    requires |a| == 2 && |b| == 2 && BigEndian(a) == BigEndian(b)
    ensures a == b
  {
    BigEndian2(a);
    BigEndian2(b);
    var a0, a1, b0, b1 := a[0] as int, a[1] as int, b[0] as int, b[1] as int;
    assert (a0 * 256 + a1) / 256 == a0 && (a0 * 256 + a1) % 256 == a1;
    assert (b0 * 256 + b1) / 256 == b0 && (b0 * 256 + b1) % 256 == b1;
  }
}
