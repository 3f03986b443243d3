/** The receiver package's text codec, receiver/segment_utils.py: a segment is the text
    `"{segtype} {seqno} {data}"`, read back with `split(" ", 2)` and `int(...)`. It shares
    no bytes with the binary header codec. */
module TextCodec {
  import opened Common

  /** A segment as `unpack_segment` returns it: the type is whatever text stood first. */
  datatype TextSegment = TextSegment(segtype: string, seqno: int, data: string)

  datatype DecodeError =
    | MissingSeqno          // `parts[1]` raises IndexError: the text has no space
    | BadSeqno(field: string)  // `int(parts[1])` raises ValueError

  predicate IsDigit(c: char)
  {
    '0' <= c <= '9'
  }

  predicate AllDigits(s: string)
  {
    forall i :: 0 <= i < |s| ==> IsDigit(s[i])
  }

  function DigitChar(d: int): (c: char)
    requires 0 <= d < 10
    ensures IsDigit(c) && c as int - '0' as int == d
  {
    ('0' as int + d) as char
  }

  /** The decimal value of a string of ASCII digits. */
  function DigitsValue(s: string): nat
    requires AllDigits(s)
  {
    if s == [] then 0
    else DigitsValue(s[..|s| - 1]) * 10 + (s[|s| - 1] as int - '0' as int)
  }

  /** `str(n)` for a non-negative integer. */
  function NatText(n: nat): (r: string)
    ensures |r| > 0 && AllDigits(r)
    decreases n
  {
    if n < 10 then [DigitChar(n)] else NatText(n / 10) + [DigitChar(n % 10)]
  }

  /** `f"{seqno}"` for an integer: a minus sign before a negative number. */
  function IntText(n: int): string
  {
    if n < 0 then "-" + NatText(-n) else NatText(n)
  }

  /** `int(text)` on an optional sign followed by ASCII digits. */
  function ParseInt(s: string): (r: Option<int>)
    ensures r.Some? ==> |s| > 0
    ensures AllDigits(s) && |s| > 0 ==> r == Some(DigitsValue(s))
  {
    if |s| > 1 && (s[0] == '-' || s[0] == '+') && AllDigits(s[1..]) then
      Some(if s[0] == '-' then 0 - DigitsValue(s[1..]) else DigitsValue(s[1..]))
    else if |s| > 0 && AllDigits(s) then Some(DigitsValue(s))
    else None
  }

  lemma {:induction false} NatTextValue(n: nat)
    ensures DigitsValue(NatText(n)) == n
    decreases n
  {
    if n >= 10 {
      var r := NatText(n);
      assert r[..|r| - 1] == NatText(n / 10);
      NatTextValue(n / 10);
    }
  }

  /** Printing an integer and parsing it back gives the integer. */
  lemma IntTextRoundTrip(n: int)
    ensures ParseInt(IntText(n)) == Some(n)
  {
    if n < 0 {
      var r := IntText(n);
      assert r[1..] == NatText(-n);
      NatTextValue(-n);
    } else {
      NatTextValue(n);
    }
  }

  /** No character of `s` is a space. */
  predicate NoSpace(s: string)
  {
    forall k :: 0 <= k < |s| ==> s[k] != ' '
  }

  /** The first position of a space in `s`. */
  function IndexOfSpace(s: string): (r: Option<nat>)
    ensures r.None? <==> NoSpace(s)
    ensures r.Some? ==> r.value < |s| && s[r.value] == ' ' && NoSpace(s[..r.value])
  {
    if s == [] then None
    else if s[0] == ' ' then Some(0)
    else match IndexOfSpace(s[1..])
      case None => None
      case Some(i) => Some(i + 1)
  }

  /** `" ".join(parts)`. */
  function Join(parts: seq<string>): string
    requires 1 <= |parts| <= 3
  {
    if |parts| == 1 then parts[0]
    else if |parts| == 2 then parts[0] + " " + parts[1]
    else parts[0] + " " + parts[1] + " " + parts[2]
  }

  /** `s.split(" ", 2)`: at most two splits, each at one single space. */
  function Split2(s: string): (parts: seq<string>)
    ensures 1 <= |parts| <= 3
    ensures |parts| == 1 <==> NoSpace(s)
    ensures |parts| >= 2 ==> NoSpace(parts[0]) && NoSpace(parts[1])
  {
    match IndexOfSpace(s)
    case None => [s]
    case Some(i) =>
      var rest := s[i + 1..];
      match IndexOfSpace(rest)
      case None => [s[..i], rest]
      case Some(j) => [s[..i], rest[..j], rest[j + 1..]]
  }

  /** The pieces `split` returns, joined again with single spaces, give back the text. */
  lemma {:induction false} SplitJoin(s: string)
    ensures Join(Split2(s)) == s
  {
    match IndexOfSpace(s)
    case None =>
    case Some(i) =>
      match IndexOfSpace(s[i + 1..])
      case None =>
        CutAt(s, i);
      case Some(j) =>
        SplitJoinThree(s, i, j);
  }

  /** The three-field case of `SplitJoin`. */
  lemma SplitJoinThree(s: string, i: nat, j: nat)
    requires IndexOfSpace(s) == Some(i) && IndexOfSpace(s[i + 1..]) == Some(j)
    ensures Join(Split2(s)) == s
  {
    var rest := s[i + 1..];
    var a, b, c := s[..i], rest[..j], rest[j + 1..];
    assert Split2(s) == [a, b, c];
    JoinThree(s[..i], rest, j);
    CutAt(s, i);
  }

  /** Re-joining around the second space. */
  lemma JoinThree(a: string, rest: string, j: nat)
    requires j < |rest| && rest[j] == ' '
    ensures Join([a, rest[..j], rest[j + 1..]]) == a + " " + rest
  {
    CutAt(rest, j);
    var b, c := rest[..j], rest[j + 1..];
    assert a + " " + b + " " + c == a + " " + (b + " " + c);
  }

  /** Cutting out the character at `i` and putting a space back there is the identity when it
      was a space. */
  lemma CutAt(s: string, i: nat)
    requires i < |s| && s[i] == ' '
    ensures s[..i] + " " + s[i + 1..] == s
  {
    assert s == s[..i] + [s[i]] + s[i + 1..];
  }

  /** `create_segment(segtype, seqno, data)`: the type text, a space, the decimal seqno,
      a space, then the data. */
  function Encode(segtype: string, seqno: int, data: string): (r: string)
    ensures |r| > |segtype| + 2 + |data|
    ensures r[..|segtype|] == segtype && r[|segtype|] == ' '
    ensures r[|r| - |data|..] == data
  {
    var r := segtype + " " + IntText(seqno) + " " + data;
    assert r[|r| - |data|..] == data;
    r
  }

  /** `unpack_segment(segment)`: field one is the type, field two an integer, and the rest
      (spaces included) the data, or `''` when there is no third field. */
  function Decode(text: string): (r: Result<TextSegment, DecodeError>)
    ensures r == Failure(MissingSeqno) <==> NoSpace(text)
    ensures r.Success? ==> NoSpace(r.value.segtype)
    ensures r.Success? ==> |text| > |r.value.segtype| && text[..|r.value.segtype| + 1] == r.value.segtype + " "
    ensures r.Success? ==> |text| >= |r.value.data| && text[|text| - |r.value.data|..] == r.value.data
    ensures r.Success? ==> r.value.segtype == Split2(text)[0]
    ensures r.Success? ==> ParseInt(Split2(text)[1]) == Some(r.value.seqno)
    ensures r.Success? ==> r.value.data == (if |Split2(text)| > 2 then Split2(text)[2] else "")
  {
    var parts := Split2(text);
    SplitJoin(text);
    if |parts| < 2 then Failure(MissingSeqno)
    else match ParseInt(parts[1])
      case None => Failure(BadSeqno(parts[1]))
      case Some(n) => Success(TextSegment(parts[0], n, if |parts| > 2 then parts[2] else ""))
  }

  /** Encoding then decoding gives back the type, seqno and data, provided the type text
      contains no space (the data may contain any). */
  lemma {:induction false} RoundTrip(segtype: string, seqno: int, data: string)
    requires NoSpace(segtype)
    ensures Decode(Encode(segtype, seqno, data)) == Success(TextSegment(segtype, seqno, data))
  {
    var n := IntText(seqno);
    assert NoSpace(n) by {
      if seqno < 0 { assert n == "-" + NatText(-seqno); }
      var d := NatText(if seqno < 0 then -seqno else seqno);
      assert forall i :: 0 <= i < |d| ==> d[i] != ' ';
    }
    var text := Encode(segtype, seqno, data);
    assert text == segtype + " " + (n + " " + data);
    var rest := n + " " + data;
    SplitAt(segtype, rest);
    assert text[..|segtype|] == segtype;
    assert text[|segtype| + 1..] == rest;
    SplitAt(n, data);
    assert rest[..|n|] == n;
    assert Split2(text) == [segtype, n, data];
    IntTextRoundTrip(seqno);
  }

  /** Splitting `a + " " + b` where `a` has no space cuts right after `a`. */
  lemma {:induction false} SplitAt(a: string, b: string)
    requires NoSpace(a)
    ensures IndexOfSpace(a + " " + b) == Some(|a|)
    ensures (a + " " + b)[|a| + 1..] == b
    decreases |a|
  {
    var s := a + " " + b;
    if a != [] {
      assert s[1..] == a[1..] + " " + b;
      SplitAt(a[1..], b);
    }
  }

  /** A text with a second field but no third decodes with empty data. */
  lemma NoThirdFieldMeansEmptyData(text: string)
    requires Decode(text).Success?
    requires |Split2(text)| == 2
    ensures Decode(text).value.data == ""
  {
  }

  /** A text without a space fails at the missing second field; a second field that does not
      read as an integer fails too. */
  lemma {:induction false} Failures(text: string)
    ensures NoSpace(text) ==> Decode(text) == Failure(MissingSeqno)
    ensures !NoSpace(text) && ParseInt(Split2(text)[1]).None? ==> Decode(text) == Failure(BadSeqno(Split2(text)[1]))
  {
  }
}
