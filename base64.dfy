/** The padded base64 encoding with the standard alphabet (section 4 of
    RFC 4648) that the wire format uses for both of its binary segments.

    Encoding turns every three octets into four characters of a 64-letter
    alphabet; a final group of one or two octets is written as two or three
    characters followed by one or two '=' pad characters. Decoding accepts
    exactly such text; like Go's non-strict standard decoder, it ignores the
    unused low bits of the last character before the padding. */
module Base64 {
  import opened Wrappers

  /** A value encoded by one character: six bits. */
  type Sextet = x: int | 0 <= x < 64

  const Pad: char := '='

  function IndexToChar(i: Sextet): (c: char)
  {
    if i < 26 then ('A' as int + i) as char
    else if i < 52 then ('a' as int + (i - 26)) as char
    else if i < 62 then ('0' as int + (i - 52)) as char
    else if i == 62 then '+'
    else '/'
  }

  /** The alphabet position of a character, or None for a character outside
      the alphabet (the pad character included). */
  function CharToIndex(c: char): (r: Option<Sextet>)
    ensures r.Some? ==> IndexToChar(r.value) == c
  {
    if 'A' <= c <= 'Z' then Some(c as int - 'A' as int)
    else if 'a' <= c <= 'z' then Some(c as int - 'a' as int + 26)
    else if '0' <= c <= '9' then Some(c as int - '0' as int + 52)
    else if c == '+' then Some(62)
    else if c == '/' then Some(63)
    else None
  }

  lemma CharToIndexInverse(i: Sextet)
    ensures CharToIndex(IndexToChar(i)) == Some(i)
  {
  }

  /** A character that can occur in encoded text. */
  predicate IsEncodingChar(c: char)
  {
    c == Pad || CharToIndex(c).Some?
  }

  /** The four characters of a full three-octet group. */
  function EncodeQuantum(b0: byte, b1: byte, b2: byte): (s: string)
  {
    [IndexToChar(b0 / 4), IndexToChar((b0 % 4) * 16 + b1 / 16),
     IndexToChar((b1 % 16) * 4 + b2 / 64), IndexToChar(b2 % 64)]
  }

  function Encode(b: Bytes): (s: string)
    ensures |s| == (|b| + 2) / 3 * 4
    decreases |b|
  {
    if |b| == 0 then ""
    else if |b| == 1 then
      [IndexToChar(b[0] / 4), IndexToChar((b[0] % 4) * 16), Pad, Pad]
    else if |b| == 2 then
      [IndexToChar(b[0] / 4), IndexToChar((b[0] % 4) * 16 + b[1] / 16),
       IndexToChar((b[1] % 16) * 4), Pad]
    else
      EncodeQuantum(b[0], b[1], b[2]) + Encode(b[3..])
  }

  /** Decodes one group of four characters. Only the last group (`last`) may
      carry padding, and then it yields one or two octets. */
  function DecodeQuantum(q: string, last: bool): (r: Option<Bytes>)
    requires |q| == 4
    ensures r.Some? ==> 1 <= |r.value| <= 3
    ensures r.Some? && !last ==> |r.value| == 3
  {
    var c0, c1, c2, c3 := CharToIndex(q[0]), CharToIndex(q[1]), CharToIndex(q[2]), CharToIndex(q[3]);
    if c0.None? || c1.None? then None
    else if c2.Some? && c3.Some? then
      Some([c0.value * 4 + c1.value / 16,
            (c1.value % 16) * 16 + c2.value / 4,
            (c2.value % 4) * 64 + c3.value])
    else if !last then None
    else if q[2] == Pad && q[3] == Pad then
      Some([c0.value * 4 + c1.value / 16])
    else if c2.Some? && q[3] == Pad then
      Some([c0.value * 4 + c1.value / 16, (c1.value % 16) * 16 + c2.value / 4])
    else None
  }

  function Decode(s: string): (r: Option<Bytes>)
    ensures r.Some? ==> |s| == (|r.value| + 2) / 3 * 4
    decreases |s|
  {
    if |s| == 0 then Some([])
    else if |s| < 4 then None
    else if |s| == 4 then DecodeQuantum(s, true)
    else
      match DecodeQuantum(s[..4], false)
      case None => None
      case Some(q) =>
        match Decode(s[4..])
        case None => None
        case Some(rest) => Some(q + rest)
  }

  lemma SplitDivMod(hi: int, lo: int, m: int)
    requires m == 4 || m == 16
    requires 0 <= lo < m && 0 <= hi
    ensures (hi * m + lo) / m == hi && (hi * m + lo) % m == lo
  {
    if m == 4 {
      assert hi * m + lo == hi * 4 + lo;
    } else {
      assert hi * m + lo == hi * 16 + lo;
    }
  }

  lemma QuantumRoundTrip(b0: byte, b1: byte, b2: byte, last: bool)
    ensures DecodeQuantum(EncodeQuantum(b0, b1, b2), last) == Some([b0, b1, b2])
  {
    var q := EncodeQuantum(b0, b1, b2);
    CharToIndexInverse(b0 / 4);
    CharToIndexInverse((b0 % 4) * 16 + b1 / 16);
    CharToIndexInverse((b1 % 16) * 4 + b2 / 64);
    CharToIndexInverse(b2 % 64);
    SplitDivMod(b0 % 4, b1 / 16, 16);
    SplitDivMod(b1 % 16, b2 / 64, 4);
  }

  lemma OneOctetRoundTrip(b0: byte)
    ensures Decode(Encode([b0])) == Some([b0])
  {
    CharToIndexInverse(b0 / 4);
    CharToIndexInverse((b0 % 4) * 16);
    SplitDivMod(b0 % 4, 0, 16);
    var q := Encode([b0]);
    assert q[2] == Pad && q[3] == Pad;
  }

  lemma TwoOctetRoundTrip(b0: byte, b1: byte)
    ensures Decode(Encode([b0, b1])) == Some([b0, b1])
  {
    CharToIndexInverse(b0 / 4);
    CharToIndexInverse((b0 % 4) * 16 + b1 / 16);
    CharToIndexInverse((b1 % 16) * 4);
    SplitDivMod(b0 % 4, b1 / 16, 16);
    SplitDivMod(b1 % 16, 0, 4);
    var q := Encode([b0, b1]);
    assert q[3] == Pad;
  }

  lemma {:induction false} EncodeDecode(b: Bytes)
    ensures Decode(Encode(b)) == Some(b)
    decreases |b|
  {
    if |b| == 0 {
    } else if |b| == 1 {
      OneOctetRoundTrip(b[0]);
      assert b == [b[0]];
    } else if |b| == 2 {
      TwoOctetRoundTrip(b[0], b[1]);
      assert b == [b[0], b[1]];
    } else {
      var s := Encode(b);
      var q := EncodeQuantum(b[0], b[1], b[2]);
      assert s == q + Encode(b[3..]);
      assert b == [b[0], b[1], b[2]] + b[3..];
      if |b| == 3 {
        QuantumRoundTrip(b[0], b[1], b[2], true);
        assert b[3..] == [] && b == [b[0], b[1], b[2]];
        assert s == q;
        assert Decode(s) == DecodeQuantum(q, true);
      } else {
        QuantumRoundTrip(b[0], b[1], b[2], false);
        EncodeDecode(b[3..]);
        assert s[..4] == q && s[4..] == Encode(b[3..]);
      }
    }
  }

  /** Octet strings whose length is a multiple of three encode independently
      of what follows them. */
  lemma {:induction false} EncodeAppend(a: Bytes, b: Bytes)
    requires |a| % 3 == 0
    ensures Encode(a + b) == Encode(a) + Encode(b)
    decreases |a|
  {
    if |a| == 0 {
      assert a + b == b;
    } else {
      assert (a + b)[3..] == a[3..] + b;
      EncodeAppend(a[3..], b);
    }
  }

  /** Encoded text uses only the alphabet and the pad character. */
  lemma {:induction false} EncodeAlphabet(b: Bytes)
    ensures forall i :: 0 <= i < |Encode(b)| ==> IsEncodingChar(Encode(b)[i])
    decreases |b|
  {
    if |b| >= 3 {
      EncodeAlphabet(b[3..]);
      var q := EncodeQuantum(b[0], b[1], b[2]);
      CharToIndexInverse(b[0] / 4);
      CharToIndexInverse((b[0] % 4) * 16 + b[1] / 16);
      CharToIndexInverse((b[1] % 16) * 4 + b[2] / 64);
      CharToIndexInverse(b[2] % 64);
      assert forall i :: 0 <= i < 4 ==> IsEncodingChar(q[i]);
    } else if |b| == 2 {
      CharToIndexInverse(b[0] / 4);
      CharToIndexInverse((b[0] % 4) * 16 + b[1] / 16);
      CharToIndexInverse((b[1] % 16) * 4);
    } else if |b| == 1 {
      CharToIndexInverse(b[0] / 4);
      CharToIndexInverse((b[0] % 4) * 16);
    }
  }
}
