/** Base64 as defined in RFC 4648: the standard alphabet with `=` padding
    (section 4, Go's `base64.StdEncoding`) and the URL- and filename-safe
    alphabet without padding (section 5, Go's `base64.RawURLEncoding`). */
module Base64 {
  import opened Text
  import opened Wrappers

  datatype Alphabet = Standard | UrlSafe

  type Sextet = x: int | 0 <= x < 64

  /** The padding byte `=`. */
  const Pad: uint8 := 61

  /** The alphabet byte for a 6-bit value (RFC 4648 tables 1 and 2). */
  function Char(a: Alphabet, v: Sextet): (c: uint8)
    ensures c != Pad
  {
    if v < 26 then 65 + v
    else if v < 52 then 97 + (v - 26)
    else if v < 62 then 48 + (v - 52)
    else if v == 62 then (if a == Standard then 43 else 45)
    else (if a == Standard then 47 else 95)
  }

  /** The 6-bit value an alphabet byte stands for; `None` outside the alphabet. */
  function Value(a: Alphabet, c: uint8): (v: Option<Sextet>)
    ensures v.Some? ==> Char(a, v.value) == c
  {
    if 65 <= c <= 90 then Some(c - 65)
    else if 97 <= c <= 122 then Some(c - 97 + 26)
    else if 48 <= c <= 57 then Some(c - 48 + 52)
    else if c == (if a == Standard then 43 else 45) then Some(62)
    else if c == (if a == Standard then 47 else 95) then Some(63)
    else None
  }

  lemma ValueOfChar(a: Alphabet, v: Sextet)
    ensures Value(a, Char(a, v)) == Some(v)
  {
  }

  /** Three bytes as four alphabet bytes. */
  function EncodeQuantum(a: Alphabet, b0: uint8, b1: uint8, b2: uint8): Bytes {
    [ Char(a, b0 / 4), Char(a, (b0 % 4) * 16 + b1 / 16),
      Char(a, (b1 % 16) * 4 + b2 / 64), Char(a, b2 % 64) ]
  }

  /** The encoding of `data`; a final group of one or two bytes gives two or
      three alphabet bytes, followed by `==` or `=` when `padded`. */
  function Encode(a: Alphabet, padded: bool, data: Bytes): (s: Bytes)
    ensures padded ==> |s| == 4 * ((|data| + 2) / 3)
    ensures !padded ==> |s| == (4 * |data| + 2) / 3
    decreases |data|
  {
    if |data| >= 3 then
      EncodeQuantum(a, data[0], data[1], data[2]) + Encode(a, padded, data[3..])
    else if |data| == 2 then
      [Char(a, data[0] / 4), Char(a, (data[0] % 4) * 16 + data[1] / 16), Char(a, (data[1] % 16) * 4)]
      + (if padded then [Pad] else [])
    else if |data| == 1 then
      [Char(a, data[0] / 4), Char(a, (data[0] % 4) * 16)]
      + (if padded then [Pad, Pad] else [])
    else
      []
  }

  /** Go's `base64.StdEncoding.EncodeToString`. */
  function StdEncode(data: Bytes): Bytes {
    Encode(Standard, true, data)
  }

  /** Go's `base64.RawURLEncoding.EncodeToString`. */
  function RawUrlEncode(data: Bytes): Bytes {
    Encode(UrlSafe, false, data)
  }

  /** The byte whose high bits are `hi` and whose low bits, below `scale`, are `lo`. */
  function Join(hi: int, lo: int, scale: int): uint8
    requires scale == 4 || scale == 16 || scale == 64
    requires 0 <= hi < 256 / scale && 0 <= lo < scale
  {
    hi * scale + lo
  }

  /** Splitting a byte at `scale` and joining the parts again is the identity. */
  lemma JoinSplit(b: uint8, scale: int)
    requires scale == 4 || scale == 16 || scale == 64
    ensures 0 <= b / scale < 256 / scale && Join(b / scale, b % scale, scale) == b
  {
  }

  /** Packing `hi` above `lo` and splitting at `scale` recovers both parts. */
  lemma SplitJoin(hi: int, lo: int, scale: int)
    requires scale == 4 || scale == 16 || scale == 64
    requires 0 <= hi < 64 && 0 <= lo < scale
    ensures (hi * scale + lo) / scale == hi && (hi * scale + lo) % scale == lo
  {
  }

  function DecodeQuantum(a: Alphabet, c0: uint8, c1: uint8, c2: uint8, c3: uint8): Option<Bytes> {
    match (Value(a, c0), Value(a, c1), Value(a, c2), Value(a, c3))
    case (Some(v0), Some(v1), Some(v2), Some(v3)) =>
      Some([Join(v0, v1 / 16, 4), Join(v1 % 16, v2 / 4, 16), Join(v2 % 4, v3, 64)])
    case _ => None
  }

  function DecodeTail2(a: Alphabet, c0: uint8, c1: uint8, c2: uint8): Option<Bytes> {
    match (Value(a, c0), Value(a, c1), Value(a, c2))
    case (Some(v0), Some(v1), Some(v2)) => Some([Join(v0, v1 / 16, 4), Join(v1 % 16, v2 / 4, 16)])
    case _ => None
  }

  function DecodeTail1(a: Alphabet, c0: uint8, c1: uint8): Option<Bytes> {
    match (Value(a, c0), Value(a, c1))
    case (Some(v0), Some(v1)) => Some([Join(v0, v1 / 16, 4)])
    case _ => None
  }

  /** Decoding: the inverse of `Encode` (it does not insist that the unused
      low bits of a final group are zero). */
  function Decode(a: Alphabet, padded: bool, s: Bytes): Option<Bytes>
    decreases |s|
  {
    if |s| == 0 then Some([])
    else if padded && |s| == 4 && s[2] == Pad && s[3] == Pad then DecodeTail1(a, s[0], s[1])
    else if padded && |s| == 4 && s[3] == Pad then DecodeTail2(a, s[0], s[1], s[2])
    else if |s| >= 4 then
      match DecodeQuantum(a, s[0], s[1], s[2], s[3])
      case None => None
      case Some(q) =>
        match Decode(a, padded, s[4..])
        case None => None
        case Some(rest) => Some(q + rest)
    else if !padded && |s| == 3 then DecodeTail2(a, s[0], s[1], s[2])
    else if !padded && |s| == 2 then DecodeTail1(a, s[0], s[1])
    else None
  }

  lemma QuantumRoundTrip(a: Alphabet, b0: uint8, b1: uint8, b2: uint8)
    ensures var q := EncodeQuantum(a, b0, b1, b2);
            DecodeQuantum(a, q[0], q[1], q[2], q[3]) == Some([b0, b1, b2])
  {
    var v0, v1, v2, v3 := b0 / 4, (b0 % 4) * 16 + b1 / 16, (b1 % 16) * 4 + b2 / 64, b2 % 64;
    ValueOfChar(a, v0);
    ValueOfChar(a, v1);
    ValueOfChar(a, v2);
    ValueOfChar(a, v3);
    SplitJoin(b0 % 4, b1 / 16, 16);
    SplitJoin(b1 % 16, b2 / 64, 4);
    JoinSplit(b0, 4);
    JoinSplit(b1, 16);
    JoinSplit(b2, 64);
  }

  lemma Tail2RoundTrip(a: Alphabet, b0: uint8, b1: uint8)
    ensures DecodeTail2(a, Char(a, b0 / 4), Char(a, (b0 % 4) * 16 + b1 / 16), Char(a, (b1 % 16) * 4))
         == Some([b0, b1])
  {
    ValueOfChar(a, b0 / 4);
    ValueOfChar(a, (b0 % 4) * 16 + b1 / 16);
    ValueOfChar(a, (b1 % 16) * 4);
    SplitJoin(b0 % 4, b1 / 16, 16);
    SplitJoin(b1 % 16, 0, 4);
    JoinSplit(b0, 4);
    JoinSplit(b1, 16);
  }

  lemma Tail1RoundTrip(a: Alphabet, b0: uint8)
    ensures DecodeTail1(a, Char(a, b0 / 4), Char(a, (b0 % 4) * 16)) == Some([b0])
  {
    ValueOfChar(a, b0 / 4);
    ValueOfChar(a, (b0 % 4) * 16);
    SplitJoin(b0 % 4, 0, 16);
    JoinSplit(b0, 4);
  }

  /** Decoding an encoding gives back the original bytes (both alphabets,
      with and without padding). */
  lemma {:induction false} DecodeEncode(a: Alphabet, padded: bool, data: Bytes)
    ensures Decode(a, padded, Encode(a, padded, data)) == Some(data)
    decreases |data|
  {
    if |data| >= 3 {
      DecodeEncode(a, padded, data[3..]);
      DecodeEncodeQuantum(a, padded, data);
    } else {
      DecodeEncodeShort(a, padded, data);
    }
  }

  /** A full group in front of an encoding that decodes decodes too. */
  lemma DecodeEncodeQuantum(a: Alphabet, padded: bool, data: Bytes)
    requires |data| >= 3
    requires Decode(a, padded, Encode(a, padded, data[3..])) == Some(data[3..])
    ensures Decode(a, padded, Encode(a, padded, data)) == Some(data)
  {
    var s := Encode(a, padded, data);
    var q := EncodeQuantum(a, data[0], data[1], data[2]);
    var rest := Encode(a, padded, data[3..]);
    QuantumRoundTrip(a, data[0], data[1], data[2]);
    assert s[..4] == q && s[4..] == rest;
    assert data == [data[0], data[1], data[2]] + data[3..];
  }

  /** The final group of fewer than three bytes decodes back. */
  lemma DecodeEncodeShort(a: Alphabet, padded: bool, data: Bytes)
    requires |data| < 3
    ensures Decode(a, padded, Encode(a, padded, data)) == Some(data)
  {
    var s := Encode(a, padded, data);
    if |data| == 2 {
      Tail2RoundTrip(a, data[0], data[1]);
      assert s[..3] == [Char(a, data[0] / 4), Char(a, (data[0] % 4) * 16 + data[1] / 16), Char(a, (data[1] % 16) * 4)];
      assert data == [data[0], data[1]];
    } else if |data| == 1 {
      Tail1RoundTrip(a, data[0]);
      assert s[..2] == [Char(a, data[0] / 4), Char(a, (data[0] % 4) * 16)];
      assert data == [data[0]];
    }
  }

  /** Different byte strings have different encodings. */
  lemma EncodeInjective(a: Alphabet, padded: bool, x: Bytes, y: Bytes)
    ensures Encode(a, padded, x) == Encode(a, padded, y) <==> x == y
  {
    if Encode(a, padded, x) == Encode(a, padded, y) {
      DecodeEncode(a, padded, x);
      DecodeEncode(a, padded, y);
    }
  }
}
