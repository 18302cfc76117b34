/** Lowercase hexadecimal, as printed by Go's `fmt.Sprintf("%x", b)` for a
    byte array: two digits per byte, high nibble first. */
module Hex {
  import opened Text
  import opened Wrappers

  predicate IsLowerHexDigit(c: uint8) {
    (48 <= c <= 57) || (97 <= c <= 102)
  }

  function Digit(v: int): (c: uint8)
    requires 0 <= v < 16
    ensures IsLowerHexDigit(c)
  {
    if v < 10 then 48 + v else 87 + v
  }

  function DigitValue(c: uint8): (v: Option<int>)
    ensures v.Some? ==> 0 <= v.value < 16 && Digit(v.value) == c
  {
    if 48 <= c <= 57 then Some(c - 48)
    else if 97 <= c <= 102 then Some(c - 87)
    else None
  }

  function Encode(b: Bytes): (s: Bytes)
    ensures |s| == 2 * |b|
    ensures forall i :: 0 <= i < |s| ==> IsLowerHexDigit(s[i])
  {
    if |b| == 0 then [] else [Digit(b[0] / 16), Digit(b[0] % 16)] + Encode(b[1..])
  }

  function Decode(s: Bytes): Option<Bytes>
    decreases |s|
  {
    if |s| == 0 then Some([])
    else if |s| == 1 then None
    else
      match (DigitValue(s[0]), DigitValue(s[1]), Decode(s[2..]))
      case (Some(hi), Some(lo), Some(rest)) => Some([hi * 16 + lo] + rest)
      case _ => None
  }

  /** Decoding the hex text of `b` gives back `b`. */
  lemma {:induction false} DecodeEncode(b: Bytes)
    ensures Decode(Encode(b)) == Some(b)
  {
    if |b| > 0 {
      var s := Encode(b);
      assert s[2..] == Encode(b[1..]);
      DecodeEncode(b[1..]);
      assert DigitValue(Digit(b[0] / 16)) == Some(b[0] / 16);
      assert DigitValue(Digit(b[0] % 16)) == Some(b[0] % 16);
      assert b == [b[0]] + b[1..];
    }
  }

  /** Different byte strings print differently. */
  lemma EncodeInjective(x: Bytes, y: Bytes)
    ensures Encode(x) == Encode(y) <==> x == y
  {
    if Encode(x) == Encode(y) {
      DecodeEncode(x);
      DecodeEncode(y);
    }
  }
}
