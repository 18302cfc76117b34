/** Go strings and byte slices. A Go `string` is an immutable sequence of
    bytes and `[]byte(s)` / `string(b)` copy those bytes unchanged, so both are
    modelled by the one type `Bytes`. */
module Text {

  type uint8 = x: int | 0 <= x < 256

  type Bytes = seq<uint8>

  /** The bytes of an ASCII literal. Every literal in the model is ASCII, for
      which this is exactly its UTF-8 encoding. */
  function Lit(s: string): (b: Bytes)
    ensures |b| == |s|
  {
    seq(|s|, i requires 0 <= i < |s| => (s[i] as int) % 256)
  }

  /** ASCII white space as recognised by Go's `unicode.IsSpace`:
      tab, newline, vertical tab, form feed, carriage return and space. */
  predicate IsSpace(c: uint8) {
    c == 9 || c == 10 || c == 11 || c == 12 || c == 13 || c == 32
  }

  /** `strings.TrimSpace` restricted to ASCII white space: the longest slice
      of `s` that neither starts nor ends with white space, obtained by
      dropping only white space from both ends. */
  function TrimSpace(s: Bytes): (t: Bytes)
    ensures |t| > 0 ==> !IsSpace(t[0]) && !IsSpace(t[|t| - 1])
    ensures exists i, j ::
      && 0 <= i <= j <= |s| && t == s[i..j]
      && (forall k :: 0 <= k < i ==> IsSpace(s[k]))
      && (forall k :: j <= k < |s| ==> IsSpace(s[k]))
  {
    var i := FirstNonSpace(s, 0);
    var j := EndOfNonSpace(s, i, |s|);
    s[i..j]
  }

  /** The first index at or after `from` that holds a non-space byte, or `|s|`. */
  function FirstNonSpace(s: Bytes, from: nat): (i: nat)
    requires from <= |s|
    ensures from <= i <= |s|
    ensures forall k :: from <= k < i ==> IsSpace(s[k])
    ensures i < |s| ==> !IsSpace(s[i])
    decreases |s| - from
  {
    if from < |s| && IsSpace(s[from]) then FirstNonSpace(s, from + 1) else from
  }

  /** The least `j` with `lo <= j <= hi` such that `s[j..hi]` is all white space. */
  function EndOfNonSpace(s: Bytes, lo: nat, hi: nat): (j: nat)
    requires lo <= hi <= |s|
    ensures lo <= j <= hi
    ensures forall k :: j <= k < hi ==> IsSpace(s[k])
    ensures j > lo ==> !IsSpace(s[j - 1])
    decreases hi
  {
    if hi > lo && IsSpace(s[hi - 1]) then EndOfNonSpace(s, lo, hi - 1) else hi
  }

  /** `strings.ContainsAny(s, chars)`: some byte of `s` is one of `chars`. */
  predicate ContainsAny(s: Bytes, chars: Bytes) {
    exists i :: 0 <= i < |s| && s[i] in chars
  }

  predicate HasPrefix(s: Bytes, prefix: Bytes) {
    |prefix| <= |s| && s[..|prefix|] == prefix
  }
}
