/**
 * Lowercase hexadecimal rendering of a byte string, as `hex.EncodeToString`
 * produces it when the manifest verifier renders the artifact's SHA-256 sum,
 * together with a decoder that serves as its inverse.
 */
module Hex {
  import opened Types

  predicate IsLowerHexDigit(c: char) {
    '0' <= c <= '9' || 'a' <= c <= 'f'
  }

  /** A string made only of the sixteen lowercase hexadecimal digits. */
  predicate IsLowerHex(s: string) {
    forall i :: 0 <= i < |s| ==> IsLowerHexDigit(s[i])
  }

  /** The digit for a nibble; letters are lowercase. */
  function Digit(n: nat): (c: char)
    requires n < 16
    ensures IsLowerHexDigit(c)
  {
    if n < 10 then ('0' as int + n) as char else ('a' as int + n - 10) as char
  }

  /** The nibble a lowercase digit stands for. */
  function DigitValue(c: char): (n: nat)
    requires IsLowerHexDigit(c)
    ensures n < 16 && Digit(n) == c
  {
    if c <= '9' then c as int - '0' as int else c as int - 'a' as int + 10
  }

  /** Two digits per byte, high nibble first. */
  function Encode(b: Bytes): (s: string)
    ensures |s| == 2 * |b|
  {
    if b == [] then [] else [Digit(b[0] / 16), Digit(b[0] % 16)] + Encode(b[1..])
  }

  /** Reads pairs of lowercase digits back into bytes; anything else is None. */
  function Decode(s: string): (r: Option<Bytes>)
    ensures r.Some? ==> |s| == 2 * |r.value|
  {
    if s == [] then Some([])
    else if |s| < 2 || !IsLowerHexDigit(s[0]) || !IsLowerHexDigit(s[1]) then None
    else match Decode(s[2..])
      case None => None
      case Some(rest) => Some([DigitValue(s[0]) * 16 + DigitValue(s[1])] + rest)
  }

  lemma {:induction false} EncodeIsLowerHex(b: Bytes)
    ensures IsLowerHex(Encode(b))
  {
    if b != [] {
      EncodeIsLowerHex(b[1..]);
      var s := Encode(b);
      assert s == [Digit(b[0] / 16), Digit(b[0] % 16)] + Encode(b[1..]);
      forall i | 0 <= i < |s| ensures IsLowerHexDigit(s[i]) {
        if i >= 2 {
          assert s[i] == Encode(b[1..])[i - 2];
        }
      }
    }
  }

  /** Decoding undoes encoding, so no two byte strings share a rendering. */
  lemma {:induction false} DecodeEncode(b: Bytes)
    ensures Decode(Encode(b)) == Some(b)
  {
    if b != [] {
      DecodeEncode(b[1..]);
      var s := Encode(b);
      assert s[2..] == Encode(b[1..]);
      var hi, lo := b[0] / 16, b[0] % 16;
      assert DigitValue(Digit(hi)) == hi;
      assert DigitValue(Digit(lo)) == lo;
      assert [b[0]] + b[1..] == b;
    }
  }

  lemma EncodeInjective(a: Bytes, b: Bytes)
    requires Encode(a) == Encode(b)
    ensures a == b
  {
    DecodeEncode(a);
    DecodeEncode(b);
  }
}
