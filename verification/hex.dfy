/** Hexadecimal digits: the character classes the hash check accepts, and
    `hex.EncodeToString`, which renders a digest for comparison. */
module Hex {

  type Byte = b: int | 0 <= b < 256

  /** A hexadecimal digit in either case. */
  predicate IsHexDigit(c: char)
  {
    ('0' <= c <= '9') || ('a' <= c <= 'f') || ('A' <= c <= 'F')
  }

  /** A hexadecimal digit as `hex.EncodeToString` writes it. */
  predicate IsLowerHexDigit(c: char)
  {
    ('0' <= c <= '9') || ('a' <= c <= 'f')
  }

  predicate IsLowerHex(s: string)
  {
    forall i :: 0 <= i < |s| ==> IsLowerHexDigit(s[i])
  }

  /** The lower-case digit for a nibble. */
  function NibbleChar(n: int): (c: char)
    requires 0 <= n < 16
    ensures IsLowerHexDigit(c)
  {
    if n < 10 then ('0' as int + n) as char else ('a' as int + n - 10) as char
  }

  /** The nibble a lower-case digit stands for. */
  function NibbleValue(c: char): (n: int)
    requires IsLowerHexDigit(c)
    ensures 0 <= n < 16
    ensures NibbleChar(n) == c
  {
    if c <= '9' then c as int - '0' as int else c as int - 'a' as int + 10
  }

  /** `hex.EncodeToString`: two lower-case digits per byte, high nibble first. */
  function Encode(b: seq<Byte>): (s: string)
    ensures |s| == 2 * |b|
    ensures IsLowerHex(s)
  {
    if |b| == 0 then ""
    else [NibbleChar(b[0] / 16), NibbleChar(b[0] % 16)] + Encode(b[1..])
  }

  /** The inverse of `Encode` on its image: pairs of digits back to bytes. */
  function Decode(s: string): (b: seq<Byte>)
    requires |s| % 2 == 0
    requires IsLowerHex(s)
    ensures 2 * |b| == |s|
  {
    if |s| == 0 then []
    else [NibbleValue(s[0]) * 16 + NibbleValue(s[1])] + Decode(s[2..])
  }

  /** Decoding an encoding gives the bytes back. */
  lemma {:induction false} DecodeEncode(b: seq<Byte>)
    ensures Decode(Encode(b)) == b
  {
    if |b| != 0 {
      var s := Encode(b);
      var hi, lo := b[0] / 16, b[0] % 16;
      assert s[0] == NibbleChar(hi) && s[1] == NibbleChar(lo);
      assert NibbleValue(NibbleChar(hi)) == hi;
      assert NibbleValue(NibbleChar(lo)) == lo;
      assert s[2..] == Encode(b[1..]);
      DecodeEncode(b[1..]);
    }
  }

  /** Distinct byte strings have distinct encodings, so comparing the
      encodings compares the digests. */
  lemma EncodeInjective(a: seq<Byte>, b: seq<Byte>)
    ensures Encode(a) == Encode(b) <==> a == b
  {
    if Encode(a) == Encode(b) {
      DecodeEncode(a);
      DecodeEncode(b);
    }
  }
}
