/** encoding/hex: lower-case base 16 (RFC 4648 section 8), and the digests that are written in it. */
module Hex {
  newtype Byte = x: int | 0 <= x < 256

  /** SHA-256 seen from outside: any function with a 32-byte result. */
  type Digest = h: string -> seq<Byte> | forall s :: |h(s)| == 32
    witness (s: string) => seq(32, i => 0 as Byte)

  const DIGITS := "0123456789abcdef"

  /** hex.EncodeToString */
  function Encode(bytes: seq<Byte>): (s: string)
    ensures |s| == 2 * |bytes|
  {
    if bytes == [] then ""
    else [DIGITS[bytes[0] as int / 16], DIGITS[bytes[0] as int % 16]] + Encode(bytes[1..])
  }

  predicate IsHex(s: string) {
    forall i :: 0 <= i < |s| ==> '0' <= s[i] <= '9' || 'a' <= s[i] <= 'f'
  }

  /** Each byte takes two places, the upper half first. */
  lemma {:induction false} EncodeAt(bytes: seq<Byte>, i: nat)
    requires i < |bytes|
    ensures Encode(bytes)[2 * i] == "0123456789abcdef"[bytes[i] as int / 16]
    ensures Encode(bytes)[2 * i + 1] == "0123456789abcdef"[bytes[i] as int % 16]
  {
    if i > 0 {
      EncodeAt(bytes[1..], i - 1);
    }
  }

  lemma {:induction false} EncodeIsHex(bytes: seq<Byte>)
    ensures IsHex(Encode(bytes))
  {
    if bytes != [] {
      EncodeIsHex(bytes[1..]);
    }
  }

  function DigitValue(c: char): (v: int)
    ensures 0 <= v < 16
  {
    if '0' <= c <= '9' then c as int - '0' as int
    else if 'a' <= c <= 'f' then c as int - 'a' as int + 10
    else 0
  }

  function DecodePair(c: char, d: char): Byte {
    (16 * DigitValue(c) + DigitValue(d)) as Byte
  }

  function Decode(s: string): seq<Byte> {
    if |s| < 2 then [] else [DecodePair(s[0], s[1])] + Decode(s[2..])
  }

  lemma PairRoundTrip(b: Byte)
    ensures DecodePair(DIGITS[b as int / 16], DIGITS[b as int % 16]) == b
  {
    DigitRoundTrip(b as int / 16);
    DigitRoundTrip(b as int % 16);
  }

  /** Two byte strings never share an encoding: decoding recovers the bytes. */
  lemma {:induction false} DecodeInvertsEncode(bytes: seq<Byte>)
    ensures Decode(Encode(bytes)) == bytes
  {
    if bytes != [] {
      hide DecodePair;
      PairRoundTrip(bytes[0]);
      assert Encode(bytes)[2..] == Encode(bytes[1..]);
      DecodeInvertsEncode(bytes[1..]);
    }
  }

  lemma EncodeInjective(a: seq<Byte>, b: seq<Byte>)
    requires Encode(a) == Encode(b)
    ensures a == b
  {
    DecodeInvertsEncode(a);
    DecodeInvertsEncode(b);
  }

  lemma DigitRoundTrip(v: int)
    requires 0 <= v < 16
    ensures DigitValue(DIGITS[v]) == v
  {
  }
}
