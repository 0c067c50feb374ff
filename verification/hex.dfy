/** Lower-case hexadecimal text of bytes, two digits per byte, as written by
    `Array.from(bytes, b => b.toString(16).padStart(2, '0')).join('')`. */
module Hex {
  import opened Wrappers
  import opened Bytes

  predicate IsLowerHexDigit(c: char)
  {
    '0' <= c <= '9' || 'a' <= c <= 'f'
  }

  predicate IsLowerHex(s: string)
  {
    forall i :: 0 <= i < |s| ==> IsLowerHexDigit(s[i])
  }

  /** The value 0..15 of a lower-case hex digit. */
  function DigitValue(c: char): (v: nat)
    requires IsLowerHexDigit(c)
    ensures v < 16 && DigitChar(v) == c
  {
    if c <= '9' then (c as int) - ('0' as int) else (c as int) - ('a' as int) + 10
  }

  /** The lower-case hex digit of a value 0..15. */
  function DigitChar(v: nat): (c: char)
    requires v < 16
    ensures IsLowerHexDigit(c)
  {
    if v < 10 then (('0' as int) + v) as char else (('a' as int) + v - 10) as char
  }

  lemma DigitRoundTrip(v: nat)
    requires v < 16
    ensures DigitValue(DigitChar(v)) == v
  {
  }

  /** `b.toString(16).padStart(2, '0')`. */
  function ByteToHex(b: byte): (r: string)
    ensures |r| == 2 && IsLowerHex(r)
    ensures 16 * DigitValue(r[0]) + DigitValue(r[1]) == b
  {
    DigitRoundTrip(b / 16);
    DigitRoundTrip(b % 16);
    [DigitChar(b / 16), DigitChar(b % 16)]
  }

  /** The hex text of a byte string. */
  function Encode(bs: seq<byte>): (r: string)
    ensures |r| == 2 * |bs|
    ensures IsLowerHex(r)
  {
    if |bs| == 0 then "" else ByteToHex(bs[0]) + Encode(bs[1..])
  }

  /** Reads hex text back into bytes; `None` for odd length or a character that is not a lower-case hex digit. */
  function Decode(s: string): Option<seq<byte>>
  {
    if |s| == 0 then Some([])
    else if |s| < 2 || !IsLowerHexDigit(s[0]) || !IsLowerHexDigit(s[1]) then None
    else
      match Decode(s[2..])
      case None => None
      case Some(rest) => Some([16 * DigitValue(s[0]) + DigitValue(s[1])] + rest)
  }

  /** Decoding the hex text recovers the bytes exactly. */
  lemma {:induction false} DecodeEncode(bs: seq<byte>)
    ensures Decode(Encode(bs)) == Some(bs)
  {
    if |bs| > 0 {
      var s := Encode(bs);
      assert s[2..] == Encode(bs[1..]);
      DecodeEncode(bs[1..]);
      assert [16 * DigitValue(s[0]) + DigitValue(s[1])] + bs[1..] == bs;
    }
  }

  /** Hence the hex text is a reversible encoding, not a digest: distinct bytes give distinct text. */
  lemma EncodeInjective(a: seq<byte>, b: seq<byte>)
    ensures Encode(a) == Encode(b) <==> a == b
  {
    if Encode(a) == Encode(b) {
      DecodeEncode(a);
      DecodeEncode(b);
    }
  }
}
