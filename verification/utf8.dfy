/** UTF-8, the encoding `TextEncoder.encode` produces, of text made of Unicode scalar values
    (a Dafny `char`). */
module Utf8 {
  import opened Wrappers
  import opened Bytes

  /** A code point that is a Unicode scalar value (not a surrogate, at most U+10FFFF). */
  predicate IsScalar(n: int)
  {
    (0 <= n < 0xD800) || (0xE000 <= n < 0x11_0000)
  }

  predicate IsContinuation(b: byte)
  {
    0x80 <= b < 0xC0
  }

  /** The one to four bytes of one scalar value. */
  function EncodeChar(c: char): (r: seq<byte>)
    ensures 1 <= |r| <= 4
    ensures (c as int) < 0x80 <==> |r| == 1
  {
    var n := c as int;
    if n < 0x80 then [n]
    else if n < 0x800 then [0xC0 + n / 64, 0x80 + n % 64]
    else if n < 0x1_0000 then [0xE0 + n / 4096, 0x80 + (n / 64) % 64, 0x80 + n % 64]
    else [0xF0 + n / 262144, 0x80 + (n / 4096) % 64, 0x80 + (n / 64) % 64, 0x80 + n % 64]
  }

  /** `new TextEncoder().encode(s)`. */
  function Encode(s: string): (r: seq<byte>)
    ensures |s| <= |r| <= 4 * |s|
  {
    if |s| == 0 then [] else EncodeChar(s[0]) + Encode(s[1..])
  }

  /** How many bytes the sequence starting with lead byte `b` occupies; 0 when `b` cannot lead one. */
  function SequenceLength(b: byte): nat
  {
    if b < 0x80 then 1
    else if b < 0xC0 then 0
    else if b < 0xE0 then 2
    else if b < 0xF0 then 3
    else if b < 0xF8 then 4
    else 0
  }

  /** The code point carried by one byte sequence of the length its lead byte announces. */
  function CodePoint(bs: seq<byte>): int
    requires 1 <= |bs| <= 4 && SequenceLength(bs[0]) == |bs|
  {
    var b := seq(|bs|, i requires 0 <= i < |bs| => bs[i] as int);
    if |bs| == 1 then b[0]
    else if |bs| == 2 then (b[0] - 0xC0) * 64 + (b[1] - 0x80)
    else if |bs| == 3 then (b[0] - 0xE0) * 4096 + (b[1] - 0x80) * 64 + (b[2] - 0x80)
    else (b[0] - 0xF0) * 262144 + (b[1] - 0x80) * 4096 + (b[2] - 0x80) * 64 + (b[3] - 0x80)
  }

  /** Reads UTF-8 back into scalar values; `None` for a malformed sequence. */
  function Decode(bs: seq<byte>): Option<string>
  {
    if |bs| == 0 then Some([])
    else
      var k := SequenceLength(bs[0]);
      if k == 0 || |bs| < k || exists i :: 1 <= i < k && !IsContinuation(bs[i]) then None
      else
        var n := CodePoint(bs[..k]);
        if !IsScalar(n) then None
        else
          match Decode(bs[k..])
          case None => None
          case Some(rest) => Some([n as char] + rest)
  }

  lemma Split64(n: nat)
    ensures n == (n / 64) * 64 + n % 64
    ensures n / 4096 == (n / 64) / 64
    ensures n / 262144 == (n / 4096) / 64
  {
  }

  /** One encoded scalar value is a well-formed sequence of its own length and carries that value. */
  lemma DecodeEncodeChar(c: char)
    ensures var r := EncodeChar(c);
            SequenceLength(r[0]) == |r|
            && (forall i :: 1 <= i < |r| ==> IsContinuation(r[i]))
            && CodePoint(r) == c as int
  {
    var n := c as int;
    Split64(n);
    Split64(n / 64);
    Split64(n / 4096);
  }

  /** Decoding the encoding recovers the string: the encoding is injective. */
  lemma {:induction false} DecodeEncode(s: string)
    ensures Decode(Encode(s)) == Some(s)
  {
    if |s| > 0 {
      var head := EncodeChar(s[0]);
      var bs := Encode(s);
      assert bs == head + Encode(s[1..]);
      DecodeEncodeChar(s[0]);
      var k := |head|;
      assert bs[..k] == head;
      assert bs[k..] == Encode(s[1..]);
      assert SequenceLength(bs[0]) == k;
      assert !(exists i :: 1 <= i < k && !IsContinuation(bs[i]));
      DecodeEncode(s[1..]);
      assert [s[0]] + s[1..] == s;
    }
  }

  lemma EncodeInjective(a: string, b: string)
    ensures Encode(a) == Encode(b) <==> a == b
  {
    if Encode(a) == Encode(b) {
      DecodeEncode(a);
      DecodeEncode(b);
    }
  }

  /** Encoding distributes over concatenation. */
  lemma {:induction false} EncodeAppend(a: string, b: string)
    ensures Encode(a + b) == Encode(a) + Encode(b)
  {
    if |a| > 0 {
      assert (a + b)[0] == a[0];
      assert (a + b)[1..] == a[1..] + b;
      EncodeAppend(a[1..], b);
      assert Encode(a + b) == EncodeChar(a[0]) + (Encode(a[1..]) + Encode(b));
    } else {
      assert a + b == b;
    }
  }
}
