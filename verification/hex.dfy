/**
 * Node's `hex` encoding of buffers: `buf.toString('hex')` writes two
 * lower-case digits per byte; `Buffer.from(s, 'hex')` reads digit pairs and
 * silently stops at the first pair that is not two hex digits (an odd last
 * digit is dropped the same way).
 */
module Hex {

  newtype byte = x: int | 0 <= x < 256

  predicate IsHexDigit(c: char) {
    '0' <= c <= '9' || 'a' <= c <= 'f' || 'A' <= c <= 'F'
  }

  predicate IsLowerHexDigit(c: char) {
    '0' <= c <= '9' || 'a' <= c <= 'f'
  }

  /** `/^[0-9a-fA-F]{n}$/` */
  predicate IsHexString(s: string, n: nat) {
    |s| == n && forall i :: 0 <= i < |s| ==> IsHexDigit(s[i])
  }

  function DigitValue(c: char): (v: int)
    requires IsHexDigit(c)
    ensures 0 <= v < 16
  {
    if '0' <= c <= '9' then c as int - '0' as int
    else if 'a' <= c <= 'f' then c as int - 'a' as int + 10
    else c as int - 'A' as int + 10
  }

  function DigitChar(v: int): (c: char)
    requires 0 <= v < 16
    ensures IsLowerHexDigit(c) && IsHexDigit(c) && DigitValue(c) == v
  {
    if v < 10 then ('0' as int + v) as char else ('a' as int + v - 10) as char
  }

  /** The lower-case spelling of a hex digit. */
  function LowerDigit(c: char): (d: char)
    requires IsHexDigit(c)
    ensures IsLowerHexDigit(d) && DigitValue(d) == DigitValue(c)
  {
    DigitChar(DigitValue(c))
  }

  function EncodeByte(b: byte): (s: string)
    ensures |s| == 2 && IsLowerHexDigit(s[0]) && IsLowerHexDigit(s[1])
  {
    [DigitChar(b as int / 16), DigitChar(b as int % 16)]
  }

  /** `Buffer.prototype.toString('hex')` */
  function Encode(bs: seq<byte>): (s: string)
    ensures |s| == 2 * |bs|
    ensures forall i :: 0 <= i < |s| ==> IsLowerHexDigit(s[i])
  {
    if bs == [] then [] else EncodeByte(bs[0]) + Encode(bs[1..])
  }

  /** `Buffer.from(s, 'hex')`: digit pairs up to the first pair that is not two hex digits. */
  function DecodeLenient(s: string): (bs: seq<byte>)
    ensures 2 * |bs| <= |s|
  {
    if |s| < 2 || !IsHexDigit(s[0]) || !IsHexDigit(s[1]) then []
    else [(DigitValue(s[0]) * 16 + DigitValue(s[1])) as byte] + DecodeLenient(s[2..])
  }

  /** Decoding what was encoded gives the bytes back. */
  lemma {:induction false} DecodeEncode(bs: seq<byte>)
    ensures DecodeLenient(Encode(bs)) == bs
  {
    if bs != [] {
      var s := Encode(bs);
      assert s == EncodeByte(bs[0]) + Encode(bs[1..]);
      assert s[2..] == Encode(bs[1..]);
      DecodeEncode(bs[1..]);
    }
  }

  lemma EncodeInjective(a: seq<byte>, b: seq<byte>)
    requires Encode(a) == Encode(b)
    ensures a == b
  {
    DecodeEncode(a);
    DecodeEncode(b);
  }

  /** A string of `2n` hex digits decodes to `n` bytes that encode back to the same digits in lower case. */
  lemma {:induction false} EncodeDecodeHexString(s: string, n: nat)
    requires IsHexString(s, 2 * n)
    ensures |DecodeLenient(s)| == n
    ensures Encode(DecodeLenient(s)) == seq(|s|, i requires 0 <= i < |s| => LowerDigit(s[i]))
  {
    if n > 0 {
      assert IsHexString(s[2..], 2 * (n - 1));
      EncodeDecodeHexString(s[2..], n - 1);
      var v := DigitValue(s[0]) * 16 + DigitValue(s[1]);
      assert v / 16 == DigitValue(s[0]) && v % 16 == DigitValue(s[1]);
      assert DecodeLenient(s) == [v as byte] + DecodeLenient(s[2..]);
    }
  }
}
