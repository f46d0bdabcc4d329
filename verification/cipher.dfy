/**
 * Stand-ins for the cryptographic primitives the credential code calls:
 * SHA-256 (a 32-byte digest of a string) and AES-256-CBC with PKCS#7
 * padding over the UTF-8 bytes of a string.
 *
 * They are not the real algorithms. They keep what the code around them
 * depends on: keys are 32 bytes and IVs 16, ciphertext is a non-empty whole
 * number of 16-byte blocks, decryption rejects a length that is not a whole
 * number of blocks and a bad padding, and decrypting with the key and IV
 * that encrypted gives back the plaintext.
 */
module Cipher {
  import opened Wrappers
  import opened Hex

  const KEY_LENGTH: nat := 32
  const IV_LENGTH: nat := 16
  const BLOCK_SIZE: nat := 16

  type Key = k: seq<byte> | |k| == KEY_LENGTH witness seq(32, _ => 0)
  type Iv = v: seq<byte> | |v| == IV_LENGTH witness seq(16, _ => 0)

  /** Stand-in for `crypto.createHash('sha256').update(s).digest()`: some 32 bytes determined by `s`. */
  function Sha256(s: string): Key {
    seq(KEY_LENGTH, i requires 0 <= i < KEY_LENGTH => ((CharSum(s) + (i + 1) * |s|) % 256) as byte)
  }

  function CharSum(s: string): nat {
    if s == [] then 0 else s[0] as nat + CharSum(s[1..])
  }

  /* ---- text to bytes (stands in for UTF-8: three bytes per code point) ---- */

  const REPLACEMENT_CHAR: char := '\U{FFFD}'

  function EncodeChar(c: char): (bs: seq<byte>)
    ensures |bs| == 3
  {
    var n := c as int;
    [(n / 65536) as byte, (n / 256 % 256) as byte, (n % 256) as byte]
  }

  /** One code point from three bytes; a value that is not a Unicode scalar value decodes as U+FFFD. */
  function DecodeChar(b0: byte, b1: byte, b2: byte): char {
    var n := b0 as int * 65536 + b1 as int * 256 + b2 as int;
    if n < 0xD800 || 0xE000 <= n <= 0x10FFFF then n as char else REPLACEMENT_CHAR
  }

  function EncodeText(s: string): (bs: seq<byte>)
    ensures |bs| == 3 * |s|
  {
    if s == [] then [] else EncodeChar(s[0]) + EncodeText(s[1..])
  }

  /** Lenient decoding, as `decipher.final('utf8')` is: malformed input yields U+FFFD, never an error. */
  function DecodeText(bs: seq<byte>): string {
    if |bs| == 0 then ""
    else if |bs| < 3 then [REPLACEMENT_CHAR]
    else [DecodeChar(bs[0], bs[1], bs[2])] + DecodeText(bs[3..])
  }

  lemma {:induction false} DecodeEncodeText(s: string)
    ensures DecodeText(EncodeText(s)) == s
  {
    if s != [] {
      var bs := EncodeText(s);
      assert bs == EncodeChar(s[0]) + EncodeText(s[1..]);
      assert bs[3..] == EncodeText(s[1..]);
      DecodeEncodeText(s[1..]);
    }
  }

  /* ---- PKCS#7 padding to 16-byte blocks ---- */

  function Pad(m: seq<byte>): (p: seq<byte>)
    ensures |p| % BLOCK_SIZE == 0 && |m| < |p| <= |m| + BLOCK_SIZE
    ensures p[..|m|] == m
  {
    var k := BLOCK_SIZE - |m| % BLOCK_SIZE;
    m + seq(k, _ => k as byte)
  }

  /** Strips PKCS#7 padding; `None` is OpenSSL's "bad decrypt". */
  function Unpad(p: seq<byte>): (m: Option<seq<byte>>)
    ensures m.Some? ==> |m.value| < |p| && m.value == p[..|m.value|]
  {
    if |p| == 0 then None
    else
      var k := p[|p| - 1] as int;
      if 1 <= k <= BLOCK_SIZE && k <= |p| && forall i :: |p| - k <= i < |p| ==> p[i] as int == k
      then Some(p[..|p| - k])
      else None
  }

  lemma UnpadPad(m: seq<byte>)
    ensures Unpad(Pad(m)) == Some(m)
  {
    var p := Pad(m);
    var k := BLOCK_SIZE - |m| % BLOCK_SIZE;
    assert p[|p| - 1] as int == k;
    assert p[..|p| - k] == m;
  }

  /* ---- the keyed transformation (stands in for the AES-256-CBC rounds) ---- */

  function Mask(key: Key, iv: Iv, m: seq<byte>): (c: seq<byte>)
    ensures |c| == |m|
  {
    seq(|m|, i requires 0 <= i < |m| => ((m[i] as int + key[i % KEY_LENGTH] as int + iv[i % IV_LENGTH] as int) % 256) as byte)
  }

  function Unmask(key: Key, iv: Iv, c: seq<byte>): (m: seq<byte>)
    ensures |m| == |c|
  {
    seq(|c|, i requires 0 <= i < |c| => ((c[i] as int - key[i % KEY_LENGTH] as int - iv[i % IV_LENGTH] as int) % 256) as byte)
  }

  lemma UnmaskMask(key: Key, iv: Iv, m: seq<byte>)
    ensures Unmask(key, iv, Mask(key, iv, m)) == m
  {
    var c := Mask(key, iv, m);
    forall i | 0 <= i < |m|
      ensures Unmask(key, iv, c)[i] == m[i]
    {
      var s := key[i % KEY_LENGTH] as int + iv[i % IV_LENGTH] as int;
      var x := m[i] as int;
      assert c[i] as int == (x + s) % 256;
      ModCancel(x, s);
    }
  }

  lemma ModCancel(x: int, s: int)
    requires 0 <= x < 256
    ensures ((x + s) % 256 - s) % 256 == x
  {
    var q := (x + s) / 256;
    assert (x + s) % 256 - s == x - 256 * q;
  }

  /** `cipher.update(plaintext, 'utf8') + cipher.final()` */
  function Seal(key: Key, iv: Iv, plaintext: string): (c: seq<byte>)
    ensures |c| > 0 && |c| % BLOCK_SIZE == 0
  {
    Mask(key, iv, Pad(EncodeText(plaintext)))
  }

  /** `decipher.update(c) + decipher.final('utf8')`; `None` when OpenSSL would throw. */
  function Open(key: Key, iv: Iv, c: seq<byte>): (plaintext: Option<string>)
    ensures plaintext.Some? ==> |c| > 0 && |c| % BLOCK_SIZE == 0
  {
    if |c| == 0 || |c| % BLOCK_SIZE != 0 then None
    else
      match Unpad(Unmask(key, iv, c))
      case None => None
      case Some(m) => Some(DecodeText(m))
  }

  /** Opening with the key and IV that sealed gives back the plaintext, for every string. */
  lemma OpenSeal(key: Key, iv: Iv, plaintext: string)
    ensures Open(key, iv, Seal(key, iv, plaintext)) == Some(plaintext)
  {
    var m := EncodeText(plaintext);
    UnmaskMask(key, iv, Pad(m));
    UnpadPad(m);
    DecodeEncodeText(plaintext);
  }
}
