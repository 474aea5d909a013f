/** Bytes, and the UTF-8 encoding through which Rust exposes the bytes of a `str`. */
module Utf8 {

  /** An unsigned 8-bit value, as Rust's `u8`. */
  type byte = bv8

  /** A UTF-8 continuation byte carrying the low six bits of `n`. */
  function Continuation(n: nat): (b: byte)
    ensures b >= 0x80
  {
    0x80 | (n % 0x40) as byte
  }

  /** The UTF-8 encoding of one Unicode scalar value. */
  function EncodeChar(c: char): (bs: seq<byte>)
    ensures 1 <= |bs| <= 4
    ensures |bs| == 1 <==> c as int < 0x80
    ensures |bs| == 1 ==> bs[0] == (c as int) as byte
    ensures forall i :: 0 <= i < |bs| && |bs| > 1 ==> bs[i] >= 0x80
  {
    var n: nat := c as int;
    if n < 0x80 then [n as byte]
    else if n < 0x800 then
      assert n / 0x40 < 0x20;
      [0xC0 | (n / 0x40) as byte, Continuation(n)]
    else if n < 0x1_0000 then
      assert n / 0x1000 < 0x10;
      [0xE0 | (n / 0x1000) as byte, Continuation(n / 0x40), Continuation(n)]
    else
      assert n / 0x4_0000 < 0x8;
      [0xF0 | (n / 0x4_0000) as byte, Continuation(n / 0x1000), Continuation(n / 0x40), Continuation(n)]
  }

  /** The bytes of a string, as `str::bytes` yields them: its UTF-8 encoding. */
  function Utf8Bytes(s: string): seq<byte>
    decreases |s|
  {
    if |s| == 0 then [] else EncodeChar(s[0]) + Utf8Bytes(s[1..])
  }

  /** The one-byte code of each character of an ASCII string. */
  function AsciiCodes(s: string): (bs: seq<byte>)
    requires forall i :: 0 <= i < |s| ==> s[i] as int < 0x80
    ensures |bs| == |s|
  {
    seq(|s|, i requires 0 <= i < |s| => (s[i] as int) as byte)
  }

  /** An ASCII string is encoded one byte per character, each byte its code. */
  lemma {:induction false} AsciiBytes(s: string)
    requires forall i :: 0 <= i < |s| ==> s[i] as int < 0x80
    ensures Utf8Bytes(s) == AsciiCodes(s)
    decreases |s|
  {
    if |s| > 0 {
      AsciiBytes(s[1..]);
      assert EncodeChar(s[0]) == [(s[0] as int) as byte];
      assert AsciiCodes(s) == [(s[0] as int) as byte] + AsciiCodes(s[1..]);
    }
  }
}
