/**
 * Place GUIDs: 12 characters of URL-safe base64 (section 5 of RFC 4648)
 * encoding 9 random bytes. The random bytes are a parameter.
 */
module Guid {
  import opened Utf8

  /** The length of a Places GUID in characters. */
  const GuidLength: nat := 12

  /** The number of random bytes that encode to exactly `GuidLength` characters. */
  const RequiredBytesLen: nat := GuidLength / 4 * 3

  /** The random bytes drawn for one GUID. */
  type GuidBytes = s: seq<byte> | |s| == RequiredBytesLen witness [0, 0, 0, 0, 0, 0, 0, 0, 0]

  /** A character of the URL-safe base64 alphabet: letters, digits, '-' and '_'. */
  predicate IsSymbol(c: char)
  {
    'A' <= c <= 'Z' || 'a' <= c <= 'z' || '0' <= c <= '9' || c == '-' || c == '_'
  }

  /** The alphabet character for a six-bit value. */
  function Symbol(x: bv8): (c: char)
    requires x < 64
    ensures IsSymbol(c)
  {
    if x < 26 then ('A' as int + x as int) as char
    else if x < 52 then ('a' as int + (x as int - 26)) as char
    else if x < 62 then ('0' as int + (x as int - 52)) as char
    else if x == 62 then '-'
    else '_'
  }

  /** The six-bit value an alphabet character stands for. */
  function SymbolValue(c: char): (x: bv8)
    requires IsSymbol(c)
    ensures x < 64
  {
    if 'A' <= c <= 'Z' then (c as int - 'A' as int) as bv8
    else if 'a' <= c <= 'z' then (c as int - 'a' as int + 26) as bv8
    else if '0' <= c <= '9' then (c as int - '0' as int + 52) as bv8
    else if c == '-' then 62
    else 63
  }

  /** Every six-bit value is read back from its character. */
  lemma SymbolRoundTrip(x: bv8)
    requires x < 64
    ensures SymbolValue(Symbol(x)) == x
  {
  }

  /** Three bytes as four characters, six bits each, most significant first. */
  function EncodeGroup(b0: byte, b1: byte, b2: byte): string
  {
    [Symbol(b0 >> 2), Symbol(((b0 & 3) << 4) | (b1 >> 4)), Symbol(((b1 & 15) << 2) | (b2 >> 6)), Symbol(b2 & 63)]
  }

  /**
   * URL-safe base64 with padding: every three bytes become four
   * characters, and a final group of one or two bytes becomes two or three
   * characters followed by '=' up to four.
   */
  function Base64UrlEncode(bs: seq<byte>): string
    decreases |bs|
  {
    if |bs| == 0 then ""
    else if |bs| == 1 then [Symbol(bs[0] >> 2), Symbol((bs[0] & 3) << 4), '=', '=']
    else if |bs| == 2 then [Symbol(bs[0] >> 2), Symbol(((bs[0] & 3) << 4) | (bs[1] >> 4)), Symbol((bs[1] & 15) << 2), '=']
    else EncodeGroup(bs[0], bs[1], bs[2]) + Base64UrlEncode(bs[3..])
  }

  /**
   * The shape of the encoding: four characters per started group of three
   * bytes, symbols for the first ceil(8n/6) of them and '=' for the rest.
   */
  lemma {:induction false} EncodeShape(bs: seq<byte>)
    ensures var s := Base64UrlEncode(bs);
            && |s| == (|bs| + 2) / 3 * 4
            && (forall i :: 0 <= i < |s| ==> (IsSymbol(s[i]) <==> i < (4 * |bs| + 2) / 3))
            && (forall i :: 0 <= i < |s| ==> (s[i] == '=' <==> i >= (4 * |bs| + 2) / 3))
    decreases |bs|
  {
    if |bs| >= 3 {
      EncodeShape(bs[3..]);
      var s := Base64UrlEncode(bs);
      var g := EncodeGroup(bs[0], bs[1], bs[2]);
      var rest := Base64UrlEncode(bs[3..]);
      assert s == g + rest;
      forall i | 4 <= i < |s| ensures s[i] == rest[i - 4] {
      }
    }
  }

  /** The three bytes whose six-bit groups four alphabet characters stand for. */
  function DecodeQuad(c0: char, c1: char, c2: char, c3: char): seq<byte>
    requires IsSymbol(c0) && IsSymbol(c1) && IsSymbol(c2) && IsSymbol(c3)
  {
    var x0, x1, x2, x3 := SymbolValue(c0), SymbolValue(c1), SymbolValue(c2), SymbolValue(c3);
    [(x0 << 2) | (x1 >> 4), ((x1 & 15) << 4) | (x2 >> 2), ((x2 & 3) << 6) | x3]
  }

  /** The inverse of `Base64UrlEncode` on text without padding. */
  function Base64UrlDecode(s: string): seq<byte>
    requires |s| % 4 == 0 && forall i :: 0 <= i < |s| ==> IsSymbol(s[i])
    decreases |s|
  {
    if |s| == 0 then []
    else DecodeQuad(s[0], s[1], s[2], s[3]) + Base64UrlDecode(s[4..])
  }

  /** Reassembling the four six-bit values of a group gives its three bytes. */
  lemma GroupBitsRoundTrip(b0: byte, b1: byte, b2: byte)
    ensures var x0, x1, x2, x3 := b0 >> 2, ((b0 & 3) << 4) | (b1 >> 4), ((b1 & 15) << 2) | (b2 >> 6), b2 & 63;
            && (x0 << 2) | (x1 >> 4) == b0
            && ((x1 & 15) << 4) | (x2 >> 2) == b1
            && ((x2 & 3) << 6) | x3 == b2
  {
  }

  /** Joining two texts of alphabet characters gives a text of alphabet characters. */
  lemma SymbolsConcat(a: string, b: string)
    requires forall i :: 0 <= i < |a| ==> IsSymbol(a[i])
    requires forall i :: 0 <= i < |b| ==> IsSymbol(b[i])
    ensures forall i :: 0 <= i < |a + b| ==> IsSymbol((a + b)[i])
  {
  }

  /** Decoding reads the first four characters as one group of three bytes. */
  lemma DecodeFirstGroup(c0: char, c1: char, c2: char, c3: char, rest: string)
    requires IsSymbol(c0) && IsSymbol(c1) && IsSymbol(c2) && IsSymbol(c3)
    requires |rest| % 4 == 0 && forall i :: 0 <= i < |rest| ==> IsSymbol(rest[i])
    ensures var s := [c0, c1, c2, c3] + rest;
            |s| % 4 == 0 && (forall i :: 0 <= i < |s| ==> IsSymbol(s[i]))
            && Base64UrlDecode(s) == DecodeQuad(c0, c1, c2, c3) + Base64UrlDecode(rest)
  {
    var s := [c0, c1, c2, c3] + rest;
    SymbolsConcat([c0, c1, c2, c3], rest);
    assert s[4..] == rest;
  }

  /** Decoding the four characters of a group gives its three bytes. */
  lemma DecodeGroup(b0: byte, b1: byte, b2: byte, rest: string)
    requires |rest| % 4 == 0 && forall i :: 0 <= i < |rest| ==> IsSymbol(rest[i])
    ensures var s := EncodeGroup(b0, b1, b2) + rest;
            |s| % 4 == 0 && (forall i :: 0 <= i < |s| ==> IsSymbol(s[i]))
            && Base64UrlDecode(s) == [b0, b1, b2] + Base64UrlDecode(rest)
  {
    var x0, x1, x2, x3 := b0 >> 2, ((b0 & 3) << 4) | (b1 >> 4), ((b1 & 15) << 2) | (b2 >> 6), b2 & 63;
    DecodeFirstGroup(Symbol(x0), Symbol(x1), Symbol(x2), Symbol(x3), rest);
    SymbolRoundTrip(x0);
    SymbolRoundTrip(x1);
    SymbolRoundTrip(x2);
    SymbolRoundTrip(x3);
    GroupBitsRoundTrip(b0, b1, b2);
  }

  /** Decoding the encoding of whole three-byte groups gives the bytes back. */
  lemma {:induction false} DecodeEncode(bs: seq<byte>)
    requires |bs| % 3 == 0
    ensures var s := Base64UrlEncode(bs);
            |s| % 4 == 0 && (forall i :: 0 <= i < |s| ==> IsSymbol(s[i])) && Base64UrlDecode(s) == bs
    decreases |bs|
  {
    if |bs| > 0 {
      assert bs == [bs[0], bs[1], bs[2]] + bs[3..];
      EncodeShape(bs[3..]);
      DecodeEncode(bs[3..]);
      DecodeGroup(bs[0], bs[1], bs[2], Base64UrlEncode(bs[3..]));
    }
    EncodeShape(bs);
  }

  /** Nine random bytes: three whole base64 groups, so no padding. */
  lemma RequiredBytes()
    ensures RequiredBytesLen == 9 && RequiredBytesLen % 3 == 0
  {
  }

  /**
   * `generate_guid`: the URL-safe base64 text of the random bytes, exactly
   * `GuidLength` characters of the alphabet, without padding.
   */
  function GenerateGuid(random: seq<byte>): (guid: string)
    requires |random| == RequiredBytesLen
    ensures |guid| == GuidLength
    ensures forall i :: 0 <= i < |guid| ==> IsSymbol(guid[i])
  {
    RequiredBytes();
    EncodeShape(random);
    Base64UrlEncode(random)
  }

  /** Different random bytes give different GUIDs: the bytes are decoded back from the GUID. */
  lemma GuidDeterminesBytes(random: seq<byte>, other: seq<byte>)
    requires |random| == RequiredBytesLen && |other| == RequiredBytesLen
    ensures GenerateGuid(random) == GenerateGuid(other) ==> random == other
  {
    RequiredBytes();
    DecodeEncode(random);
    DecodeEncode(other);
  }
}
