/**
 * The URL hash that Firefox stores in `moz_places.url_hash`.
 *
 * A 32-bit accumulator is folded over the UTF-8 bytes of a text with a
 * rotate, an xor and a wrapping multiplication by the golden ratio; the
 * hash of a URL puts the low 16 bits of the hash of its scheme (the text
 * before the first ':') above the 32-bit hash of the whole URL.
 */
module UrlHash {
  import opened Wrappers
  import opened Utf8

  /** The multiplier of every step, 2^32 divided by the golden ratio. */
  const GoldenRatio: bv32 := 0x9E3779B9

  /** The byte value of ':', which ends the protocol of a URL. */
  const Colon: byte := 0x3A

  datatype HashError = MissingProtocol

  /** ':' is ASCII, so its byte occurs in the encoding exactly where the character occurs. */
  lemma {:induction false} Utf8HasColon(s: string)
    ensures Colon in Utf8Bytes(s) <==> ':' in s
    decreases |s|
  {
    if |s| > 0 {
      Utf8HasColon(s[1..]);
      assert s == [s[0]] + s[1..];
      var e := EncodeChar(s[0]);
      assert Colon in e <==> s[0] == ':' by {
        if |e| > 1 {
          assert forall i :: 0 <= i < |e| ==> e[i] != Colon;
        } else if s[0] != ':' {
          assert (s[0] as int) as byte != Colon;
        }
      }
    }
  }

  /** One step of the fold: rotate left by 5, xor the byte in, multiply modulo 2^32. */
  function Mix(h: bv32, b: byte): bv32
  {
    (h.RotateLeft(5) ^ (b as bv32)) * GoldenRatio
  }

  /** The accumulator after folding every byte of `s`, in order, into `h`. */
  function HashFrom(h: bv32, s: seq<byte>): bv32
    decreases |s|
  {
    if |s| == 0 then h else HashFrom(Mix(h, s[0]), s[1..])
  }

  /** The 32-bit hash of a text: the fold started from 0. */
  function SimpleHash(s: seq<byte>): bv32
  {
    HashFrom(0, s)
  }

  /** Folding a concatenation folds the first part, then the second from there. */
  lemma {:induction false} HashFromAppend(h: bv32, a: seq<byte>, b: seq<byte>)
    ensures HashFrom(h, a + b) == HashFrom(HashFrom(h, a), b)
    decreases |a|
  {
    if |a| == 0 {
      assert a + b == b;
    } else {
      assert (a + b)[1..] == a[1..] + b;
      HashFromAppend(Mix(h, a[0]), a[1..], b);
    }
  }

  /** Appending one byte performs exactly one more step. */
  lemma HashFromSnoc(h: bv32, s: seq<byte>, b: byte)
    ensures HashFrom(h, s + [b]) == Mix(HashFrom(h, s), b)
  {
    HashFromAppend(h, s, [b]);
  }

  /**
   * `hash_simple`: the loop over the bytes of `text`, with the 32-bit
   * accumulator zero-extended to 64 bits at the end.
   */
  method HashSimple(text: seq<byte>) returns (h: bv64)
    ensures h == SimpleHash(text) as bv64
    ensures h < 0x1_0000_0000
  {
    var acc: bv32 := 0;
    var i := 0;
    while i < |text|
      invariant 0 <= i <= |text|
      invariant HashFrom(acc, text[i..]) == SimpleHash(text)
    {
      assert text[i..][1..] == text[i + 1..];
      acc := Mix(acc, text[i]);
      i := i + 1;
    }
    assert text[i..] == [];
    h := acc as bv64;
  }

  /** The byte index of the first ':' in `s`, if there is one. */
  function FirstColon(s: seq<byte>): (r: Option<nat>)
    ensures r.None? <==> Colon !in s
    ensures r.Some? ==> r.value < |s| && s[r.value] == Colon && Colon !in s[..r.value]
  {
    if |s| == 0 then None
    else if s[0] == Colon then Some(0)
    else match FirstColon(s[1..])
      case None => None
      case Some(k) =>
        assert s[..k + 1] == [s[0]] + s[1..][..k];
        Some(k + 1)
  }

  /**
   * `hash`: fails when the URL has no ':'; otherwise the low 16 bits of the
   * hash of the text before the first ':', shifted left by 32, plus the
   * hash of the whole URL, in 64-bit arithmetic.
   */
  function Hash(url: seq<byte>): (r: Result<bv64, HashError>)
    ensures r.Failure? <==> Colon !in url
  {
    match FirstColon(url)
    case None => Failure(MissingProtocol)
    case Some(p) =>
      var high := (SimpleHash(url[..p]) as bv64 & 0xFFFF) << 32;
      var low := SimpleHash(url) as bv64;
      Success(high + low)
  }

  /**
   * The layout of a successful hash: 48 bits, the low 32 the hash of the
   * whole URL and the 16 above them the low 16 bits of the hash of the
   * protocol, the text before the first ':'.
   */
  lemma HashLayout(url: seq<byte>)
    requires Colon in url
    ensures Hash(url).Success?
    ensures Hash(url).value < 0x1_0000_0000_0000
    ensures Hash(url).value & 0xFFFF_FFFF == SimpleHash(url) as bv64
    ensures Hash(url).value >> 32 == (SimpleHash(url[..FirstColon(url).value]) & 0xFFFF) as bv64
  {
  }

  /** Hashing the bytes of a string fails exactly when the string has no ':'. */
  lemma HashFailsWithoutProtocol(url: string)
    ensures Hash(Utf8Bytes(url)).Failure? <==> ':' !in url
  {
    Utf8HasColon(url);
  }

  /** The first ':' is the only one that counts: any index holding a ':' with none before it is the one found. */
  lemma FirstColonAt(s: seq<byte>, p: nat)
    requires p < |s| && s[p] == Colon && Colon !in s[..p]
    ensures FirstColon(s) == Some(p)
  {
    assert s[p] in s[..FirstColon(s).value + 1];
  }

  /**
   * URLs whose text up to their first ':' is the same have the same bits
   * 32 to 47 in their hash, whatever follows.
   */
  lemma SameProtocolSameHighBits(u: seq<byte>, v: seq<byte>, p: nat)
    requires p < |u| && p < |v| && u[..p + 1] == v[..p + 1]
    requires u[p] == Colon && Colon !in u[..p]
    ensures Hash(u).Success? && Hash(v).Success?
    ensures Hash(u).value >> 32 == Hash(v).value >> 32
  {
    assert u[..p] == u[..p + 1][..p] == v[..p + 1][..p] == v[..p];
    assert v[p] == v[..p + 1][p];
    FirstColonAt(u, p);
    FirstColonAt(v, p);
    HashLayout(u);
    HashLayout(v);
  }
}
