/**
 * `generate_content_hash` of backend/app/parsing/parser.py:
 * `hashlib.sha256(content.encode('utf-8')).hexdigest()`, or `None` for a
 * missing or empty content. The UTF-8 encoding and the hex formatting are
 * modelled; the SHA-256 compression function is a parameter.
 */
module Hashing {
  import opened Wrappers

  newtype byte = x: int | 0 <= x < 256

  /** A SHA-256 digest: 32 bytes. */
  type Digest = s: seq<byte> | |s| == 32 witness seq(32, _ => 0 as byte)

  // ------------------------------------------------------------------
  // UTF-8 (RFC 3629, section 3)
  // ------------------------------------------------------------------

  function Cont(n: int): byte
    requires 0 <= n
  {
    (0x80 + n % 64) as byte
  }

  /** The UTF-8 form of one Unicode scalar value: one to four bytes. */
  function EncodeChar(c: char): (b: seq<byte>)
    ensures 1 <= |b| <= 4
  {
    var n := c as int;
    if n < 0x80 then [n as byte]
    else if n < 0x800 then [(0xC0 + n / 64) as byte, Cont(n)]
    else if n < 0x10000 then [(0xE0 + n / 4096) as byte, Cont(n / 64), Cont(n)]
    else [(0xF0 + n / 262144) as byte, Cont(n / 4096), Cont(n / 64), Cont(n)]
  }

  /** `s.encode('utf-8')`. */
  function Utf8Encode(s: string): (b: seq<byte>)
    ensures |s| <= |b| <= 4 * |s|
  {
    if s == [] then [] else EncodeChar(s[0]) + Utf8Encode(s[1..])
  }

  predicate IsCont(b: byte) { 0x80 <= b < 0xC0 }

  /** The number of bytes a sequence with this leading byte has, or 0 for a byte that cannot lead. */
  function SeqLength(b: byte): nat {
    if b < 0x80 then 1
    else if 0xC2 <= b < 0xE0 then 2
    else if 0xE0 <= b < 0xF0 then 3
    else if 0xF0 <= b < 0xF5 then 4
    else 0
  }

  /** The scalar value of one well-formed sequence, checked for overlong forms, surrogates and range. */
  function DecodeOne(b: seq<byte>): (r: Option<char>)
    requires 1 <= |b| <= 4
  {
    var v :=
      if |b| == 1 then b[0] as int
      else if |b| == 2 then (b[0] as int - 0xC0) * 64 + (b[1] as int - 0x80)
      else if |b| == 3 then ((b[0] as int - 0xE0) * 64 + (b[1] as int - 0x80)) * 64 + (b[2] as int - 0x80)
      else (((b[0] as int - 0xF0) * 64 + (b[1] as int - 0x80)) * 64 + (b[2] as int - 0x80)) * 64 + (b[3] as int - 0x80);
    var least := if |b| == 1 then 0 else if |b| == 2 then 0x80 else if |b| == 3 then 0x800 else 0x10000;
    if SeqLength(b[0]) == |b| && (forall i :: 1 <= i < |b| ==> IsCont(b[i]))
       && least <= v <= 0x10FFFF && !(0xD800 <= v < 0xE000)
    then Some(v as char)
    else None
  }

  /** `bytes.decode('utf-8')`: `None` on the first ill-formed sequence. */
  function Utf8Decode(b: seq<byte>): (r: Option<string>)
    decreases |b|
  {
    if b == [] then Some([])
    else
      var n := SeqLength(b[0]);
      if n == 0 || |b| < n then None
      else
        var c :- DecodeOne(b[..n]);
        var rest :- Utf8Decode(b[n..]);
        Some([c] + rest)
  }

  lemma DecodeEncodeChar(c: char)
    ensures SeqLength(EncodeChar(c)[0]) == |EncodeChar(c)|
    ensures DecodeOne(EncodeChar(c)) == Some(c)
  {
    var n := c as int;
    if n < 0x80 {
    } else if n < 0x800 {
      DecodeTwo(c);
    } else if n < 0x10000 {
      DecodeThree(c);
    } else {
      DecodeFour(c);
    }
  }

  lemma DecodeTwo(c: char)
    requires 0x80 <= c as int < 0x800
    ensures SeqLength(EncodeChar(c)[0]) == 2 && DecodeOne(EncodeChar(c)) == Some(c)
  {
    var n := c as int;
    var b := EncodeChar(c);
    assert b == [(0xC0 + n / 64) as byte, Cont(n)];
    assert (b[0] as int - 0xC0) * 64 + (b[1] as int - 0x80) == n;
  }

  lemma DecodeThree(c: char)
    requires 0x800 <= c as int < 0x10000
    ensures SeqLength(EncodeChar(c)[0]) == 3 && DecodeOne(EncodeChar(c)) == Some(c)
  {
    var n := c as int;
    var b := EncodeChar(c);
    assert b == [(0xE0 + n / 4096) as byte, Cont(n / 64), Cont(n)];
    var v := ((b[0] as int - 0xE0) * 64 + (b[1] as int - 0x80)) * 64 + (b[2] as int - 0x80);
    assert (n / 4096) * 64 + (n / 64) % 64 == n / 64;
    assert v == n;
  }

  lemma DecodeFour(c: char)
    requires 0x10000 <= c as int
    ensures SeqLength(EncodeChar(c)[0]) == 4 && DecodeOne(EncodeChar(c)) == Some(c)
  {
    var n := c as int;
    var b := EncodeChar(c);
    assert n <= 0x10FFFF;
    Recombine4(n);
    assert b == [(0xF0 + n / 262144) as byte, Cont(n / 4096), Cont(n / 64), Cont(n)];
  }

  /** The four six-bit groups of a supplementary code point put back together. */
  lemma Recombine4(n: int)
    requires 0x10000 <= n <= 0x10FFFF
    ensures n / 262144 <= 4
    ensures (((n / 262144) * 64 + (n / 4096) % 64) * 64 + (n / 64) % 64) * 64 + n % 64 == n
  {
    assert (n / 262144) * 64 + (n / 4096) % 64 == n / 4096;
    assert (n / 4096) * 64 + (n / 64) % 64 == n / 64;
  }

  /** Decoding undoes encoding: no two texts share a UTF-8 form. */
  lemma {:induction false} Utf8RoundTrip(s: string)
    ensures Utf8Decode(Utf8Encode(s)) == Some(s)
  {
    if s != [] {
      var e := EncodeChar(s[0]);
      var b := Utf8Encode(s);
      assert b == e + Utf8Encode(s[1..]);
      DecodeEncodeChar(s[0]);
      assert b[0] == e[0];
      assert b[..|e|] == e;
      assert b[|e|..] == Utf8Encode(s[1..]);
      Utf8RoundTrip(s[1..]);
      assert [s[0]] + s[1..] == s;
    }
  }

  // ------------------------------------------------------------------
  // hexdigest()
  // ------------------------------------------------------------------

  const HexDigits: string := "0123456789abcdef"

  predicate IsHexDigit(c: char) { '0' <= c <= '9' || 'a' <= c <= 'f' }

  /** Every character is one of `HexDigits`. */
  predicate IsLowerHex(s: string) {
    forall i :: 0 <= i < |s| ==> IsHexDigit(s[i])
  }

  /** `digest.hexdigest()`: two lower-case hex digits per byte, high nibble first. */
  function HexDigest(d: seq<byte>): (h: string)
    ensures |h| == 2 * |d| && IsLowerHex(h)
  {
    if d == [] then ""
    else [HexDigits[d[0] as int / 16], HexDigits[d[0] as int % 16]] + HexDigest(d[1..])
  }

  function HexValue(c: char): (r: Option<nat>)
    ensures r.Some? ==> r.value < 16
  {
    if '0' <= c <= '9' then Some(c as int - '0' as int)
    else if 'a' <= c <= 'f' then Some(c as int - 'a' as int + 10)
    else None
  }

  /** `bytes.fromhex`, for lower-case digits only. */
  function HexDecode(h: string): Option<seq<byte>>
    decreases |h|
  {
    if |h| < 2 then (if h == [] then Some([]) else None)
    else
      match (HexValue(h[0]), HexValue(h[1]), HexDecode(h[2..]))
      case (Some(hi), Some(lo), Some(rest)) => Some([(hi * 16 + lo) as byte] + rest)
      case _ => None
  }

  lemma HexDigitValue(k: nat)
    requires k < 16
    ensures HexValue(HexDigits[k]) == Some(k)
  {
  }

  /** The digest of a non-empty sequence opens with its first byte's two digits. */
  lemma HexDigestCons(d: seq<byte>)
    requires d != []
    ensures var h := HexDigest(d);
      h[0] == HexDigits[d[0] as int / 16] && h[1] == HexDigits[d[0] as int % 16] && h[2..] == HexDigest(d[1..])
  {
  }

  /** The first two digits of a digest read back as its first byte. */
  lemma HexDigestHead(d: seq<byte>)
    requires d != []
    ensures var h, hi, lo := HexDigest(d), d[0] as int / 16, d[0] as int % 16;
      |h| >= 2 && HexValue(h[0]) == Some(hi) && HexValue(h[1]) == Some(lo) && h[2..] == HexDigest(d[1..])
      && (hi * 16 + lo) as byte == d[0]
  {
    HexDigestCons(d);
    NibblesOf(d[0]);
  }

  /** Reading two digits back gives the byte they were written from. */
  lemma NibblesOf(b: byte)
    ensures HexValue(HexDigits[b as int / 16]) == Some(b as int / 16)
    ensures HexValue(HexDigits[b as int % 16]) == Some(b as int % 16)
    ensures ((b as int / 16) * 16 + b as int % 16) as byte == b
  {
    HexDigitValue(b as int / 16);
    HexDigitValue(b as int % 16);
  }

  /** `HexDecode` reads two digits and goes on with the rest. */
  lemma HexDecodeStep(h: string, hi: nat, lo: nat)
    requires |h| >= 2 && HexValue(h[0]) == Some(hi) && HexValue(h[1]) == Some(lo) && HexDecode(h[2..]).Some?
    ensures HexDecode(h) == Some([(hi * 16 + lo) as byte] + HexDecode(h[2..]).value)
  {
  }

  /** The hex digest can be read back: it loses nothing of the digest. */
  lemma {:induction false} HexRoundTrip(d: seq<byte>)
    ensures HexDecode(HexDigest(d)) == Some(d)
  {
    if d != [] {
      var h := HexDigest(d);
      var hi, lo := d[0] as int / 16, d[0] as int % 16;
      HexDigestHead(d);
      HexRoundTrip(d[1..]);
      HexDecodeStep(h, hi, lo);
      assert [d[0]] + d[1..] == d;
    }
  }

  // ------------------------------------------------------------------
  // generate_content_hash
  // ------------------------------------------------------------------

  /**
   * `generate_content_hash(content)`: `None` exactly when the content is
   * missing or empty, otherwise 64 lower-case hex digits.
   */
  function ContentHash(content: Option<string>, sha256: seq<byte> -> Digest): (r: Option<string>)
    ensures r.None? <==> content.None? || content.value == []
    ensures r.Some? ==> |r.value| == 64 && IsLowerHex(r.value)
  {
    if content.Some? && content.value != [] then Some(HexDigest(sha256(Utf8Encode(content.value))))
    else None
  }

  /** The hash is a function of the digest of the UTF-8 content, and that digest can be read back from it. */
  lemma ContentHashDigest(content: string, sha256: seq<byte> -> Digest)
    requires content != []
    ensures HexDecode(ContentHash(Some(content), sha256).value) == Some(sha256(Utf8Encode(content)))
  {
    HexRoundTrip(sha256(Utf8Encode(content)));
  }
}
