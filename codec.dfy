/** The command-line transport encoding: the command line is encoded as UTF-8
    (RFC 3629) and the bytes are written as lowercase Base 16 (section 8 of
    RFC 4648), which is what `binascii.hexlify(cmdline.encode()).decode()`
    yields; the edge node reverses it with `binascii.unhexlify(...).decode()`. */
module Codec {
  import opened Common

  type byte = x: int | 0 <= x < 256

  // ---------------------------------------------------------------------------
  // UTF-8, section 3 and 4 of RFC 3629
  // ---------------------------------------------------------------------------

  /** The UTF-8 octets of one Unicode scalar value. */
  function EncodeChar(c: char): (bs: seq<byte>)
    ensures 1 <= |bs| <= 4
  {
    var n := c as int;
    if n < 0x80 then [n]
    else if n < 0x800 then [0xC0 + n / 64, 0x80 + n % 64]
    else if n < 0x10000 then [0xE0 + n / 4096, 0x80 + (n / 64) % 64, 0x80 + n % 64]
    else [0xF0 + n / 262144, 0x80 + (n / 4096) % 64, 0x80 + (n / 64) % 64, 0x80 + n % 64]
  }

  /** Python `s.encode()`. */
  function Utf8Encode(s: string): (bs: seq<byte>)
    ensures |s| <= |bs| <= 4 * |s|
  {
    if |s| == 0 then [] else EncodeChar(s[0]) + Utf8Encode(s[1..])
  }

  predicate IsCont(b: int) {
    0x80 <= b < 0xC0
  }

  /** The second octet allowed after a three- or four-octet lead octet
      (the `UTF8-3` and `UTF8-4` rules of section 4 of RFC 3629). */
  predicate SecondOk(b0: int, b1: int) {
    if b0 == 0xE0 then 0xA0 <= b1 < 0xC0
    else if b0 == 0xED then 0x80 <= b1 < 0xA0
    else if b0 == 0xF0 then 0x90 <= b1 < 0xC0
    else if b0 == 0xF4 then 0x80 <= b1 < 0x90
    else IsCont(b1)
  }

  /** The scalar value encoded at the front of `bs` and the number of octets it
      takes, or `None` when the front of `bs` is not a well-formed `UTF8-char`. */
  function DecodeChar(bs: seq<byte>): (r: Option<(char, nat)>)
    requires |bs| > 0
    ensures r.Some? ==> 1 <= r.value.1 <= |bs|
  {
    var b0: int := bs[0];
    var b1: int := if |bs| > 1 then bs[1] else 0;
    var b2: int := if |bs| > 2 then bs[2] else 0;
    var b3: int := if |bs| > 3 then bs[3] else 0;
    if b0 < 0x80 then Some((b0 as char, 1))
    else if 0xC2 <= b0 <= 0xDF then
      if |bs| >= 2 && IsCont(b1)
      then Some((((b0 - 0xC0) * 64 + (b1 - 0x80)) as char, 2))
      else None
    else if 0xE0 <= b0 <= 0xEF then
      if |bs| >= 3 && SecondOk(b0, b1) && IsCont(b2)
      then Some((((b0 - 0xE0) * 4096 + (b1 - 0x80) * 64 + (b2 - 0x80)) as char, 3))
      else None
    else if 0xF0 <= b0 <= 0xF4 then
      if |bs| >= 4 && SecondOk(b0, b1) && IsCont(b2) && IsCont(b3)
      then Some((((b0 - 0xF0) * 262144 + (b1 - 0x80) * 4096 + (b2 - 0x80) * 64 + (b3 - 0x80)) as char, 4))
      else None
    else None
  }

  /** Python `bs.decode()` (strict UTF-8). */
  function Utf8Decode(bs: seq<byte>): Result<string>
    decreases |bs|
  {
    if |bs| == 0 then Ok("")
    else
      match DecodeChar(bs)
      case None => Err(UnicodeDecodeError)
      case Some((c, k)) =>
        var rest :- Utf8Decode(bs[k..]);
        Ok([c] + rest)
  }

  lemma DivSplit(n: nat)
    ensures n / 4096 == (n / 64) / 64
    ensures n / 262144 == (n / 4096) / 64
  {
    var q := n / 64;
    assert n == 4096 * (q / 64) + 64 * (q % 64) + n % 64;
    var q2 := n / 4096;
    assert n == 262144 * (q2 / 64) + 4096 * (q2 % 64) + n % 4096;
  }

  lemma DecodeEncode2(c: char, rest: seq<byte>)
    requires 0x80 <= c as int < 0x800
    ensures DecodeChar(EncodeChar(c) + rest) == Some((c, 2))
  {
    var n := c as int;
    var bs := EncodeChar(c) + rest;
    assert bs[0] == 0xC0 + n / 64 && bs[1] == 0x80 + n % 64;
    assert (bs[0] as int - 0xC0) * 64 + (bs[1] as int - 0x80) == n;
  }

  lemma DecodeEncode3(c: char, rest: seq<byte>)
    requires 0x800 <= c as int < 0x10000
    ensures DecodeChar(EncodeChar(c) + rest) == Some((c, 3))
  {
    var n := c as int;
    DivSplit(n);
    var bs := EncodeChar(c) + rest;
    assert bs[0] == 0xE0 + n / 4096 && bs[1] == 0x80 + (n / 64) % 64 && bs[2] == 0x80 + n % 64;
    assert n / 64 == 64 * (n / 4096) + (n / 64) % 64;
    assert (bs[0] as int - 0xE0) * 4096 + (bs[1] as int - 0x80) * 64 + (bs[2] as int - 0x80) == n;
    assert SecondOk(bs[0], bs[1]);
  }

  lemma DecodeEncode4(c: char, rest: seq<byte>)
    requires 0x10000 <= c as int
    ensures DecodeChar(EncodeChar(c) + rest) == Some((c, 4))
  {
    var n := c as int;
    DivSplit(n);
    var bs := EncodeChar(c) + rest;
    assert bs[0] == 0xF0 + n / 262144 && bs[1] == 0x80 + (n / 4096) % 64;
    assert bs[2] == 0x80 + (n / 64) % 64 && bs[3] == 0x80 + n % 64;
    assert n / 4096 == 64 * (n / 262144) + (n / 4096) % 64;
    assert n / 64 == 64 * (n / 4096) + (n / 64) % 64;
    assert (bs[0] as int - 0xF0) * 262144 + (bs[1] as int - 0x80) * 4096 + (bs[2] as int - 0x80) * 64 + (bs[3] as int - 0x80) == n;
    assert SecondOk(bs[0], bs[1]);
  }

  /** Decoding the octets of one character, whatever follows, gives the character back. */
  lemma DecodeEncodeChar(c: char, rest: seq<byte>)
    ensures DecodeChar(EncodeChar(c) + rest) == Some((c, |EncodeChar(c)|))
  {
    var n := c as int;
    if n < 0x80 {
    } else if n < 0x800 {
      DecodeEncode2(c, rest);
    } else if n < 0x10000 {
      DecodeEncode3(c, rest);
    } else {
      DecodeEncode4(c, rest);
    }
  }

  /** `s.encode().decode() == s`. */
  lemma {:induction false} Utf8RoundTrip(s: string)
    ensures Utf8Decode(Utf8Encode(s)) == Ok(s)
    decreases |s|
  {
    if |s| > 0 {
      var e := EncodeChar(s[0]);
      var tail := Utf8Encode(s[1..]);
      DecodeEncodeChar(s[0], tail);
      assert (e + tail)[|e|..] == tail;
      Utf8RoundTrip(s[1..]);
      assert s == [s[0]] + s[1..];
    }
  }

  lemma EncodeDecode3(bs: seq<byte>)
    requires |bs| >= 3 && 0xE0 <= bs[0] <= 0xEF && SecondOk(bs[0], bs[1]) && IsCont(bs[2])
    ensures DecodeChar(bs).Some? && EncodeChar(DecodeChar(bs).value.0) == bs[..3]
  {
    var n := (bs[0] as int - 0xE0) * 4096 + (bs[1] as int - 0x80) * 64 + (bs[2] as int - 0x80);
    DivSplit(n);
    assert n / 64 == (bs[0] as int - 0xE0) * 64 + (bs[1] as int - 0x80);
    assert n / 4096 == bs[0] - 0xE0;
  }

  lemma EncodeDecode4(bs: seq<byte>)
    requires |bs| >= 4 && 0xF0 <= bs[0] <= 0xF4 && SecondOk(bs[0], bs[1]) && IsCont(bs[2]) && IsCont(bs[3])
    ensures DecodeChar(bs).Some? && EncodeChar(DecodeChar(bs).value.0) == bs[..4]
  {
    var n := (bs[0] as int - 0xF0) * 262144 + (bs[1] as int - 0x80) * 4096 + (bs[2] as int - 0x80) * 64 + (bs[3] as int - 0x80);
    DivSplit(n);
    assert n / 64 == (bs[0] as int - 0xF0) * 4096 + (bs[1] as int - 0x80) * 64 + (bs[2] as int - 0x80);
    assert n / 4096 == (bs[0] as int - 0xF0) * 64 + (bs[1] as int - 0x80);
    assert n / 262144 == bs[0] - 0xF0;
  }

  /** The decoder accepts only the octets the encoder produces for the character it returns. */
  lemma EncodeDecodeChar(bs: seq<byte>)
    requires |bs| > 0 && DecodeChar(bs).Some?
    ensures EncodeChar(DecodeChar(bs).value.0) == bs[..DecodeChar(bs).value.1]
  {
    var b0 := bs[0];
    if b0 < 0x80 {
    } else if 0xC2 <= b0 <= 0xDF {
      var n := (b0 as int - 0xC0) * 64 + (bs[1] as int - 0x80);
      assert n / 64 == b0 - 0xC0 && n % 64 == bs[1] - 0x80;
    } else if 0xE0 <= b0 <= 0xEF {
      EncodeDecode3(bs);
    } else {
      EncodeDecode4(bs);
    }
  }

  /** Strictness: whatever decodes successfully is the UTF-8 encoding of its decoding. */
  lemma {:induction false} Utf8Canonical(bs: seq<byte>, s: string)
    requires Utf8Decode(bs) == Ok(s)
    ensures Utf8Encode(s) == bs
    decreases |bs|
  {
    if |bs| > 0 {
      Utf8DecodeStep(bs, s);
      var c, k := DecodeChar(bs).value.0, DecodeChar(bs).value.1;
      var rest := Utf8Decode(bs[k..]).value;
      assert Utf8Encode(rest) == bs[k..] by {
        Utf8Canonical(bs[k..], rest);
      }
      assert EncodeChar(c) == bs[..k] by {
        EncodeDecodeChar(bs);
      }
      EncodeCons(c, rest);
      Glue(bs, k, EncodeChar(c), Utf8Encode(rest));
    }
  }

  lemma Glue(bs: seq<byte>, k: nat, head: seq<byte>, tail: seq<byte>)
    requires k <= |bs| && head == bs[..k] && tail == bs[k..]
    ensures head + tail == bs
  {
  }

  /** A successful decoding is the first character followed by the decoding
      of the octets after it. */
  lemma Utf8DecodeStep(bs: seq<byte>, s: string)
    requires |bs| > 0 && Utf8Decode(bs) == Ok(s)
    ensures DecodeChar(bs).Some?
    ensures var k := DecodeChar(bs).value.1;
      Utf8Decode(bs[k..]).Ok? && s == [DecodeChar(bs).value.0] + Utf8Decode(bs[k..]).value
  {
  }

  lemma EncodeCons(c: char, t: string)
    ensures Utf8Encode([c] + t) == EncodeChar(c) + Utf8Encode(t)
  {
    assert ([c] + t)[1..] == t;
  }

  // ---------------------------------------------------------------------------
  // Base 16, section 8 of RFC 4648, lowercase
  // ---------------------------------------------------------------------------

  /** The lowercase digit of a nibble. */
  function HexDigit(d: nat): (c: char)
    requires d < 16
  {
    if d < 10 then ('0' as int + d) as char else ('a' as int + d - 10) as char
  }

  predicate IsLowerHexDigit(c: char) {
    '0' <= c <= '9' || 'a' <= c <= 'f'
  }

  predicate IsLowerHex(s: string) {
    forall i :: 0 <= i < |s| ==> IsLowerHexDigit(s[i])
  }

  /** Python `binascii.hexlify(bs).decode()`: two lowercase digits per octet,
      the high nibble first. */
  function Hexlify(bs: seq<byte>): (h: string)
    ensures |h| == 2 * |bs|
    ensures IsLowerHex(h)
  {
    if |bs| == 0 then "" else [HexDigit(bs[0] / 16), HexDigit(bs[0] % 16)] + Hexlify(bs[1..])
  }

  /** The value of one hexadecimal digit; `binascii.unhexlify` accepts both cases. */
  function HexValue(c: char): (r: Option<nat>)
    ensures r.Some? ==> r.value < 16
  {
    if '0' <= c <= '9' then Some(c as int - '0' as int)
    else if 'a' <= c <= 'f' then Some(c as int - 'a' as int + 10)
    else if 'A' <= c <= 'F' then Some(c as int - 'A' as int + 10)
    else None
  }

  function UnhexPairs(s: string): Result<seq<byte>>
    requires |s| % 2 == 0
  {
    if |s| == 0 then Ok([])
    else
      var hi, lo := HexValue(s[0]), HexValue(s[1]);
      if hi.None? || lo.None? then Err(BinasciiError("Non-hexadecimal digit found"))
      else
        var rest :- UnhexPairs(s[2..]);
        Ok([hi.value * 16 + lo.value] + rest)
  }

  /** Python `binascii.unhexlify(s)` for a `str` argument: it must be ASCII,
      of even length, and made of hexadecimal digits. */
  function Unhexlify(s: string): Result<seq<byte>> {
    if exists i | 0 <= i < |s| :: s[i] as int >= 128 then
      Err(ValueError("string argument should contain only ASCII characters"))
    else if |s| % 2 == 1 then Err(BinasciiError("Odd-length string"))
    else UnhexPairs(s)
  }

  lemma HexDigitValue(d: nat)
    requires d < 16
    ensures HexValue(HexDigit(d)) == Some(d)
  {
  }

  lemma {:induction false} UnhexPairsHexlify(bs: seq<byte>)
    ensures UnhexPairs(Hexlify(bs)) == Ok(bs)
    decreases |bs|
  {
    if |bs| > 0 {
      var h := Hexlify(bs);
      HexDigitValue(bs[0] / 16);
      HexDigitValue(bs[0] % 16);
      assert h[2..] == Hexlify(bs[1..]);
      UnhexPairsHexlify(bs[1..]);
      assert bs == [bs[0]] + bs[1..];
    }
  }

  /** `unhexlify(hexlify(bs)) == bs`. */
  lemma UnhexlifyHexlify(bs: seq<byte>)
    ensures Unhexlify(Hexlify(bs)) == Ok(bs)
  {
    var h := Hexlify(bs);
    assert forall i | 0 <= i < |h| :: h[i] as int < 128 by {
      forall i | 0 <= i < |h| ensures h[i] as int < 128 {
        assert IsLowerHexDigit(h[i]);
      }
    }
    assert |h| % 2 == 0;
    UnhexPairsHexlify(bs);
  }

  lemma {:induction false} HexlifyUnhexPairs(s: string, bs: seq<byte>)
    requires |s| % 2 == 0 && IsLowerHex(s) && UnhexPairs(s) == Ok(bs)
    ensures Hexlify(bs) == s
    decreases |s|
  {
    if |s| > 0 {
      var hi, lo := HexValue(s[0]).value, HexValue(s[1]).value;
      var rest := UnhexPairs(s[2..]);
      assert rest.Ok? && bs == [hi * 16 + lo] + rest.value;
      HexlifyUnhexPairs(s[2..], rest.value);
      assert bs[0] / 16 == hi && bs[0] % 16 == lo;
      assert HexDigit(hi) == s[0] && HexDigit(lo) == s[1];
      assert bs[1..] == rest.value;
      assert s == s[..2] + s[2..];
    }
  }

  /** A lowercase text that unhexlifies is the hexlification of what it unhexlifies to. */
  lemma HexlifyUnhexlify(s: string, bs: seq<byte>)
    requires IsLowerHex(s) && Unhexlify(s) == Ok(bs)
    ensures Hexlify(bs) == s
  {
    HexlifyUnhexPairs(s, bs);
  }

  // ---------------------------------------------------------------------------
  // The command-line codec
  // ---------------------------------------------------------------------------

  /** `convert_exec_string_to_hex`: the lowercase hex of the UTF-8 octets, two
      to eight digits per character. */
  function ConvertExecStringToHex(cmdline: string): (h: string)
    ensures IsLowerHex(h)
    ensures |h| == 2 * |Utf8Encode(cmdline)|
    ensures 2 * |cmdline| <= |h| <= 8 * |cmdline|
  {
    Hexlify(Utf8Encode(cmdline))
  }

  /** `str(binascii.unhexlify(arg).decode())`, the first step of both edge-node decoders. */
  function DecodeHexCommandLine(arg: string): Result<string> {
    var bs :- Unhexlify(arg);
    Utf8Decode(bs)
  }

  /** The edge node recovers exactly the command line that was hexed. */
  lemma CommandLineRoundTrip(cmdline: string)
    ensures DecodeHexCommandLine(ConvertExecStringToHex(cmdline)) == Ok(cmdline)
  {
    UnhexlifyHexlify(Utf8Encode(cmdline));
    Utf8RoundTrip(cmdline);
  }

  /** Conversely, every lowercase argument the edge node decodes is the hex of its decoding. */
  lemma CommandLineCanonical(arg: string, cmdline: string)
    requires IsLowerHex(arg) && DecodeHexCommandLine(arg) == Ok(cmdline)
    ensures ConvertExecStringToHex(cmdline) == arg
  {
    var bs := Unhexlify(arg).value;
    Utf8Canonical(bs, cmdline);
    HexlifyUnhexlify(arg, bs);
  }
}
