/**
 * Byte-level encodings used by the service through Node's `Buffer`: the
 * `'ascii'` decoding of header bytes, `'hex'` encoding of random bytes and
 * the UTF-8 encoding of a string.
 */
module Encoding {
  import opened Text

  newtype byte = x: int | 0 <= x < 256

  /**
   * `buf.toString('ascii')`: Node clears the high bit of every byte and reads
   * the result as Latin-1, so byte `b` becomes the character `b % 128`.
   */
  function AsciiDecode(bs: seq<byte>): string {
    seq(|bs|, i requires 0 <= i < |bs| => (bs[i] as int % 128) as char)
  }

  /** `buf.toString('ascii', 0, n)` on a buffer that may be shorter than `n`. */
  function AsciiPrefix(bs: seq<byte>, n: nat): string {
    AsciiDecode(bs[..if n < |bs| then n else |bs|])
  }

  /**
   * The first `n` bytes of a buffer read as ASCII equal the ASCII string `lit`
   * exactly when the buffer has at least `n` bytes and each of them, high bit
   * cleared, is the code of the matching character of `lit`.
   */
  lemma AsciiPrefixIs(bs: seq<byte>, lit: string)
    requires forall i :: 0 <= i < |lit| ==> lit[i] as int < 128
    ensures AsciiPrefix(bs, |lit|) == lit <==>
      |lit| <= |bs| && forall i :: 0 <= i < |lit| ==> bs[i] as int % 128 == lit[i] as int
  {
    var p := AsciiPrefix(bs, |lit|);
    if |lit| <= |bs| && forall i :: 0 <= i < |lit| ==> bs[i] as int % 128 == lit[i] as int {
      assert |p| == |lit|;
      forall i | 0 <= i < |lit| ensures p[i] == lit[i] {
        assert p[i] == (bs[i] as int % 128) as char;
      }
    }
    if p == lit {
      forall i | 0 <= i < |lit| ensures bs[i] as int % 128 == lit[i] as int {
        assert p[i] == (bs[..|lit|][i] as int % 128) as char;
      }
    }
  }

  /** `buf.toString('hex')`: two lower-case hexadecimal digits per byte, high nibble first. */
  function Hex(bs: seq<byte>): (r: string)
    ensures |r| == 2 * |bs|
    ensures forall i :: 0 <= i < |r| ==> 0 <= DigitValue(r[i]) < 16 && !('A' <= r[i] <= 'Z')
    decreases |bs|
  {
    if bs == [] then []
    else [DigitChar(bs[0] as int / 16), DigitChar(bs[0] as int % 16)] + Hex(bs[1..])
  }

  /** Reads pairs of hexadecimal digits back into bytes. */
  function Unhex(s: string): seq<byte>
    decreases |s|
  {
    if |s| < 2 then []
    else
      var v := DigitValue(s[0]) * 16 + DigitValue(s[1]);
      (if 0 <= v < 256 then [v as byte] else [0]) + Unhex(s[2..])
  }

  /** Hex encoding loses nothing: reading it back gives the bytes. */
  lemma {:induction false} HexRoundTrip(bs: seq<byte>)
    ensures Unhex(Hex(bs)) == bs
    decreases |bs|
  {
    if bs != [] {
      var h := Hex(bs);
      assert h[2..] == Hex(bs[1..]);
      HexRoundTrip(bs[1..]);
      assert bs == [bs[0]] + bs[1..];
    }
  }

  /** Different byte strings have different hex encodings. */
  lemma HexInjective(a: seq<byte>, b: seq<byte>)
    requires Hex(a) == Hex(b)
    ensures a == b
  {
    HexRoundTrip(a);
    HexRoundTrip(b);
  }

  /** The UTF-8 encoding of one Unicode scalar value (section 3 of RFC 3629). */
  function Utf8Char(c: char): seq<byte> {
    var n := c as int;
    if n < 0x80 then [n as byte]
    else if n < 0x800 then [(0xC0 + n / 0x40) as byte, (0x80 + n % 0x40) as byte]
    else if n < 0x10000 then
      [(0xE0 + n / 0x1000) as byte, (0x80 + n / 0x40 % 0x40) as byte, (0x80 + n % 0x40) as byte]
    else
      [(0xF0 + n / 0x40000) as byte, (0x80 + n / 0x1000 % 0x40) as byte,
       (0x80 + n / 0x40 % 0x40) as byte, (0x80 + n % 0x40) as byte]
  }

  /** `Buffer.from(s)`: the UTF-8 bytes of a string, character by character. */
  function Utf8Encode(s: string): (r: seq<byte>)
    ensures |s| <= |r| <= 4 * |s|
    decreases |s|
  {
    if s == [] then [] else Utf8Char(s[0]) + Utf8Encode(s[1..])
  }

  /** UTF-8 encoding distributes over concatenation. */
  lemma {:induction false} Utf8EncodeAppend(a: string, b: string)
    ensures Utf8Encode(a + b) == Utf8Encode(a) + Utf8Encode(b)
    decreases |a|
  {
    if a != [] {
      assert (a + b)[1..] == a[1..] + b;
      Utf8EncodeAppend(a[1..], b);
    } else {
      assert a + b == b;
    }
  }

  /** An ASCII character is encoded as the single byte of its code. */
  lemma Utf8Ascii(c: char)
    requires c as int < 0x80
    ensures Utf8Encode([c]) == [c as int as byte]
  {
  }
}
