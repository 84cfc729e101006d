/**
 * Base64 with the standard alphabet and `=` padding (section 4 of RFC 4648),
 * as written by Node's `buf.toString('base64')`, and a strict decoder for it.
 */
module Base64 {
  import opened Encoding
  import opened Maybe

  /** The alphabet symbol for a 6-bit value: A-Z, a-z, 0-9, '+', '/'. */
  function Symbol(v: nat): char
    requires v < 64
  {
    if v < 26 then ('A' as int + v) as char
    else if v < 52 then ('a' as int + v - 26) as char
    else if v < 62 then ('0' as int + v - 52) as char
    else if v == 62 then '+'
    else '/'
  }

  /** The 6-bit value of an alphabet symbol, or -1 for any other character. */
  function SymbolValue(c: char): int {
    if 'A' <= c <= 'Z' then c as int - 'A' as int
    else if 'a' <= c <= 'z' then c as int - 'a' as int + 26
    else if '0' <= c <= '9' then c as int - '0' as int + 52
    else if c == '+' then 62
    else if c == '/' then 63
    else -1
  }

  lemma SymbolValueOfSymbol(v: nat)
    requires v < 64
    ensures SymbolValue(Symbol(v)) == v
  {
  }

  /** Three bytes as four symbols. */
  function EncodeBlock(a: byte, b: byte, c: byte): string {
    [Symbol(a as int / 4), Symbol(a as int % 4 * 16 + b as int / 16),
     Symbol(b as int % 16 * 4 + c as int / 64), Symbol(c as int % 64)]
  }

  /** The Base64 text of a byte string; a last group of one or two bytes is padded with '='. */
  function Encode(bs: seq<byte>): string
    decreases |bs|
  {
    if |bs| == 0 then ""
    else if |bs| == 1 then [Symbol(bs[0] as int / 4), Symbol(bs[0] as int % 4 * 16), '=', '=']
    else if |bs| == 2 then
      [Symbol(bs[0] as int / 4), Symbol(bs[0] as int % 4 * 16 + bs[1] as int / 16),
       Symbol(bs[1] as int % 16 * 4), '=']
    else EncodeBlock(bs[0], bs[1], bs[2]) + Encode(bs[3..])
  }

  /** Every three bytes, and a last group of one or two, become four characters. */
  lemma {:induction false} EncodeLength(bs: seq<byte>)
    ensures |Encode(bs)| == 4 * ((|bs| + 2) / 3)
    decreases |bs|
  {
    if |bs| >= 3 {
      EncodeLength(bs[3..]);
      assert (|bs| + 2) / 3 == (|bs[3..]| + 2) / 3 + 1;
    }
  }

  /** Decodes one group of four characters; a padded group is allowed only at the end. */
  function DecodeBlock(q: string, last: bool): Option<seq<byte>>
    requires |q| == 4
  {
    var v0, v1, v2, v3 := SymbolValue(q[0]), SymbolValue(q[1]), SymbolValue(q[2]), SymbolValue(q[3]);
    if v0 < 0 || v1 < 0 then None
    else if q[2] == '=' && q[3] == '=' then
      if last then Some([(v0 * 4 + v1 / 16) as byte]) else None
    else if v2 < 0 then None
    else if q[3] == '=' then
      if last then Some([(v0 * 4 + v1 / 16) as byte, (v1 % 16 * 16 + v2 / 4) as byte]) else None
    else if v3 < 0 then None
    else Some([(v0 * 4 + v1 / 16) as byte, (v1 % 16 * 16 + v2 / 4) as byte, (v2 % 4 * 64 + v3) as byte])
  }

  /** Decodes Base64 text; `None` when it is not a whole number of well-formed groups. */
  function Decode(s: string): Option<seq<byte>>
    decreases |s|
  {
    if |s| == 0 then Some([])
    else if |s| < 4 then None
    else
      match DecodeBlock(s[..4], |s| == 4)
      case None => None
      case Some(head) =>
        match Decode(s[4..])
        case None => None
        case Some(tail) => Some(head + tail)
  }

  lemma DecodeFullBlock(a: byte, b: byte, c: byte, last: bool)
    ensures DecodeBlock(EncodeBlock(a, b, c), last) == Some([a, b, c])
  {
    var q := EncodeBlock(a, b, c);
    var v0, v1, v2, v3 := a as int / 4, a as int % 4 * 16 + b as int / 16, b as int % 16 * 4 + c as int / 64, c as int % 64;
    SymbolValueOfSymbol(v0);
    SymbolValueOfSymbol(v1);
    SymbolValueOfSymbol(v2);
    SymbolValueOfSymbol(v3);
    assert v1 / 16 == a as int % 4 && v1 % 16 == b as int / 16;
    assert v2 / 4 == b as int % 16 && v2 % 4 == c as int / 64;
  }

  /** Decoding a group followed by more text decodes the group, then the rest. */
  lemma DecodeGroup(q: string, rest: string, head: seq<byte>, tail: seq<byte>)
    requires |q| == 4
    requires DecodeBlock(q, rest == []) == Some(head)
    requires Decode(rest) == Some(tail)
    ensures Decode(q + rest) == Some(head + tail)
  {
    var s := q + rest;
    assert s[..4] == q && s[4..] == rest;
  }

  lemma DecodeOneByte(a: byte)
    ensures Decode(Encode([a])) == Some([a])
  {
    var e := Encode([a]);
    var v0, v1 := a as int / 4, a as int % 4 * 16;
    SymbolValueOfSymbol(v0);
    SymbolValueOfSymbol(v1);
    assert e == [Symbol(v0), Symbol(v1), '=', '='];
    assert DecodeBlock(e, true) == Some([a]);
    DecodeGroup(e, "", [a], []);
    assert e + "" == e && [a] + [] == [a];
  }

  lemma DecodeTwoBytes(a: byte, b: byte)
    ensures Decode(Encode([a, b])) == Some([a, b])
  {
    var e := Encode([a, b]);
    var v0, v1, v2 := a as int / 4, a as int % 4 * 16 + b as int / 16, b as int % 16 * 4;
    SymbolValueOfSymbol(v0);
    SymbolValueOfSymbol(v1);
    SymbolValueOfSymbol(v2);
    assert v1 / 16 == a as int % 4 && v1 % 16 == b as int / 16;
    assert e == [Symbol(v0), Symbol(v1), Symbol(v2), '='];
    assert DecodeBlock(e, true) == Some([a, b]);
    DecodeGroup(e, "", [a, b], []);
    assert e + "" == e && [a, b] + [] == [a, b];
  }

  /** Decoding what `Encode` wrote gives back the bytes. */
  lemma {:induction false} RoundTrip(bs: seq<byte>)
    ensures Decode(Encode(bs)) == Some(bs)
    decreases |bs|
  {
    if |bs| == 1 {
      DecodeOneByte(bs[0]);
      assert bs == [bs[0]];
    } else if |bs| == 2 {
      DecodeTwoBytes(bs[0], bs[1]);
      assert bs == [bs[0], bs[1]];
    } else if |bs| >= 3 {
      RoundTrip(bs[3..]);
      DecodeBlockThenRest(bs[0], bs[1], bs[2], bs[3..]);
      assert Encode(bs) == EncodeBlock(bs[0], bs[1], bs[2]) + Encode(bs[3..]);
      assert bs == [bs[0], bs[1], bs[2]] + bs[3..];
    }
  }

  /** The step of the round trip for three or more bytes: the first block, then the rest. */
  lemma DecodeBlockThenRest(a: byte, b: byte, c: byte, tail: seq<byte>)
    requires Decode(Encode(tail)) == Some(tail)
    ensures Decode(EncodeBlock(a, b, c) + Encode(tail)) == Some([a, b, c] + tail)
  {
    DecodeFullBlock(a, b, c, Encode(tail) == []);
    DecodeGroup(EncodeBlock(a, b, c), Encode(tail), [a, b, c], tail);
  }
}
