/**
 * UTF-8, the byte form of a Rust `String`. `String::len` counts these bytes,
 * so the `Content-Length` of a JSON body is the length of its encoding.
 * `Decode` is a reader used only to state what the encoded bytes contain.
 */
module Utf8 {
  import opened Results

  type byte = b: int | 0 <= b < 0x100

  /** The one to four bytes of one Unicode scalar value. */
  function EncodeChar(c: char): (bs: seq<byte>)
    ensures 1 <= |bs| <= 4
    ensures |bs| == 1 <==> (c as int) < 0x80
  {
    var n := c as int;
    if n < 0x80 then [n]
    else if n < 0x800 then [0xC0 + n / 0x40, 0x80 + n % 0x40]
    else if n < 0x1_0000 then [0xE0 + n / 0x1000, 0x80 + (n / 0x40) % 0x40, 0x80 + n % 0x40]
    else [0xF0 + n / 0x4_0000, 0x80 + (n / 0x1000) % 0x40, 0x80 + (n / 0x40) % 0x40, 0x80 + n % 0x40]
  }

  /** The bytes of a string, character after character. */
  function Encode(s: string): (bs: seq<byte>)
    ensures |s| <= |bs| <= 4 * |s|
  {
    if s == [] then [] else EncodeChar(s[0]) + Encode(s[1..])
  }

  predicate IsContinuation(b: int) {
    0x80 <= b < 0xC0
  }

  /** The scalar value `v`, read from `n` bytes, if it is one and `n` is its shortest form. */
  function Scalar(v: int, least: int, n: nat): Option<(char, nat)> {
    if least <= v && (0 <= v < 0xD800 || 0xE000 <= v < 0x11_0000) then Some((v as char, n)) else None
  }

  /** The first character of `bs` and how many bytes it takes, if `bs` starts with a well-formed one. */
  function DecodeChar(bs: seq<byte>): (r: Option<(char, nat)>)
    ensures r.Some? ==> 1 <= r.value.1 <= |bs|
  {
    if |bs| == 0 then None
    else
      var b0: int, b1: int, b2: int, b3: int :=
        bs[0], if 1 < |bs| then bs[1] else 0, if 2 < |bs| then bs[2] else 0, if 3 < |bs| then bs[3] else 0;
      if b0 < 0x80 then Some((b0 as char, 1))
      else if 0xC0 <= b0 < 0xE0 && 2 <= |bs| && IsContinuation(b1) then
        Scalar((b0 - 0xC0) * 0x40 + (b1 - 0x80), 0x80, 2)
      else if 0xE0 <= b0 < 0xF0 && 3 <= |bs| && IsContinuation(b1) && IsContinuation(b2) then
        Scalar(((b0 - 0xE0) * 0x40 + (b1 - 0x80)) * 0x40 + (b2 - 0x80), 0x800, 3)
      else if 0xF0 <= b0 < 0xF8 && 4 <= |bs| && IsContinuation(b1) && IsContinuation(b2) && IsContinuation(b3) then
        Scalar((((b0 - 0xF0) * 0x40 + (b1 - 0x80)) * 0x40 + (b2 - 0x80)) * 0x40 + (b3 - 0x80), 0x1_0000, 4)
      else None
  }

  /** The string whose encoding `bs` is, if `bs` is well-formed UTF-8. */
  function Decode(bs: seq<byte>): Option<string>
    decreases |bs|
  {
    if bs == [] then Some([])
    else match DecodeChar(bs)
      case None => None
      case Some((c, n)) =>
        match Decode(bs[n..])
        case None => None
        case Some(s) => Some([c] + s)
  }

  /** Reading the encoding of `c` back gives `c` and consumes exactly its bytes. */
  lemma DecodeEncodeChar(c: char, rest: seq<byte>)
    ensures DecodeChar(EncodeChar(c) + rest) == Some((c, |EncodeChar(c)|))
  {
    var n := c as int;
    var bs := EncodeChar(c) + rest;
    if n < 0x80 {
    } else if n < 0x800 {
      assert (n / 0x40) * 0x40 + n % 0x40 == n;
    } else if n < 0x1_0000 {
      var hi := n / 0x40;
      assert hi / 0x40 == n / 0x1000;
      assert (hi / 0x40) * 0x40 + hi % 0x40 == hi;
      assert hi * 0x40 + n % 0x40 == n;
    } else {
      var hi := n / 0x40;
      var top := hi / 0x40;
      assert top == n / 0x1000;
      assert top / 0x40 == n / 0x4_0000;
      assert (top / 0x40) * 0x40 + top % 0x40 == top;
      assert top * 0x40 + hi % 0x40 == hi;
      assert hi * 0x40 + n % 0x40 == n;
    }
  }

  /** Decoding undoes encoding, for every string. */
  lemma {:induction false} DecodeEncode(s: string)
    ensures Decode(Encode(s)) == Some(s)
  {
    if s != [] {
      var bs := Encode(s);
      assert bs == EncodeChar(s[0]) + Encode(s[1..]);
      DecodeEncodeChar(s[0], Encode(s[1..]));
      assert bs[|EncodeChar(s[0])|..] == Encode(s[1..]);
      DecodeEncode(s[1..]);
      assert [s[0]] + s[1..] == s;
    }
  }

  /** A string of ASCII characters takes one byte per character, each its code. */
  lemma {:induction false} EncodeAscii(s: string)
    requires forall i :: 0 <= i < |s| ==> (s[i] as int) < 0x80
    ensures |Encode(s)| == |s|
    ensures forall i :: 0 <= i < |s| ==> Encode(s)[i] == s[i] as int
  {
    if s != [] {
      EncodeAscii(s[1..]);
    }
  }
}
