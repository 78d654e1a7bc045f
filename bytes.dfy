/** Go strings are immutable byte sequences; this module fixes the byte type and the
    UTF-8 encoding that turns a Go string literal into the bytes the program holds.
    Literals are written with `Ascii` and `Wide`, which agree with that encoding on
    the characters they accept. */
module Bytes {

  newtype byte = b: int | 0 <= b < 256

  /** The UTF-8 encoding of a sequence of Unicode scalar values, as the Go compiler
      stores a string literal. */
  function Utf8(s: string): (r: seq<byte>)
    ensures |s| <= |r| <= 4 * |s|
  {
    if s == [] then []
    else
      var c := s[0] as int;
      (if c < 0x80 then [c as byte]
       else if c < 0x800 then [(0xC0 + c / 64) as byte, (0x80 + c % 64) as byte]
       else if c < 0x10000 then
         [(0xE0 + c / 4096) as byte, (0x80 + (c / 64) % 64) as byte, (0x80 + c % 64) as byte]
       else
         [(0xF0 + c / 262144) as byte, (0x80 + (c / 4096) % 64) as byte,
          (0x80 + (c / 64) % 64) as byte, (0x80 + c % 64) as byte])
      + Utf8(s[1..])
  }

  /** The bytes of an ASCII literal, one per character; the same as its UTF-8
      encoding (`Utf8Ascii`). */
  function Ascii(s: string): (r: seq<byte>)
    requires forall i :: 0 <= i < |s| ==> s[i] < 128 as char
    ensures |r| == |s|
  {
    seq(|s|, i requires 0 <= i < |s| => s[i] as int as byte)
  }

  /** ASCII text encodes byte for byte. */
  lemma {:induction false} Utf8Ascii(s: string)
    requires forall i :: 0 <= i < |s| ==> s[i] as int < 0x80
    ensures |Utf8(s)| == |s|
    ensures forall i :: 0 <= i < |s| ==> Utf8(s)[i] as int == s[i] as int
    ensures Utf8(s) == Ascii(s)
  {
    if s != [] {
      Utf8Ascii(s[1..]);
    }
  }

  /** A character that UTF-8 encodes in three bytes (all of the CJK ideographs and
      the general punctuation). */
  predicate ThreeByte(c: char) {
    0x800 <= c as int < 0x10000
  }

  /** Byte `k` of the three-byte encoding of `c`. */
  function WideByte(c: char, k: nat): byte
    requires ThreeByte(c) && k < 3
  {
    if k == 0 then (0xE0 + c as int / 4096) as byte
    else if k == 1 then (0x80 + (c as int / 64) % 64) as byte
    else (0x80 + c as int % 64) as byte
  }

  /** The bytes of a literal made of three-byte characters, three per character;
      the same as its UTF-8 encoding (`Utf8Wide`). */
  function Wide(s: string): (r: seq<byte>)
    requires forall i :: 0 <= i < |s| ==> ThreeByte(s[i])
    ensures |r| == 3 * |s|
  {
    seq(3 * |s|, j requires 0 <= j < 3 * |s| => WideByte(s[j / 3], j % 3))
  }

  /** Three-byte text encodes three bytes per character. */
  lemma {:induction false} Utf8Wide(s: string)
    requires forall i :: 0 <= i < |s| ==> ThreeByte(s[i])
    ensures Utf8(s) == Wide(s)
  {
    if s != [] {
      Utf8Wide(s[1..]);
      Utf8Head(s);
      WideHead(s);
    }
  }

  lemma {:induction false} Utf8Head(s: string)
    requires s != [] && ThreeByte(s[0])
    ensures Utf8(s) == [WideByte(s[0], 0), WideByte(s[0], 1), WideByte(s[0], 2)] + Utf8(s[1..])
  {
  }

  lemma {:induction false} WideHead(s: string)
    requires s != [] && forall i :: 0 <= i < |s| ==> ThreeByte(s[i])
    ensures Wide(s) == [WideByte(s[0], 0), WideByte(s[0], 1), WideByte(s[0], 2)] + Wide(s[1..])
  {
    var w, t := Wide(s), Wide(s[1..]);
    forall j | 3 <= j < |w|
      ensures w[j] == t[j - 3]
    {
      WideShift(s, j);
    }
    assert w[0] == WideByte(s[0], 0) && w[1] == WideByte(s[0], 1) && w[2] == WideByte(s[0], 2);
  }

  lemma {:induction false} WideShift(s: string, j: nat)
    requires forall i :: 0 <= i < |s| ==> ThreeByte(s[i])
    requires 3 <= j < 3 * |s|
    ensures Wide(s)[j] == Wide(s[1..])[j - 3]
  {
    assert (j - 3) / 3 == j / 3 - 1 && (j - 3) % 3 == j % 3;
    assert s[j / 3] == s[1..][(j - 3) / 3];
  }

  /** Every byte of three-byte text has its high bit set, so none is ASCII. */
  lemma {:induction false} WideHigh(s: string)
    requires forall i :: 0 <= i < |s| ==> ThreeByte(s[i])
    ensures forall j :: 0 <= j < |Wide(s)| ==> Wide(s)[j] >= 0x80
  {
  }
}
