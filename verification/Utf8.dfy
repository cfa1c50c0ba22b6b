/** Well-formed UTF-8, as section 4 of RFC 3629 lays it down; a Rust `String` is never anything else. */
module Utf8 {
  import opened ByteStrings

  type Text = b: Bytes | IsUtf8(b) witness []

  predicate Tail(b: byte) {
    0x80 <= b <= 0xBF
  }

  /** Length of the character at the front, or 0 when there is no well-formed one. */
  function FirstLength(b: Bytes): (n: nat)
    ensures n <= |b|
  {
    if |b| >= 1 && b[0] <= 0x7F then 1
    else if |b| >= 2 && 0xC2 <= b[0] <= 0xDF && Tail(b[1]) then 2
    else if |b| >= 3 && Tail(b[1]) && Tail(b[2]) && (
      (b[0] == 0xE0 && b[1] >= 0xA0) || 0xE1 <= b[0] <= 0xEC
      || (b[0] == 0xED && b[1] <= 0x9F) || 0xEE <= b[0] <= 0xEF) then 3
    else if |b| >= 4 && Tail(b[1]) && Tail(b[2]) && Tail(b[3]) && (
      (b[0] == 0xF0 && b[1] >= 0x90) || 0xF1 <= b[0] <= 0xF3
      || (b[0] == 0xF4 && b[1] <= 0x8F)) then 4
    else 0
  }

  predicate IsUtf8(b: Bytes) {
    b == [] || (FirstLength(b) > 0 && IsUtf8(b[FirstLength(b)..]))
  }

  // ----- the byte strings that encode characters -----

  /** A Unicode scalar value: a code point that is no surrogate. */
  type Scalar = c: int | 0 <= c <= 0x10FFFF && !(0xD800 <= c <= 0xDFFF) witness 0

  /** Section 3 of RFC 3629: six bits to a byte, but for the first. */
  function EncodeScalar(c: Scalar): (b: Bytes)
    ensures 1 <= |b| <= 4
  {
    var d := c / 64;
    var e := d / 64;
    if c <= 0x7F then [c]
    else if c <= 0x7FF then [0xC0 + d, 0x80 + c % 64]
    else if c <= 0xFFFF then [0xE0 + e, 0x80 + d % 64, 0x80 + c % 64]
    else [0xF0 + e / 64, 0x80 + e % 64, 0x80 + d % 64, 0x80 + c % 64]
  }

  function EncodeText(cs: seq<Scalar>): Bytes {
    if cs == [] then [] else EncodeScalar(cs[0]) + EncodeText(cs[1..])
  }

  lemma EncodedFirst(c: Scalar, rest: Bytes)
    ensures FirstLength(EncodeScalar(c) + rest) == |EncodeScalar(c)|
  {
  }

  lemma LowBits(high: nat, low: nat)
    requires low < 64
    ensures (high * 64 + low) / 64 == high && (high * 64 + low) % 64 == low
  {
  }

  /** The character that a well-formed front stands for. */
  lemma FirstDecoded(b: Bytes) returns (c: Scalar)
    requires FirstLength(b) > 0
    ensures b[..FirstLength(b)] == EncodeScalar(c)
  {
    var n, first: int := FirstLength(b), b[0];
    if n == 1 {
      c := first;
    } else if n == 2 {
      c := Low(first - 0xC0, b[1]);
    } else if n == 3 {
      var d := Low(first - 0xE0, b[1]);
      c := Low(d, b[2]);
    } else {
      var e := Low(first - 0xF0, b[1]);
      var d := Low(e, b[2]);
      c := Low(d, b[3]);
    }
  }

  /** Six bits more. */
  lemma Low(high: nat, b: byte) returns (c: nat)
    requires Tail(b)
    ensures c == high * 64 + (b as int - 0x80) && c / 64 == high && c % 64 == b as int - 0x80
  {
    c := high * 64 + (b as int - 0x80);
    LowBits(high, b as int - 0x80);
  }

  lemma {:induction false} EncodedIsUtf8(cs: seq<Scalar>)
    ensures IsUtf8(EncodeText(cs))
  {
    if cs != [] {
      EncodedIsUtf8(cs[1..]);
      EncodedFirst(cs[0], EncodeText(cs[1..]));
      assert EncodeText(cs)[|EncodeScalar(cs[0])|..] == EncodeText(cs[1..]);
    }
  }

  lemma {:induction false} Utf8Decoded(b: Bytes) returns (cs: seq<Scalar>)
    requires IsUtf8(b)
    ensures EncodeText(cs) == b
    decreases |b|
  {
    if b == [] {
      cs := [];
    } else {
      var n := FirstLength(b);
      var c := FirstDecoded(b);
      var more := Utf8Decoded(b[n..]);
      cs := [c] + more;
      assert cs[1..] == more && b == b[..n] + b[n..];
    }
  }

  /** Accepted are exactly the encodings of sequences of characters. */
  lemma Utf8IffEncoded(b: Bytes)
    ensures IsUtf8(b) <==> exists cs :: EncodeText(cs) == b
  {
    if IsUtf8(b) {
      var cs := Utf8Decoded(b);
    }
    if cs :| EncodeText(cs) == b {
      EncodedIsUtf8(cs);
    }
  }
}
