/** Well-formed UTF-8: the test the string fields' parser makes, and the encoding it is for. */
module Utf8 {
  import opened WireFormat

  // ---------------------------------------------------------------------------------------
  //  The syntax of RFC 3629, section 4
  // ---------------------------------------------------------------------------------------

  predicate Tail(b: Bytes, i: nat) {
    i < |b| && 0x80 <= b[i] <= 0xBF
  }

  /** Length of the well-formed character at the front of `b`, 0 when there is none. */
  function Utf8Char(b: Bytes): (n: nat)
    ensures n <= |b|
  {
    if |b| == 0 then 0
    else if b[0] <= 0x7F then 1
    else if 0xC2 <= b[0] <= 0xDF then if Tail(b, 1) then 2 else 0
    else if 0xE0 <= b[0] <= 0xEF then
      if Tail(b, 1) && Tail(b, 2) && (b[0] == 0xE0 ==> b[1] >= 0xA0) && (b[0] == 0xED ==> b[1] <= 0x9F)
      then 3 else 0
    else if 0xF0 <= b[0] <= 0xF4 then
      if Tail(b, 1) && Tail(b, 2) && Tail(b, 3) && (b[0] == 0xF0 ==> b[1] >= 0x90) && (b[0] == 0xF4 ==> b[1] <= 0x8F)
      then 4 else 0
    else 0
  }

  predicate ValidUtf8(b: Bytes)
    decreases |b|
  {
    |b| == 0 || (Utf8Char(b) > 0 && ValidUtf8(b[Utf8Char(b)..]))
  }

  // ---------------------------------------------------------------------------------------
  //  The encoding of RFC 3629, section 3
  // ---------------------------------------------------------------------------------------

  /** A character number that is no surrogate. */
  type Scalar = c: int | 0 <= c < 0xD800 || 0xE000 <= c < 0x11_0000

  function EncodeChar(c: Scalar): (b: Bytes)
    ensures 1 <= |b| <= 4
  {
    if c < 0x80 then [c]
    else if c < 0x800 then [0xC0 + c / 64, 0x80 + c % 64]
    else if c < 0x1_0000 then [0xE0 + c / 4096, 0x80 + c / 64 % 64, 0x80 + c % 64]
    else [0xF0 + c / 0x4_0000, 0x80 + c / 4096 % 64, 0x80 + c / 64 % 64, 0x80 + c % 64]
  }

  function Encode(text: seq<Scalar>): Bytes {
    if text == [] then [] else EncodeChar(text[0]) + Encode(text[1..])
  }

  /** An encoded character is recognized, whatever follows. */
  lemma CharIsRecognized(c: Scalar, rest: Bytes)
    ensures Utf8Char(EncodeChar(c) + rest) == |EncodeChar(c)|
  {
    var b := EncodeChar(c) + rest;
    assert forall i :: 0 <= i < |EncodeChar(c)| ==> b[i] == EncodeChar(c)[i];
  }

  /** What is recognized as a character encodes one. */
  lemma RecognizedIsChar(b: Bytes) returns (c: Scalar)
    requires Utf8Char(b) > 0
    ensures b[..Utf8Char(b)] == EncodeChar(c)
  {
    var n := Utf8Char(b);
    if n == 1 {
      c := b[0];
    } else if n == 2 {
      c := TwoBytes(b[0], b[1]);
    } else if n == 3 {
      c := ThreeBytes(b[0], b[1], b[2]);
    } else {
      c := FourBytes(b[0], b[1], b[2], b[3]);
    }
  }

  lemma TwoBytes(x: int, y: int) returns (c: Scalar)
    requires 0xC2 <= x <= 0xDF && 0x80 <= y <= 0xBF
    ensures EncodeChar(c) == [x, y]
  {
    c := (x - 0xC0) * 64 + (y - 0x80);
  }

  lemma ThreeBytes(x: int, y: int, z: int) returns (c: Scalar)
    requires 0xE0 <= x <= 0xEF && 0x80 <= y <= 0xBF && 0x80 <= z <= 0xBF
    requires (x == 0xE0 ==> y >= 0xA0) && (x == 0xED ==> y <= 0x9F)
    ensures EncodeChar(c) == [x, y, z]
  {
    var high := (x - 0xE0) * 64 + (y - 0x80);
    c := high * 64 + (z - 0x80);
    assert c / 64 == high && c / 4096 == x - 0xE0;
  }

  lemma FourBytes(x: int, y: int, z: int, w: int) returns (c: Scalar)
    requires 0xF0 <= x <= 0xF4 && 0x80 <= y <= 0xBF && 0x80 <= z <= 0xBF && 0x80 <= w <= 0xBF
    requires (x == 0xF0 ==> y >= 0x90) && (x == 0xF4 ==> y <= 0x8F)
    ensures EncodeChar(c) == [x, y, z, w]
  {
    var high := (x - 0xF0) * 64 + (y - 0x80);
    var middle := high * 64 + (z - 0x80);
    c := middle * 64 + (w - 0x80);
    assert c / 64 == middle && c / 4096 == high && c / 0x4_0000 == x - 0xF0;
  }

  lemma {:induction false} EncodedIsValid(text: seq<Scalar>)
    ensures ValidUtf8(Encode(text))
  {
    if text != [] {
      var rest := Encode(text[1..]);
      CharIsRecognized(text[0], rest);
      EncodedIsValid(text[1..]);
      assert (EncodeChar(text[0]) + rest)[|EncodeChar(text[0])|..] == rest;
    }
  }

  lemma {:induction false} Decode(b: Bytes) returns (text: seq<Scalar>)
    requires ValidUtf8(b)
    ensures Encode(text) == b
    decreases |b|
  {
    hide Utf8Char;
    hide EncodeChar;
    if b == [] {
      text := [];
    } else {
      var c := RecognizedIsChar(b);
      var rest := Decode(b[Utf8Char(b)..]);
      text := [c] + rest;
      assert text[1..] == rest;
      assert b == b[..Utf8Char(b)] + b[Utf8Char(b)..];
    }
  }

  /** The bytes the test accepts are exactly the encodings of texts. */
  lemma ValidExactlyEncodings(b: Bytes)
    ensures ValidUtf8(b) <==> exists text :: Encode(text) == b
  {
    if ValidUtf8(b) {
      var text := Decode(b);
    }
    if exists text :: Encode(text) == b {
      var text :| Encode(text) == b;
      EncodedIsValid(text);
    }
  }

  /** Seven-bit bytes encode themselves. */
  lemma {:induction false} AsciiIsValid(b: Bytes)
    requires forall x <- b :: x <= 0x7F
    ensures ValidUtf8(b)
    decreases |b|
  {
    if b != [] {
      assert b[0] in b && forall x <- b[1..] :: x in b;
      AsciiIsValid(b[1..]);
    }
  }
}
