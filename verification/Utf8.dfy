/** Well-formed UTF-8, as section 4 of RFC 3629 defines it. */
module Utf8 {

  type byte = b: int | 0 <= b < 256

  predicate Tail(b: byte) {
    0x80 <= b <= 0xBF
  }

  /** The length of the well-formed character that `s` starts with, 0 if there is none. */
  function CharLength(s: seq<byte>): (n: nat)
    ensures n <= |s|
  {
    if s == [] then 0
    else if s[0] <= 0x7F then 1
    else if 0xC2 <= s[0] <= 0xDF then
      if |s| >= 2 && Tail(s[1]) then 2 else 0
    else if 0xE0 <= s[0] <= 0xEF then
      if |s| >= 3 && Second3(s[0], s[1]) && Tail(s[2]) then 3 else 0
    else if 0xF0 <= s[0] <= 0xF4 then
      if |s| >= 4 && Second4(s[0], s[1]) && Tail(s[2]) && Tail(s[3]) then 4 else 0
    else 0
  }

  predicate Second3(first: byte, second: byte) {
    if first == 0xE0 then 0xA0 <= second <= 0xBF
    else if first == 0xED then 0x80 <= second <= 0x9F
    else Tail(second)
  }

  predicate Second4(first: byte, second: byte) {
    if first == 0xF0 then 0x90 <= second <= 0xBF
    else if first == 0xF4 then 0x80 <= second <= 0x8F
    else Tail(second)
  }

  predicate IsUtf8(s: seq<byte>)
    decreases |s|
  {
    s == [] || (CharLength(s) > 0 && IsUtf8(s[CharLength(s)..]))
  }

  lemma {:induction false} ValidPrefix(a: seq<byte>, b: seq<byte>)
    requires IsUtf8(a)
    ensures IsUtf8(a + b) <==> IsUtf8(b)
    decreases |a|
  {
    if a == [] {
      assert a + b == b;
    } else {
      var n := CharLength(a);
      assert CharLength(a + b) == n;
      assert (a + b)[n..] == a[n..] + b;
      ValidPrefix(a[n..], b);
    }
  }

  /** An ASCII byte is never inside a character, so valid text stays valid when cut there. */
  lemma {:induction false} CutAtAscii(a: seq<byte>, c: byte, b: seq<byte>)
    requires c <= 0x7F
    requires IsUtf8(a + [c] + b)
    ensures IsUtf8(a) && IsUtf8(b)
    decreases |a|
  {
    var s := a + [c] + b;
    if a == [] {
      assert s[0] == c && s[1..] == b;
    } else {
      var n := CharLength(s);
      assert s[|a|] == c;
      assert n <= |a|;
      assert CharLength(a) == n;
      assert s[n..] == a[n..] + [c] + b;
      CutAtAscii(a[n..], c, b);
    }
  }

  // ------------------------------------------------------------------------
  // Well-formed text is what encoding characters gives
  // ------------------------------------------------------------------------

  /** Every code point but the surrogates. */
  predicate IsScalar(c: nat) {
    c < 0xD800 || 0xE000 <= c < 0x11_0000
  }

  /** Six bits after another, as section 3 of RFC 3629 lays them out. */
  function Encode(c: nat): seq<byte>
    requires IsScalar(c)
  {
    if c < 0x80 then [c]
    else if c < 0x800 then [0xC0 + c / 64, 0x80 + c % 64]
    else if c < 0x1_0000 then [0xE0 + c / 4096, 0x80 + c / 64 % 64, 0x80 + c % 64]
    else [0xF0 + c / 262144, 0x80 + c / 4096 % 64, 0x80 + c / 64 % 64, 0x80 + c % 64]
  }

  ghost predicate IsText(text: seq<nat>) {
    forall i | 0 <= i < |text| :: IsScalar(text[i])
  }

  ghost function EncodeText(text: seq<nat>): seq<byte>
    requires IsText(text)
  {
    if text == [] then [] else Encode(text[0]) + EncodeText(text[1..])
  }

  lemma EncodedLength(c: nat, rest: seq<byte>)
    requires IsScalar(c)
    ensures CharLength(Encode(c) + rest) == |Encode(c)| > 0
  {
    if c < 0x800 {
      assert (Encode(c) + rest)[0] == Encode(c)[0];
    } else if c < 0x1_0000 {
      ThreeBytes(c, rest);
    } else {
      FourBytes(c, rest);
    }
  }

  lemma ThreeBytes(c: nat, rest: seq<byte>)
    requires 0x800 <= c < 0x1_0000 && IsScalar(c)
    ensures CharLength(Encode(c) + rest) == 3
  {
    var high, middle := c / 4096, c / 64 % 64;
    assert c == high * 4096 + middle * 64 + c % 64;
    var first: byte, second: byte := 0xE0 + high, 0x80 + middle;
    assert Encode(c) == [first, second, 0x80 + c % 64];
    assert Second3(first, second);
    hide Encode, Second3;
  }

  lemma FourBytes(c: nat, rest: seq<byte>)
    requires 0x1_0000 <= c < 0x11_0000
    ensures CharLength(Encode(c) + rest) == 4
  {
    var high, middle := c / 262144, c / 4096 % 64;
    assert c == high * 262144 + middle * 4096 + c % 4096;
    var first: byte, second: byte := 0xF0 + high, 0x80 + middle;
    assert Encode(c) == [first, second, 0x80 + c / 64 % 64, 0x80 + c % 64];
    assert Second4(first, second);
    hide Encode, Second4;
  }

  lemma SixBitDigits(a: nat, b: nat, c: nat, d: nat)
    requires b < 64 && c < 64 && d < 64
    ensures var n := a * 262144 + b * 4096 + c * 64 + d;
            n % 64 == d && n / 64 % 64 == c && n / 4096 % 64 == b && n / 262144 == a
  {
    var n := a * 262144 + b * 4096 + c * 64 + d;
    assert n / 64 == a * 4096 + b * 64 + c;
    assert n / 4096 == a * 64 + b;
  }

  lemma CharacterOf(s: seq<byte>) returns (c: nat)
    requires CharLength(s) > 0
    ensures IsScalar(c) && s[..CharLength(s)] == Encode(c)
  {
    var n := CharLength(s);
    if n == 1 {
      c := s[0];
    } else if n == 2 {
      c := TwoByteCharacter(s[0], s[1]);
      assert s[..2] == [s[0], s[1]];
    } else if n == 3 {
      c := ThreeByteCharacter(s[0], s[1], s[2]);
      assert s[..3] == [s[0], s[1], s[2]];
    } else {
      c := FourByteCharacter(s[0], s[1], s[2], s[3]);
      assert s[..4] == [s[0], s[1], s[2], s[3]];
    }
  }

  lemma TwoByteCharacter(first: byte, second: byte) returns (c: nat)
    requires 0xC2 <= first <= 0xDF && Tail(second)
    ensures 0x80 <= c < 0x800 && Encode(c) == [first, second]
  {
    var high: int, low: int := first, second;
    c := (high - 0xC0) * 64 + (low - 0x80);
    SixBitDigits(0, 0, high - 0xC0, low - 0x80);
  }

  lemma ThreeByteCharacter(first: byte, second: byte, third: byte) returns (c: nat)
    requires 0xE0 <= first <= 0xEF && Second3(first, second) && Tail(third)
    ensures 0x800 <= c < 0x1_0000 && IsScalar(c) && Encode(c) == [first, second, third]
  {
    var a: int, b: int, d: int := first, second, third;
    c := (a - 0xE0) * 4096 + (b - 0x80) * 64 + (d - 0x80);
    SixBitDigits(0, a - 0xE0, b - 0x80, d - 0x80);
  }

  lemma FourByteCharacter(first: byte, second: byte, third: byte, fourth: byte) returns (c: nat)
    requires 0xF0 <= first <= 0xF4 && Second4(first, second) && Tail(third) && Tail(fourth)
    ensures 0x1_0000 <= c < 0x11_0000 && Encode(c) == [first, second, third, fourth]
  {
    var a: int, b: int, d: int, e: int := first, second, third, fourth;
    c := (a - 0xF0) * 262144 + (b - 0x80) * 4096 + (d - 0x80) * 64 + (e - 0x80);
    SixBitDigits(a - 0xF0, b - 0x80, d - 0x80, e - 0x80);
  }

  /** Bytes are well-formed exactly when they encode some text. */
  lemma WellFormedIsEncoded(s: seq<byte>)
    ensures IsUtf8(s) <==> exists text :: IsText(text) && EncodeText(text) == s
  {
    if IsUtf8(s) {
      var text := TextOf(s);
    } else if text :| IsText(text) && EncodeText(text) == s {
      EncodedIsWellFormed(text);
    }
  }

  lemma {:induction false} EncodedIsWellFormed(text: seq<nat>)
    requires IsText(text)
    ensures IsUtf8(EncodeText(text))
    decreases |text|
  {
    if text != [] {
      var rest := EncodeText(text[1..]);
      EncodedIsWellFormed(text[1..]);
      EncodedLength(text[0], rest);
      assert (Encode(text[0]) + rest)[|Encode(text[0])|..] == rest;
    }
  }

  lemma {:induction false} TextOf(s: seq<byte>) returns (text: seq<nat>)
    requires IsUtf8(s)
    ensures IsText(text) && EncodeText(text) == s
    decreases |s|
  {
    hide Encode, CharLength;
    text := [];
    if s != [] {
      var n := CharLength(s);
      var c := CharacterOf(s);
      var rest := TextOf(s[n..]);
      text := [c] + rest;
      assert text[1..] == rest;
      assert s == s[..n] + s[n..];
    }
  }
}
