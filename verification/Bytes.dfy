/** Bytes, fixed-width integers, UTF-8 text and a few facts about prefixes of byte sequences. */
module Bytes {
  datatype Option<+T> = None | Some(value: T)

  type byte = x: int | 0 <= x < 256

  // The integer widths of the wire format. Rust's Vec and String never exceed isize::MAX bytes.
  const TWO_31: int := 0x8000_0000
  const TWO_32: int := 0x1_0000_0000
  const TWO_63: int := 0x8000_0000_0000_0000
  const TWO_64: int := 0x1_0000_0000_0000_0000
  type u32 = x: int | 0 <= x < TWO_32
  type u64 = x: int | 0 <= x < TWO_64
  type i32 = x: int | -TWO_31 <= x < TWO_31
  type i64 = x: int | -TWO_63 <= x < TWO_63

  predicate Continuation(b: byte) { 0x80 <= b < 0xC0 }

  // Well-formed UTF-8: table 3-7 of the Unicode standard, the rule of Rust's `str::from_utf8`.
  predicate ValidUtf8(s: seq<byte>)
    decreases |s|
  {
    if s == [] then true
    else if s[0] < 0x80 then ValidUtf8(s[1..])
    else if 0xC2 <= s[0] <= 0xDF then |s| >= 2 && Continuation(s[1]) && ValidUtf8(s[2..])
    else if 0xE0 <= s[0] <= 0xEF then
      && |s| >= 3 && Continuation(s[1]) && Continuation(s[2])
      && (s[0] == 0xE0 ==> s[1] >= 0xA0)
      && (s[0] == 0xED ==> s[1] < 0xA0)
      && ValidUtf8(s[3..])
    else if 0xF0 <= s[0] <= 0xF4 then
      && |s| >= 4 && Continuation(s[1]) && Continuation(s[2]) && Continuation(s[3])
      && (s[0] == 0xF0 ==> s[1] >= 0x90)
      && (s[0] == 0xF4 ==> s[1] < 0x90)
      && ValidUtf8(s[4..])
    else false
  }

  // A Unicode scalar value, and its encoding (table 3-6 of the Unicode standard).
  type Scalar = c: int | 0 <= c < 0xD800 || 0xE000 <= c < 0x11_0000

  function EncodeScalar(c: Scalar): seq<byte> {
    if c < 0x80 then [c]
    else if c < 0x800 then [0xC0 + c / 0x40, 0x80 + c % 0x40]
    else if c < 0x1_0000 then [0xE0 + c / 0x1000, 0x80 + c / 0x40 % 0x40, 0x80 + c % 0x40]
    else [0xF0 + c / 0x4_0000, 0x80 + c / 0x1000 % 0x40, 0x80 + c / 0x40 % 0x40, 0x80 + c % 0x40]
  }

  function EncodeText(cs: seq<Scalar>): seq<byte> {
    if cs == [] then [] else EncodeScalar(cs[0]) + EncodeText(cs[1..])
  }

  lemma ScalarInFront(c: Scalar, rest: seq<byte>)
    ensures ValidUtf8(EncodeScalar(c) + rest) <==> ValidUtf8(rest)
  {
    var e := EncodeScalar(c);
    var s := e + rest;
    assert s[|e|..] == rest;
    if 0x800 <= c < 0x1_0000 {
      assert c / 0x40 / 0x40 == c / 0x1000;
    } else if c >= 0x1_0000 {
      assert c / 0x1000 / 0x40 == c / 0x4_0000;
    }
  }

  lemma ThreeDigits(a: nat, b: nat, d: nat)
    requires b < 0x40 && d < 0x40
    ensures var high := a * 0x40 + b;
            var c := high * 0x40 + d;
            c / 0x40 == high && c % 0x40 == d && high % 0x40 == b && high / 0x40 == a && c / 0x1000 == a
  {
  }

  lemma ScalarOfTwo(b0: int, b1: int) returns (c: Scalar)
    requires 0xC2 <= b0 <= 0xDF && 0x80 <= b1 < 0xC0
    ensures EncodeScalar(c) == [b0, b1]
  {
    c := (b0 - 0xC0) * 0x40 + (b1 - 0x80);
    assert c / 0x40 == b0 - 0xC0 && c % 0x40 == b1 - 0x80;
  }

  lemma ScalarOfThree(b0: int, b1: int, b2: int) returns (c: Scalar)
    requires 0xE0 <= b0 <= 0xEF && 0x80 <= b1 < 0xC0 && 0x80 <= b2 < 0xC0
    requires (b0 == 0xE0 ==> b1 >= 0xA0) && (b0 == 0xED ==> b1 < 0xA0)
    ensures EncodeScalar(c) == [b0, b1, b2]
  {
    c := ((b0 - 0xE0) * 0x40 + (b1 - 0x80)) * 0x40 + (b2 - 0x80);
    ThreeDigits(b0 - 0xE0, b1 - 0x80, b2 - 0x80);
  }

  lemma ScalarOfFour(b0: int, b1: int, b2: int, b3: int) returns (c: Scalar)
    requires 0xF0 <= b0 <= 0xF4 && 0x80 <= b1 < 0xC0 && 0x80 <= b2 < 0xC0 && 0x80 <= b3 < 0xC0
    requires (b0 == 0xF0 ==> b1 >= 0x90) && (b0 == 0xF4 ==> b1 < 0x90)
    ensures EncodeScalar(c) == [b0, b1, b2, b3]
  {
    var higher := (b0 - 0xF0) * 0x40 + (b1 - 0x80);
    c := (higher * 0x40 + (b2 - 0x80)) * 0x40 + (b3 - 0x80);
    ThreeDigits(higher, b2 - 0x80, b3 - 0x80);
    ThreeDigits(b0 - 0xF0, b1 - 0x80, b2 - 0x80);
    assert c / 0x1000 == higher && c / 0x4_0000 == higher / 0x40;
  }

  // The scalar value a valid text starts with.
  lemma FirstScalar(s: seq<byte>) returns (c: Scalar)
    requires s != [] && ValidUtf8(s)
    ensures EncodeScalar(c) <= s && ValidUtf8(s[|EncodeScalar(c)|..])
  {
    FrontIsValid(s);
    if s[0] < 0x80 {
      c := s[0];
      assert EncodeScalar(c) == [s[0]];
    } else {
      hide ValidUtf8, EncodeScalar;
      if s[0] <= 0xDF {
        c := ScalarOfTwo(s[0], s[1]);
      } else if s[0] <= 0xEF {
        c := ScalarOfThree(s[0], s[1], s[2]);
      } else {
        c := ScalarOfFour(s[0], s[1], s[2], s[3]);
      }
    }
  }

  lemma FrontIsValid(s: seq<byte>)
    requires s != [] && ValidUtf8(s)
    ensures s[0] < 0x80 ==> ValidUtf8(s[1..])
    ensures s[0] >= 0x80 ==> 0xC2 <= s[0] <= 0xF4 && |s| >= 2 && 0x80 <= s[1] < 0xC0
    ensures 0x80 <= s[0] <= 0xDF ==> ValidUtf8(s[2..])
    ensures 0xE0 <= s[0] <= 0xEF ==>
              && |s| >= 3 && 0x80 <= s[2] < 0xC0 && ValidUtf8(s[3..])
              && (s[0] == 0xE0 ==> s[1] >= 0xA0) && (s[0] == 0xED ==> s[1] < 0xA0)
    ensures 0xF0 <= s[0] ==>
              && |s| >= 4 && 0x80 <= s[2] < 0xC0 && 0x80 <= s[3] < 0xC0 && ValidUtf8(s[4..])
              && (s[0] == 0xF0 ==> s[1] >= 0x90) && (s[0] == 0xF4 ==> s[1] < 0x90)
  {
  }

  // The texts are exactly the encodings of sequences of scalar values.
  lemma {:induction false} EncodingIsValid(cs: seq<Scalar>)
    ensures ValidUtf8(EncodeText(cs))
    decreases |cs|
  {
    if cs != [] {
      EncodingIsValid(cs[1..]);
      ScalarInFront(cs[0], EncodeText(cs[1..]));
    }
  }

  lemma {:induction false} ValidIsEncoding(s: seq<byte>) returns (cs: seq<Scalar>)
    requires ValidUtf8(s)
    ensures EncodeText(cs) == s
    decreases |s|
  {
    hide ValidUtf8, EncodeScalar;
    if s == [] {
      cs := [];
    } else {
      var c := FirstScalar(s);
      ScalarIsNotEmpty(c);
      var rest := ValidIsEncoding(s[|EncodeScalar(c)|..]);
      cs := [c] + rest;
      assert cs[1..] == rest;
    }
  }

  lemma ScalarIsNotEmpty(c: Scalar)
    ensures EncodeScalar(c) != []
  {
  }

  // Rust's String.
  type Str = s: seq<byte> | ValidUtf8(s)

  predicate StartsWith(s: seq<byte>, prefix: seq<byte>) {
    prefix <= s
  }

  predicate IsAscii(s: string) {
    forall i :: 0 <= i < |s| ==> s[i] as int < 128
  }

  lemma {:induction false} AsciiIsUtf8(s: seq<byte>)
    requires forall i :: 0 <= i < |s| ==> s[i] < 0x80
    ensures ValidUtf8(s)
    decreases |s|
  {
    if s != [] {
      AsciiIsUtf8(s[1..]);
    }
  }

  // A text literal.
  function Ascii(s: string): (r: Str)
    requires IsAscii(s)
    ensures |r| == |s| && forall i :: 0 <= i < |s| ==> r[i] == s[i] as int
  {
    var r := seq(|s|, i requires 0 <= i < |s| => s[i] as int);
    AsciiIsUtf8(r);
    r
  }

  // A prefix of a + b is a proper prefix of a, or a followed by a prefix of b.
  lemma PrefixOfConcat(p: seq<byte>, a: seq<byte>, b: seq<byte>)
    requires p <= a + b
    ensures |p| < |a| ==> p < a
    ensures |p| >= |a| ==> p == a + p[|a|..] && p[|a|..] <= b
  {
    assert p == (a + b)[..|p|];
    if |p| < |a| {
      assert p == a[..|p|];
    } else {
      assert p[|a|..] == b[..|p| - |a|];
    }
  }
}
