/** The base64 engine the application uses: standard alphabet, mandatory canonical padding and
    zero trailing bits (sections 3.2, 3.5 and 4 of RFC 4648). */
module Base64 {
  import opened Bytes

  type sextet = x: int | 0 <= x < 64

  const PAD: byte := 61 // '='

  function Letter(i: sextet): byte {
    if i < 26 then 65 + i
    else if i < 52 then 97 + (i - 26)
    else if i < 62 then 48 + (i - 52)
    else if i == 62 then 43
    else 47
  }

  predicate IsLetter(c: byte) {
    65 <= c <= 90 || 97 <= c <= 122 || 48 <= c <= 57 || c == 43 || c == 47
  }

  function Index(c: byte): sextet
    requires IsLetter(c)
  {
    if 65 <= c <= 90 then c - 65
    else if 97 <= c <= 122 then c - 97 + 26
    else if 48 <= c <= 57 then c - 48 + 52
    else if c == 43 then 62
    else 63
  }

  predicate AllLetters(s: seq<byte>) {
    forall i :: 0 <= i < |s| ==> IsLetter(s[i])
  }

  // How many pad bytes make a core of n letters a multiple of four, when that is possible.
  function Pads(n: nat): seq<byte> {
    if n % 4 == 2 then [PAD, PAD] else if n % 4 == 3 then [PAD] else []
  }

  // The letters of the encoding, without padding.
  function Unpadded(b: seq<byte>): (s: seq<byte>)
    ensures |s| == (4 * |b| + 2) / 3
    ensures AllLetters(s)
  {
    if |b| == 0 then []
    else if |b| == 1 then [Letter(b[0] / 4), Letter(b[0] % 4 * 16)]
    else if |b| == 2 then [Letter(b[0] / 4), Letter(b[0] % 4 * 16 + b[1] / 16), Letter(b[1] % 16 * 4)]
    else Quad(b[0], b[1], b[2]) + Unpadded(b[3..])
  }

  function Quad(x: byte, y: byte, z: byte): seq<byte> {
    [Letter(x / 4), Letter(x % 4 * 16 + y / 16), Letter(y % 16 * 4 + z / 64), Letter(z % 64)]
  }

  function Encode(b: seq<byte>): seq<byte> {
    Unpadded(b) + Pads(|Unpadded(b)|)
  }

  // A group without pads.
  function DecodeFull(q: seq<byte>): Option<seq<byte>>
    requires |q| == 4
  {
    if AllLetters(q) then
      var i, j, k, l := Index(q[0]), Index(q[1]), Index(q[2]), Index(q[3]);
      Some([i * 4 + j / 16, j % 16 * 16 + k / 4, k % 4 * 64 + l])
    else None
  }

  // The last group, which may end in one or two pads; the bits they leave over must be zero.
  function DecodeLast(q: seq<byte>): Option<seq<byte>>
    requires |q| == 4
  {
    if q[3] != PAD then DecodeFull(q)
    else if !IsLetter(q[0]) || !IsLetter(q[1]) then None
    else
      var i, j := Index(q[0]), Index(q[1]);
      if q[2] == PAD then
        if j % 16 == 0 then Some([i * 4 + j / 16]) else None
      else if IsLetter(q[2]) && Index(q[2]) % 4 == 0 then
        Some([i * 4 + j / 16, j % 16 * 16 + Index(q[2]) / 4])
      else None
  }

  function Decode(s: seq<byte>): Option<seq<byte>>
    decreases |s|
  {
    if s == [] then Some([])
    else if |s| < 4 then None
    else if |s| == 4 then DecodeLast(s)
    else
      match (DecodeFull(s[..4]), Decode(s[4..]))
      case (Some(head), Some(tail)) => Some(head + tail)
      case _ => None
  }

  // Table 1 of RFC 4648.
  lemma AlphabetExact(i: sextet)
    ensures i < 26 ==> Letter(i) == 'A' as int + i
    ensures 26 <= i < 52 ==> Letter(i) == 'a' as int + (i - 26)
    ensures 52 <= i < 62 ==> Letter(i) == '0' as int + (i - 52)
    ensures i == 62 ==> Letter(i) == '+' as int
    ensures i == 63 ==> Letter(i) == '/' as int
    ensures PAD == '=' as int
  {
  }

  // A group is a 24-bit number, most significant bits first.
  lemma GroupIsBigEndian(x: byte, y: byte, z: byte)
    ensures var q := Quad(x, y, z);
            && AllLetters(q)
            && Index(q[0]) * 262144 + Index(q[1]) * 4096 + Index(q[2]) * 64 + Index(q[3]) == x * 65536 + y * 256 + z
  {
    hide Letter, Index, IsLetter;
    LetterIndex(x / 4);
    LetterIndex(x % 4 * 16 + y / 16);
    LetterIndex(y % 16 * 4 + z / 64);
    LetterIndex(z % 64);
  }

  // One or two bytes left over are padded with zero bits and with pads.
  lemma RestIsBigEndian(x: byte, y: byte)
    ensures var q := Encode([x]);
            |q| == 4 && q[2..] == [61, 61] && IsLetter(q[0]) && IsLetter(q[1]) && Index(q[0]) * 64 + Index(q[1]) == x * 16
    ensures var q := Encode([x, y]);
            && |q| == 4 && q[3] == 61 && IsLetter(q[0]) && IsLetter(q[1]) && IsLetter(q[2])
            && Index(q[0]) * 4096 + Index(q[1]) * 64 + Index(q[2]) == (x * 256 + y) * 4
  {
    hide Letter, Index, IsLetter;
    LetterIndex(x / 4);
    LetterIndex(x % 4 * 16);
    LetterIndex(x % 4 * 16 + y / 16);
    LetterIndex(y % 16 * 4);
  }

  lemma LetterIndex(i: sextet)
    ensures IsLetter(Letter(i)) && Index(Letter(i)) == i && Letter(i) != PAD
  {
  }

  lemma IndexLetter(c: byte)
    requires IsLetter(c)
    ensures Letter(Index(c)) == c
  {
  }

  lemma QuadOfSextets(p: sextet, q: sextet, r: sextet, s: sextet)
    ensures Quad(p * 4 + q / 16, q % 16 * 16 + r / 4, r % 4 * 64 + s) == [Letter(p), Letter(q), Letter(r), Letter(s)]
  {
    var x, y, z := p * 4 + q / 16, q % 16 * 16 + r / 4, r % 4 * 64 + s;
    assert x / 4 == p && x % 4 * 16 + y / 16 == q && y % 16 * 4 + z / 64 == r && z % 64 == s;
  }

  lemma FullOfLetters(i: sextet, j: sextet, k: sextet, l: sextet)
    ensures var q := [Letter(i), Letter(j), Letter(k), Letter(l)];
            q[3] != PAD && DecodeFull(q) == Some([i * 4 + j / 16, j % 16 * 16 + k / 4, k % 4 * 64 + l])
  {
    LetterIndex(i);
    LetterIndex(j);
    LetterIndex(k);
    LetterIndex(l);
  }

  // Three bytes as four sextets and back.
  lemma Regrouped(x: byte, y: byte, z: byte)
    ensures var j, k := x % 4 * 16 + y / 16, y % 16 * 4 + z / 64;
            x / 4 * 4 + j / 16 == x && j % 16 * 16 + k / 4 == y && k % 4 * 64 + z % 64 == z
  {
    var j, k := x % 4 * 16 + y / 16, y % 16 * 4 + z / 64;
    assert j / 16 == x % 4 && j % 16 == y / 16;
    assert k / 4 == y % 16 && k % 4 == z / 64;
  }

  lemma FullOfQuad(x: byte, y: byte, z: byte)
    ensures var q := Quad(x, y, z);
            q[3] != PAD && DecodeFull(q) == Some([x, y, z])
  {
    hide Letter, Index, IsLetter, DecodeFull;
    Regrouped(x, y, z);
    FullOfLetters(x / 4, x % 4 * 16 + y / 16, y % 16 * 4 + z / 64, z % 64);
  }

  lemma QuadOfFull(q: seq<byte>)
    requires |q| == 4 && DecodeFull(q).Some?
    ensures var b := DecodeFull(q).value;
            |b| == 3 && Quad(b[0], b[1], b[2]) == q
  {
    IndexLetter(q[0]);
    IndexLetter(q[1]);
    IndexLetter(q[2]);
    IndexLetter(q[3]);
    QuadOfSextets(Index(q[0]), Index(q[1]), Index(q[2]), Index(q[3]));
  }

  lemma LastOfShort(b: seq<byte>)
    requires 1 <= |b| <= 2
    ensures |Encode(b)| == 4 && DecodeLast(Encode(b)) == Some(b)
  {
    var y := if |b| == 2 then b[1] else 0;
    var i, j, k := b[0] / 4, b[0] % 4 * 16 + y / 16, y % 16 * 4;
    assert i * 4 + j / 16 == b[0] && j % 16 * 16 + k / 4 == y && k % 4 == 0;
    LetterIndex(i);
    LetterIndex(j);
    LetterIndex(k);
    if |b| == 1 {
      assert Encode(b) == [Letter(i), Letter(j), PAD, PAD];
      assert b == [b[0]];
    } else {
      assert Encode(b) == [Letter(i), Letter(j), Letter(k), PAD];
      assert b == [b[0], b[1]];
    }
  }

  lemma ShortOfLast(q: seq<byte>)
    requires |q| == 4 && q[3] == PAD && DecodeLast(q).Some?
    ensures Encode(DecodeLast(q).value) == q
  {
    hide Letter, Index;
    var i: int, j: int := Index(q[0]), Index(q[1]);
    IndexLetter(q[0]);
    IndexLetter(q[1]);
    var x: byte := i * 4 + j / 16;
    assert x / 4 == i;
    if q[2] == PAD {
      assert x % 4 * 16 == j;
      assert q == [Letter(i), Letter(j), PAD, PAD];
    } else {
      var k: int := Index(q[2]);
      IndexLetter(q[2]);
      var y: byte := j % 16 * 16 + k / 4;
      assert x % 4 * 16 + y / 16 == j && y % 16 * 4 == k;
      assert q == [Letter(i), Letter(j), Letter(k), PAD];
    }
  }

  lemma UnpaddedStep(b: seq<byte>)
    requires |b| >= 3
    ensures Unpadded(b) == Quad(b[0], b[1], b[2]) + Unpadded(b[3..]) && |Unpadded(b)| == 4 + |Unpadded(b[3..])|
  {
    hide Letter, AllLetters;
    assert |Quad(b[0], b[1], b[2])| == 4;
  }

  lemma EncodeStep(b: seq<byte>)
    requires |b| >= 3
    ensures Encode(b) == Quad(b[0], b[1], b[2]) + Encode(b[3..])
  {
    hide Letter, Index, AllLetters, Unpadded, Quad;
    UnpaddedStep(b);
  }

  lemma {:induction false} DecodeEncode(b: seq<byte>)
    ensures Decode(Encode(b)) == Some(b)
    decreases |b|
  {
    if 1 <= |b| <= 2 {
      LastOfShort(b);
    } else if |b| >= 3 {
      var q := Quad(b[0], b[1], b[2]);
      var tail := Encode(b[3..]);
      EncodeStep(b);
      FullOfQuad(b[0], b[1], b[2]);
      DecodeEncode(b[3..]);
      assert (q + tail)[..4] == q && (q + tail)[4..] == tail;
      assert [b[0], b[1], b[2]] + b[3..] == b;
      if |b| == 3 {
        assert q + tail == q && Decode(q) == DecodeLast(q);
        assert b == [b[0], b[1], b[2]];
      } else {
        assert |tail| >= 1 && Decode(q + tail) == Some([b[0], b[1], b[2]] + b[3..]);
      }
    }
  }

  // Canonical decoding: a text decodes to b only if it is the encoding of b.
  lemma {:induction false} EncodeDecode(s: seq<byte>)
    requires Decode(s).Some?
    ensures Encode(Decode(s).value) == s
    decreases |s|
  {
    if s == [] {
    } else if |s| == 4 && s[3] == PAD {
      ShortOfLast(s);
    } else {
      var b := Decode(s).value;
      QuadOfFull(s[..4]);
      assert s[..4] + s[4..] == s;
      if |s| == 4 {
        assert s[..4] == s;
        assert b[3..] == [];
      } else {
        EncodeDecode(s[4..]);
        assert b[3..] == Decode(s[4..]).value;
      }
      EncodeStep(b);
    }
  }

  lemma {:induction false} UnpaddedInjective(a: seq<byte>, b: seq<byte>)
    requires Unpadded(a) == Unpadded(b)
    ensures a == b
  {
    DecodeEncode(a);
    DecodeEncode(b);
  }
}
