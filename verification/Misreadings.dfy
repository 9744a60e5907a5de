/** Concrete frames that are misread, so that the conditions of the exactness results are needed. A
    length byte of 48, 52 or 56 passes for a base64 digit with an even index, and then the attempt at
    offset 0 may succeed; and a stray letter may take the place of a lost one. */
module Misreadings {
  import opened Bytes
  import Base64
  import opened Adu
  import opened Protobuf
  import opened Schema
  import opened Codec
  import opened Legs

  // The bytes read when one more sextet stands in front of an encoding.
  function Shifted(p: Base64.sextet, b: seq<byte>): (c: seq<byte>)
    ensures |c| == |b| + 1
    decreases |b|
  {
    if b == [] then [p * 4] else [p * 4 + b[0] / 64] + Shifted(b[0] % 64, b[1..])
  }

  lemma {:induction false} ShiftedAt(p: Base64.sextet, b: seq<byte>, i: nat)
    requires i <= |b|
    ensures Shifted(p, b)[i] == (if i == 0 then p else b[i - 1] % 64) * 4 + if i < |b| then b[i] / 64 else 0
    decreases i
  {
    if i > 0 {
      ShiftedAt(b[0] % 64, b[1..], i - 1);
    }
  }

  lemma ShiftedStep(p: Base64.sextet, b: seq<byte>)
    requires b != []
    ensures Shifted(p, b)[1..] == Shifted(b[0] % 64, b[1..])
  {
  }

  lemma ShiftedTail(p: Base64.sextet, b: seq<byte>)
    requires |b| >= 3
    ensures Shifted(p, b)[3..] == Shifted(b[2] % 64, b[3..])
  {
    hide Shifted;
    ShiftedStep(p, b);
    ShiftedStep(b[0] % 64, b[1..]);
    ShiftedStep(b[1] % 64, b[1..][1..]);
    assert b[1..][1..][1..] == b[3..];
    var c := Shifted(p, b);
    assert c[1..][1..][1..] == c[3..];
  }

  lemma SecondSextet(p: Base64.sextet, x: byte, y: byte)
    ensures (p * 4 + x / 64) / 4 == p
    ensures (p * 4 + x / 64) % 4 * 16 + (x % 64 * 4 + y / 64) / 16 == x / 4
  {
    assert (p * 4 + x / 64) % 4 == x / 64;
    assert (x % 64 * 4 + y / 64) / 16 == x % 64 / 4;
  }

  lemma LowBits(x: byte, high: nat)
    requires high < 4
    ensures (x % 64 * 4 + high) % 16 == x % 4 * 4 + high
  {
    assert x % 64 == x % 64 / 4 * 4 + x % 4;
  }

  lemma HighBits(y: byte, high: nat)
    requires high < 4
    ensures (y % 64 * 4 + high) / 64 == y % 64 / 16 && y / 64 * 4 + y % 64 / 16 == y / 16
  {
    assert y % 64 == y % 64 / 16 * 16 + y % 16;
  }

  lemma ThirdSextet(x: byte, y: byte, z: byte)
    ensures (x % 64 * 4 + y / 64) % 16 * 4 + (y % 64 * 4 + z / 64) / 64 == x % 4 * 16 + y / 16
  {
    LowBits(x, y / 64);
    HighBits(y, z / 64);
  }

  lemma FourthSextet(y: byte, z: byte)
    ensures (y % 64 * 4 + z / 64) % 64 == y % 16 * 4 + z / 64
  {
  }

  lemma ShiftedQuad(p: Base64.sextet, x: byte, y: byte, z: byte)
    ensures Base64.Quad(p * 4 + x / 64, x % 64 * 4 + y / 64, y % 64 * 4 + z / 64)
         == [Base64.Letter(p)] + Base64.Quad(x, y, z)[..3]
  {
    hide Base64.Letter;
    SecondSextet(p, x, y);
    ThirdSextet(x, y, z);
    FourthSextet(y, z);
  }

  lemma {:induction false} ShiftedLetters(p: Base64.sextet, b: seq<byte>)
    requires |b| % 3 == 2
    ensures Base64.Unpadded(Shifted(p, b)) == [Base64.Letter(p)] + Base64.Unpadded(b)
    decreases |b|
  {
    hide Base64.Letter, Base64.Quad, Shifted, Base64.Unpadded;
    var c := Shifted(p, b);
    var z := if |b| == 2 then 0 else b[2];
    Base64.UnpaddedStep(c);
    ShiftedAt(p, b, 0);
    ShiftedAt(p, b, 1);
    ShiftedAt(p, b, 2);
    ShiftedQuad(p, b[0], b[1], z);
    if |b| == 2 {
      assert c[3..] == [];
      TwoBytes(b);
    } else {
      Base64.UnpaddedStep(b);
      ShiftedTail(p, b);
      ShiftedLetters(z % 64, b[3..]);
      LastOfQuad(b[0], b[1], z);
    }
  }

  lemma TwoBytes(b: seq<byte>)
    requires |b| == 2
    ensures Base64.Unpadded(b) == Base64.Quad(b[0], b[1], 0)[..3] && Base64.Unpadded([]) == []
  {
  }

  lemma LastOfQuad(x: byte, y: byte, z: byte)
    ensures Base64.Quad(x, y, z) == Base64.Quad(x, y, z)[..3] + [Base64.Letter(z % 64)]
  {
  }

  // ---- Messages with wires of 48, 52 and 56 bytes ----

  function As(n: nat): (s: seq<byte>)
    ensures |s| == n && forall i :: 0 <= i < n ==> s[i] == 65
  {
    seq(n, i => 65)
  }

  const ROOM: seq<byte> := [120]

  lemma RoomIsText()
    ensures ValidUtf8(ROOM)
  {
    assert ROOM[1..] == [];
  }

  // An empty text in a room called "x"; the uuid is a head of our choice and then letters.
  function Victim(head: seq<byte>, k: nat): ProtoMessage
    requires ValidUtf8(head + As(k))
  {
    RoomIsText();
    ProtoMessage(head + As(k), [], 0, ROOM, Some(Text(NO_TEXT)))
  }

  function VictimBytes(head: seq<byte>, k: nat): seq<byte>
    requires |head| + k < 128
  {
    [10, |head| + k] + head + As(k) + [34, 1, 120, 42, 0]
  }

  lemma LengthField(tag: FieldNumber, s: seq<byte>)
    requires tag < 16 && |s| < 128
    ensures Writable(Len(tag, s)) && AllWritable([Len(tag, s)])
    ensures Written([Len(tag, s)]) == [8 * tag + 2, |s|] + s
  {
    OneField(Len(tag, s));
  }

  lemma NothingWritten()
    ensures AllWritable([]) && Written([]) == []
  {
  }

  lemma VictimHeader(uuid: seq<byte>)
    requires |uuid| < 128
    ensures var recs := [Len(1, uuid), Len(4, ROOM)];
            AllWritable(recs) && Written(recs) == [10, |uuid|] + uuid + [34, 1, 120]
  {
    hide Written, AllWritable;
    var first, second := [Len(1, uuid)], [Len(4, ROOM)];
    LengthField(1, uuid);
    LengthField(4, ROOM);
    WrittenConcat(first, second);
    assert first + second == [Len(1, uuid), Len(4, ROOM)];
  }

  lemma VictimEncodes(head: seq<byte>, k: nat)
    requires ValidUtf8(head + As(k)) && 0 < |head| + k < 128
    ensures Fits(Victim(head, k)) && EncodeProto(Victim(head, k)) == VictimBytes(head, k)
  {
    hide ValidUtf8, As, Written, AllWritable, HeaderRecords, ContentRecords;
    var m, uuid := Victim(head, k), head + As(k);
    var header := [Len(1, uuid), Len(4, ROOM)];
    VictimRecords(head, k);
    VictimHeader(uuid);
    NothingWritten();
    LengthField(5, []);
    WrittenConcat(header, [Len(5, [])]);
    assert ProtoRecords(m) == header + [Len(5, [])];
  }

  lemma VictimRecords(head: seq<byte>, k: nat)
    requires ValidUtf8(head + As(k)) && 0 < |head| + k
    ensures HeaderRecords(Victim(head, k)) == [Len(1, head + As(k)), Len(4, ROOM)]
    ensures ContentRecords(Text(NO_TEXT)) == []
  {
    hide ValidUtf8, As;
  }

  // What the decoder makes of each of them: unknown numbers and a text with nothing known.
  function Misread(): ProtoMessage {
    NO_MESSAGE.(content := Some(Text(NO_TEXT)))
  }

  predicate UnknownNumbers(recs: seq<Record>) {
    AllWritable(recs) && forall i :: 0 <= i < |recs| ==> recs[i].Num? && recs[i].tag > 8
  }

  lemma {:induction false} NumbersAreSkipped(m: ProtoMessage, recs: seq<Record>)
    requires UnknownNumbers(recs)
    ensures Fold(m, recs, ApplyProto) == Some(m)
    decreases |recs|
  {
    if recs != [] {
      NumbersAreSkipped(m, recs[1..]);
    }
  }

  lemma TextOfUnknown(payload: seq<byte>)
    requires |payload| < 128
    ensures AllWritable([Len(3, payload)])
    ensures Fold(NO_MESSAGE, [Len(5, Written([Len(3, payload)]))], ApplyProto) == Some(Misread())
  {
    hide Merge, Written, ReadRecord, ValidUtf8;
    var inner := [Len(3, payload)];
    LengthField(3, payload);
    MergeWritten(NO_TEXT, inner, ApplyText, INNER);
    assert inner[1..] == [];
    assert Fold(NO_TEXT, inner, ApplyText) == Some(NO_TEXT);
    var outer := [Len(5, Written(inner))];
    assert outer[1..] == [];
    assert ApplyProto(NO_MESSAGE, outer[0]) == Some(Misread());
  }

  lemma MisreadBytes(front: seq<Record>, payload: seq<byte>)
    requires UnknownNumbers(front) && |payload| < 100
    ensures Accept(DecodeProto(Written(front) + [42, |payload| + 2, 26, |payload|] + payload)) == Some(Misread())
  {
    hide Written, AllWritable, Fold, Merge;
    var inner := [Len(3, payload)];
    LengthField(3, payload);
    var body := Written(inner);
    var outer := [Len(5, body)];
    LengthField(5, body);
    WrittenConcat(front, outer);
    assert Written(front) + [42, |payload| + 2, 26, |payload|] + payload == Written(front + outer);
    MergeWritten(NO_MESSAGE, front + outer, ApplyProto, RECURSION_LIMIT);
    FoldConcat(NO_MESSAGE, front, outer, ApplyProto);
    NumbersAreSkipped(NO_MESSAGE, front);
    TextOfUnknown(payload);
  }

  // The frame of a message whose length byte is the letter of p, when the bits that follow it happen to
  // spell unknown numbers, a text field for the rest, and in it one unknown field.
  lemma FrameIsMisread(p: Base64.sextet, head: seq<byte>, k: nat, front: seq<Record>, start: seq<byte>, n: nat)
    requires ValidUtf8(head + As(k)) && 0 < |head| + k < 90 && (|head| + k) % 3 == 1
    requires UnknownNumbers(front) && |start| + 4 <= |head| + k + 8 && start == Written(front)
    requires var size := |head| + k + 4 - |start|;
             Shifted(p, VictimBytes(head, k))[..|start| + 4] == start + [42, size + 2, 26, size]
    requires n == Base64.Letter(p) && n == (|head| + k + 9) / 3 * 4
    ensures var m := Victim(head, k);
            && Fits(m) && m.content.Some? && m.roomUuid != [] && |ToWire(m)| == n && 0 < n <= 255
            && DecodeTolerant(SendLeg(ToWire(m))) == Some(Misread()) && Misread() != m
  {
    hide ValidUtf8, As, DecodeProto, Base64.Decode, Base64.Unpadded, DecodeAdu, Shifted, Written, UnknownNumbers, Base64.Letter, Accept;
    var b := VictimBytes(head, k);
    var c := Shifted(p, b);
    assert |b| == |head| + k + 7 && |c| == |b| + 1;
    var payload := c[|start| + 4..];
    assert c == start + [42, |payload| + 2, 26, |payload|] + payload;
    MisreadBytes(front, payload);
    VictimEncodes(head, k);
    WireLength(b);
    var wire, u := ToWire(Victim(head, k)), Base64.Unpadded(b);
    Base64.LetterIndex(p);
    FrameOfLetters(p, b, n);
    AttemptFrom(SendLeg(wire), 0);
    assert SendLeg(wire)[0..] == SendLeg(wire);
  }

  // The whole frame is letters, so offset 0 reads the shifted bits.
  lemma FrameOfLetters(p: Base64.sextet, b: seq<byte>, n: byte)
    requires |b| % 3 == 2 && n == Base64.Letter(p) && n == |Base64.Encode(b)| && n > 0
    ensures DecodeAdu(SendLeg(Base64.Encode(b))) == Some(Shifted(p, b))
  {
    hide Base64.Unpadded, Base64.Decode, Base64.Letter, Shifted, DecodeAdu;
    WireLength(b);
    var buf, u := SendLeg(Base64.Encode(b)), Base64.Unpadded(b);
    assert buf == [n] + u;
    Base64.LetterIndex(p);
    ShiftedLetters(p, b);
    LettersByMax(buf, buf);
    DecodeAduExact(buf, Shifted(p, b));
  }

  // ---- The three lengths ----

  const HEAD_48: seq<byte> := [0xCA, 0x87, 0xC6, 0x87]
  const HEAD_52: seq<byte> := [84, 49, 65, 0xCA, 0x87, 0xC6, 0x87]
  const HEAD_56: seq<byte> := [97, 65, 0xCA, 0x88, 0xC6, 0x88]

  lemma PairsAreText(x: byte, y: byte, k: nat)
    requires 0x80 <= x < 0xC0 && 0x80 <= y < 0xC0
    ensures ValidUtf8([0xCA, x, 0xC6, y] + As(k))
  {
    var s := [0xCA, x, 0xC6, y] + As(k);
    AsciiIsUtf8(As(k));
    assert s[2..][2..] == As(k) && s[2..][0] == 0xC6 && s[2..][1] == y;
    assert ValidUtf8(s[2..]);
  }

  lemma HeadsAreText()
    ensures ValidUtf8(HEAD_48 + As(24)) && ValidUtf8(HEAD_52 + As(24)) && ValidUtf8(HEAD_56 + As(28))
  {
    hide As;
    PairsAreText(0x87, 0x87, 24);
    PairsAreText(0x88, 0x88, 28);
    var a, b := HEAD_52 + As(24), HEAD_56 + As(28);
    assert a[1..][1..][1..] == HEAD_48 + As(24);
    assert b[1..][1..] == [0xCA, 0x88, 0xC6, 0x88] + As(28);
    assert ValidUtf8(a[1..][1..]);
    assert ValidUtf8(a[1..]);
    assert ValidUtf8(b[1..]);
  }

  // The first bytes behind the shift, from the first ten bytes of the encoding.
  lemma ShiftedFront(p: Base64.sextet, b: seq<byte>)
    requires |b| >= 10
    ensures Shifted(p, b)[..10]
         == [p * 4 + b[0] / 64, b[0] % 64 * 4 + b[1] / 64, b[1] % 64 * 4 + b[2] / 64, b[2] % 64 * 4 + b[3] / 64,
             b[3] % 64 * 4 + b[4] / 64, b[4] % 64 * 4 + b[5] / 64, b[5] % 64 * 4 + b[6] / 64,
             b[6] % 64 * 4 + b[7] / 64, b[7] % 64 * 4 + b[8] / 64, b[8] % 64 * 4 + b[9] / 64]
  {
    hide Shifted;
    var c := Shifted(p, b);
    ShiftedAt(p, b, 0);
    ShiftedAt(p, b, 1);
    ShiftedAt(p, b, 2);
    ShiftedAt(p, b, 3);
    ShiftedAt(p, b, 4);
    ShiftedAt(p, b, 5);
    ShiftedAt(p, b, 6);
    ShiftedAt(p, b, 7);
    ShiftedAt(p, b, 8);
    ShiftedAt(p, b, 9);
    assert c[..10] == [c[0], c[1], c[2], c[3], c[4], c[5], c[6], c[7], c[8], c[9]];
  }

  lemma UnknownNumber(tag: FieldNumber, n: u64)
    requires tag > 8
    ensures UnknownNumbers([Num(tag, n)]) && Written([Num(tag, n)]) == Varint(tag * 8) + Varint(n)
  {
    OneField(Num(tag, n));
  }

  lemma VarintOfTwo(low: nat, high: nat)
    requires 128 <= low < 256 && 0 < high < 128
    ensures Varint(low - 128 + 128 * high) == [low, high]
  {
    var n := low - 128 + 128 * high;
    assert n % 128 == low - 128 && n / 128 == high;
    assert Varint(high) == [high];
  }

  lemma VarintOfThree(low: nat, middle: nat, high: nat)
    requires 128 <= low < 256 && 128 <= middle < 256 && 0 < high < 128
    ensures Varint(low - 128 + 128 * (middle - 128 + 128 * high)) == [low, middle, high]
  {
    VarintOfTwo(middle, high);
    var rest := middle - 128 + 128 * high;
    var n := low - 128 + 128 * rest;
    assert n % 128 == low - 128 && n / 128 == rest;
  }

  lemma Front48()
    ensures Shifted(52, VictimBytes(HEAD_48, 24))[..7] == [208, 40, 115, 42, 31, 26, 29]
  {
    hide As, Shifted;
    var b := VictimBytes(HEAD_48, 24);
    assert b[..10] == [10, 28, 0xCA, 0x87, 0xC6, 0x87, 65, 65, 65, 65];
    ShiftedFront(52, b);
    assert Shifted(52, b)[..7] == Shifted(52, b)[..10][..7];
  }

  lemma Misread48()
    requires ValidUtf8(HEAD_48 + As(24))
    ensures var m := Victim(HEAD_48, 24);
            && Fits(m) && m.content.Some? && m.roomUuid != [] && |ToWire(m)| == 48
            && DecodeTolerant(SendLeg(ToWire(m))) == Some(Misread()) && Misread() != m
  {
    hide ValidUtf8, As, Shifted, Written, DecodeTolerant, Varint, Victim, Fits, ToWire, SendLeg, UnknownNumbers;
    var front := [Num(650, 115)];
    UnknownNumber(650, 115);
    VarintOfTwo(208, 40);
    SmallVarint(115);
    assert Written(front) == [208, 40, 115];
    Front48();
    FrameIsMisread(52, HEAD_48, 24, front, [208, 40, 115], 48);
  }

  lemma SmallVarint(n: nat)
    requires n < 128
    ensures Varint(n) == [n]
  {
  }

  lemma Front52()
    ensures Shifted(56, VictimBytes(HEAD_52, 24))[..10] == [224, 40, 125, 80, 197, 7, 42, 31, 26, 29]
  {
    hide As, Shifted;
    var b := VictimBytes(HEAD_52, 24);
    assert b[..10] == [10, 31, 84, 49, 65, 0xCA, 0x87, 0xC6, 0x87, 65];
    ShiftedFront(56, b);
  }

  lemma Misread52()
    requires ValidUtf8(HEAD_52 + As(24))
    ensures var m := Victim(HEAD_52, 24);
            && Fits(m) && m.content.Some? && m.roomUuid != [] && |ToWire(m)| == 52
            && DecodeTolerant(SendLeg(ToWire(m))) == Some(Misread()) && Misread() != m
  {
    hide ValidUtf8, As, Shifted, Written, DecodeTolerant, Varint, Victim, Fits, ToWire, SendLeg;
    var first, second := [Num(652, 125)], [Num(10, 965)];
    UnknownNumber(652, 125);
    UnknownNumber(10, 965);
    WrittenConcat(first, second);
    VarintOfTwo(224, 40);
    VarintOfTwo(197, 7);
    SmallVarint(125);
    SmallVarint(80);
    assert Written(first + second) == [224, 40, 125, 80, 197, 7];
    Front52();
    FrameIsMisread(56, HEAD_52, 24, first + second, [224, 40, 125, 80, 197, 7], 52);
  }

  lemma Front56()
    ensures Shifted(60, VictimBytes(HEAD_56, 28))[..9] == [240, 40, 137, 133, 7, 42, 35, 26, 33]
  {
    hide As, Shifted;
    var b := VictimBytes(HEAD_56, 28);
    assert b[..10] == [10, 34, 97, 65, 0xCA, 0x88, 0xC6, 0x88, 65, 65];
    ShiftedFront(60, b);
    assert Shifted(60, b)[..9] == Shifted(60, b)[..10][..9];
  }

  lemma Misread56()
    requires ValidUtf8(HEAD_56 + As(28))
    ensures var m := Victim(HEAD_56, 28);
            && Fits(m) && m.content.Some? && m.roomUuid != [] && |ToWire(m)| == 56
            && DecodeTolerant(SendLeg(ToWire(m))) == Some(Misread()) && Misread() != m
  {
    hide ValidUtf8, As, Shifted, Written, DecodeTolerant, Varint, Victim, Fits, ToWire, SendLeg, UnknownNumbers;
    var front := [Num(654, 115337)];
    UnknownNumber(654, 115337);
    VarintOfTwo(240, 40);
    VarintOfThree(137, 133, 7);
    assert Written(front) == [240, 40, 137, 133, 7];
    Front56();
    FrameIsMisread(60, HEAD_56, 28, front, [240, 40, 137, 133, 7], 56);
  }

  // A message that only its wire length could keep off the send leg.
  ghost predicate HasWire(m: ProtoMessage, n: nat) {
    Fits(m) && m.content.Some? && m.roomUuid != [] && |ToWire(m)| == n
  }

  ghost predicate Unchanged(m: ProtoMessage, n: nat)
    requires HasWire(m, n) && 0 < n <= 255
  {
    var got := DecodeTolerant(SendLeg(ToWire(m)));
    got == Some(m) || got == None
  }

  // The send leg changes no message with a wire of n bytes if and only if n does not look like a digit.
  lemma LengthsExact(n: nat)
    requires 0 < n <= 255
    ensures (forall m :: HasWire(m, n) ==> Unchanged(m, n)) <==> n != 48 && n != 52 && n != 56
  {
    hide ValidUtf8, As, DecodeTolerant, Fits, ToWire, SendLeg, EncodeProto, Victim;
    if LengthLooksLikeDigit(n) {
      HeadsAreText();
      if n == 48 {
        Misread48();
        assert HasWire(Victim(HEAD_48, 24), n) && !Unchanged(Victim(HEAD_48, 24), n);
      } else if n == 52 {
        Misread52();
        assert HasWire(Victim(HEAD_52, 24), n) && !Unchanged(Victim(HEAD_52, 24), n);
      } else {
        Misread56();
        assert HasWire(Victim(HEAD_56, 28), n) && !Unchanged(Victim(HEAD_56, 28), n);
      }
    } else {
      forall m | HasWire(m, n) ensures Unchanged(m, n) {
        DamagedFrame(m, []);
        assert SendLeg(ToWire(m)) + [] == SendLeg(ToWire(m));
      }
    }
  }

  // ---- A message whose last character changes ----

  lemma SpokenIsText()
    ensures ValidUtf8(As(36)) && ValidUtf8(As(3)) && ValidUtf8([65, 65, 66])
  {
    AsciiIsUtf8(As(36));
    AsciiIsUtf8(As(3));
    AsciiIsUtf8([65, 65, 66]);
  }

  // A 36-character uuid and the text "AAA": 54 bytes of protobuf.
  function Spoken(): ProtoMessage {
    SpokenIsText();
    ProtoMessage(As(36), [], 0, DEFAULT_ROOM, Some(Text(TextMessage(As(3), None))))
  }

  lemma SpokenHeader()
    ensures var recs := [Len(1, As(36)), Len(4, DEFAULT_ROOM)];
            AllWritable(recs) && |Written(recs)| == 47
  {
    hide ValidUtf8, As, Written, AllWritable;
    var first, second := [Len(1, As(36))], [Len(4, DEFAULT_ROOM)];
    LengthField(1, As(36));
    LengthField(4, DEFAULT_ROOM);
    WrittenConcat(first, second);
    assert first + second == [Len(1, As(36)), Len(4, DEFAULT_ROOM)];
  }

  lemma SpokenEncodes()
    ensures Fits(Spoken()) && |EncodeProto(Spoken())| == 54
  {
    hide ValidUtf8, As, Written, AllWritable;
    var m := Spoken();
    var header := [Len(1, As(36)), Len(4, DEFAULT_ROOM)];
    SpokenHeader();
    LengthField(1, As(3));
    var body := Written([Len(1, As(3))]);
    LengthField(5, body);
    WrittenConcat(header, [Len(5, body)]);
    assert ContentRecords(m.content.value) == [Len(1, As(3))];
    assert HeaderRecords(m) == header;
    assert ProtoRecords(m) == header + [Len(5, body)];
  }

  function Altered(): Str {
    SpokenIsText();
    [65, 65, 66]
  }

  lemma SpokenIsOnSendLeg()
    ensures OnSendLeg(Spoken()) && |EncodeProto(Spoken())| % 3 == 0
    ensures Spoken() == WithText(Spoken(), As(3))
  {
    hide ValidUtf8, EncodeProto, Fits, Base64.Encode, As;
    SpokenEncodes();
    WireLength(EncodeProto(Spoken()));
  }

  lemma HeapIsOneLetter(heap: seq<byte>)
    requires heap == [67, 0]
    ensures CString(heap) != [] && CString(heap)[0] == 67 && Base64.IsLetter(67) && Clean(CString(heap)[1..])
  {
    assert NotNul(67) && !NotNul(0);
    assert heap[0] == 67 && heap[1] == 0;
  }

  lemma AlteredText()
    ensures As(3) != [] && WithLastBits(As(3), 67) == Altered() && Altered() != As(3)
  {
    hide ValidUtf8;
    assert Altered()[2] == 66;
  }

  lemma TextsDiffer(m: ProtoMessage, text: Str, other: Str)
    requires m == WithText(m, text) && text != other
    ensures WithText(m, other) != m
  {
  }

  // With "C" and a NUL behind the payload the decoder accepts the text "AAB".
  lemma StrayLetterChangesText(m: ProtoMessage, heap: seq<byte>)
    requires m == Spoken() && heap == [67, 0]
    ensures OnSendLeg(m)
    ensures DecodeTolerant(ReceiveLeg(SendLeg(ToWire(m)), heap)) == Some(WithText(m, Altered())) && WithText(m, Altered()) != m
  {
    hide ValidUtf8, EncodeProto, ToWire, DecodeTolerant, SendLeg, ReceiveLeg, CString, Spoken, WithText,
      WithLastBits, Altered, As;
    SpokenIsText();
    SpokenIsOnSendLeg();
    HeapIsOneLetter(heap);
    AlteredText();
    TextsDiffer(m, As(3), Altered());
    StrayLetterGoesUnnoticed(m, As(3), heap);
  }
}
