/** What the AF_BP path does to a wire text, and what the tolerant decoder makes of it.
    Send leg: the length as one byte in front, the last byte lost (bp-socket/daemon/ion.c:15,22).
    Receive leg: the payload is handled as a C string in an unterminated buffer, so it runs on into
    the heap up to the first NUL (bp-socket/daemon/ion.c:76-85). */
module Legs {
  import opened Bytes
  import Base64
  import opened Adu
  import Protobuf
  import opened Schema
  import opened Messages
  import opened Codec

  function SendLeg(wire: seq<byte>): seq<byte>
    requires 0 < |wire| <= 255
  {
    [|wire|] + wire[..|wire| - 1]
  }

  predicate NotNul(c: byte) { c != 0 }

  function CString(memory: seq<byte>): seq<byte> {
    memory[..CountWhile(memory, NotNul)]
  }

  // The payload handed up: the C string and its terminator.
  function ReceiveLeg(payload: seq<byte>, heap: seq<byte>): seq<byte> {
    CString(payload + heap) + [0]
  }

  predicate NulFree(s: seq<byte>) {
    forall i :: 0 <= i < |s| ==> s[i] != 0
  }

  // ---- The wire text ----

  lemma WireLength(b: seq<byte>)
    ensures |Base64.Encode(b)| == (|b| + 2) / 3 * 4
    ensures |b| % 3 == 0 ==> Base64.Encode(b) == Base64.Unpadded(b)
    ensures |b| % 3 == 1 ==> Base64.Encode(b) == Base64.Unpadded(b) + [Base64.PAD, Base64.PAD]
    ensures |b| % 3 == 2 ==> Base64.Encode(b) == Base64.Unpadded(b) + [Base64.PAD]
  {
    hide Base64.Unpadded;
    var q, r := |b| / 3, |b| % 3;
    assert |b| == 3 * q + r && (4 * |b| + 2) / 3 == 4 * q + (4 * r + 2) / 3;
  }

  lemma WireIsNulFree(b: seq<byte>)
    ensures NulFree(Base64.Encode(b))
  {
    var u := Base64.Unpadded(b);
    forall i | 0 <= i < |Base64.Encode(b)| ensures Base64.Encode(b)[i] != 0 {
      if i < |u| { assert Base64.IsLetter(u[i]); }
    }
  }

  // A C-string cut takes nothing off a NUL-free payload; what it adds is the NUL-free head of the heap.
  lemma CStringOfPayload(payload: seq<byte>, heap: seq<byte>)
    requires NulFree(payload)
    ensures CString(payload + heap) == payload + CString(heap) && NulFree(CString(heap))
    decreases |payload|
  {
    if payload == [] {
      assert payload + heap == heap;
      assert [] + CString(heap) == CString(heap);
      assert forall i :: 0 <= i < |CString(heap)| ==> NotNul(heap[i]);
    } else {
      var memory := payload + heap;
      assert memory[1..] == payload[1..] + heap;
      CStringOfPayload(payload[1..], heap);
      assert CountWhile(memory, NotNul) == 1 + CountWhile(memory[1..], NotNul);
      assert CString(memory) == [payload[0]] + CString(memory[1..]);
      assert payload == [payload[0]] + payload[1..];
    }
  }

  // ---- Offset 0 never accepts a length prefix ----

  // The uuid, sender, timestamp and room come first, so a message with a room starts with a
  // field key below 64.
  lemma FirstByte(m: ProtoMessage)
    requires Fits(m) && m.roomUuid != []
    ensures EncodeProto(m) != [] && EncodeProto(m)[0] < 64
  {
    var recs := ProtoRecords(m);
    assert HeaderRecords(m) != [] && recs[0] == HeaderRecords(m)[0];
    assert 1 <= recs[0].tag <= 4;
    assert Protobuf.FieldBytes(recs[0])[0] < 64;
  }

  // The three base64 digits that a length multiple of four can look like.
  predicate LengthLooksLikeDigit(n: nat) {
    n == 48 || n == 52 || n == 56
  }

  lemma PrefixLetterIsOdd(n: byte)
    requires n % 4 == 0 && !LengthLooksLikeDigit(n) && Base64.IsLetter(n)
    ensures Base64.Index(n) % 2 == 1
  {
  }

  lemma FirstTwoLetters(b: seq<byte>)
    requires b != []
    ensures var u := Base64.Unpadded(b);
            && |u| >= 2 && Base64.IsLetter(u[0]) && Base64.IsLetter(u[1])
            && b[0] == Base64.Index(u[0]) * 4 + Base64.Index(u[1]) / 16
  {
    hide Base64.Letter, Base64.Index;
    var y := if |b| == 1 then 0 else b[1];
    Base64.LetterIndex(b[0] / 4);
    Base64.LetterIndex(b[0] % 4 * 16 + y / 16);
  }

  // A text that starts with an odd letter and then one of the first sixteen letters decodes to
  // bytes whose first one is a stray end-group key.
  lemma OddLetterIsEndGroup(buf: seq<byte>, b: seq<byte>)
    requires |buf| >= 2 && Base64.IsLetter(buf[0]) && Base64.IsLetter(buf[1])
    requires Base64.Index(buf[0]) % 2 == 1 && Base64.Index(buf[1]) < 16
    requires DecodeAdu(buf) == Some(b)
    ensures b != [] && b[0] % 8 == 4
  {
    hide Base64.Letter, Base64.Unpadded, Base64.Decode;
    DecodeAduExact(buf, b);
    var u := LeadingLetters(buf);
    assert |u| >= 2 && u[0] == buf[0] && u[1] == buf[1];
    FirstTwoLetters(b);
  }

  lemma OffsetZeroFails(b: seq<byte>, n: byte, tail: seq<byte>)
    requires b != [] && b[0] < 64
    requires n % 4 == 0 && !LengthLooksLikeDigit(n)
    requires tail != [] && tail[0] == Base64.Encode(b)[0]
    ensures Attempt([n] + tail, 0) == None
  {
    var buf := [n] + tail;
    assert buf[0..] == buf;
    if Base64.IsLetter(n) {
      PrefixLetterIsOdd(n);
      Base64.LetterIndex(b[0] / 4);
      assert tail[0] == Base64.Letter(b[0] / 4);
      match DecodeAdu(buf) {
        case None =>
        case Some(bytes) =>
          OddLetterIsEndGroup(buf, bytes);
          Protobuf.StrayEndGroup(NO_MESSAGE, bytes, ApplyProto, Protobuf.RECURSION_LIMIT);
      }
    } else {
      LettersByMax(buf, []);
    }
  }

  // ---- Offset 1 ----

  // Three quarters of a last group: either its two whole bytes come out, or nothing.
  lemma LostLetter(b: seq<byte>, rest: seq<byte>)
    requires b != [] && |b| % 3 == 0
    requires rest == [] || !Base64.IsLetter(rest[0])
    ensures var u := Base64.Unpadded(b);
            var r := DecodeAdu(u[..|u| - 1] + rest);
            r.Some? ==> r.value < b
  {
    var u := Base64.Unpadded(b);
    var cut := u[..|u| - 1];
    LettersOfConcat(cut, rest);
    LettersByMax(rest, []);
    assert cut + [] == cut;
    match DecodeAdu(cut + rest) {
      case None =>
      case Some(c) =>
        DecodeAduExact(cut + rest, c);
        UnpaddedPrefix(b, c);
    }
  }

  lemma QuadInjective(x: byte, y: byte, z: byte, x': byte, y': byte, z': byte)
    requires Base64.Quad(x, y, z) == Base64.Quad(x', y', z')
    ensures x == x' && y == y' && z == z'
  {
    Base64.FullOfQuad(x, y, z);
    Base64.FullOfQuad(x', y', z');
    assert [x, y, z][0] == [x', y', z'][0] && [x, y, z][1] == [x', y', z'][1] && [x, y, z][2] == [x', y', z'][2];
  }

  // If c encodes to all letters of b's encoding but the last, c is b without its last byte.
  lemma {:induction false} UnpaddedPrefix(b: seq<byte>, c: seq<byte>)
    requires |b| % 3 == 0 && b != []
    requires Base64.Unpadded(c) == Base64.Unpadded(b)[..|Base64.Unpadded(b)| - 1]
    ensures c < b
    decreases |b|
  {
    hide Base64.Letter, Base64.IsLetter, Base64.AllLetters, Base64.Unpadded, Base64.Quad;
    var u, v := Base64.Unpadded(b), Base64.Unpadded(c);
    assert |v| == |u| - 1;
    assert |c| == |b| - 1;
    Base64.UnpaddedStep(b);
    if |b| == 3 {
      assert b[3..] == [] && c == [c[0], c[1]];
      assert u == Base64.Quad(b[0], b[1], b[2]);
      PairFromLetters(b[0], b[1], b[2], c[0], c[1]);
    } else {
      var q, q' := Base64.Quad(b[0], b[1], b[2]), Base64.Quad(c[0], c[1], c[2]);
      Base64.UnpaddedStep(c);
      assert |q| == |q'| == 4;
      assert q == u[..4] == v[..4] == q';
      QuadInjective(b[0], b[1], b[2], c[0], c[1], c[2]);
      assert v[4..] == u[4..][..|u[4..]| - 1];
      UnpaddedPrefix(b[3..], c[3..]);
      assert c[3..] == b[3..][..|c| - 3];
      assert forall i :: 0 <= i < |c| ==> c[i] == (if i < 3 then c[i] else c[3..][i - 3]);
    }
  }

  lemma PairFromLetters(x: byte, y: byte, z: byte, x': byte, y': byte)
    requires Base64.Quad(x, y, z)[..3] == Base64.Unpadded([x', y'])
    ensures x == x' && y == y'
  {
    hide Base64.Letter, Base64.Index;
    var q, r := Base64.Quad(x, y, z), Base64.Unpadded([x', y']);
    assert q[0] == r[0] && q[1] == r[1] && q[2] == r[2];
    Base64.LetterIndex(x / 4);
    Base64.LetterIndex(x' / 4);
    Base64.LetterIndex(x % 4 * 16 + y / 16);
    Base64.LetterIndex(x' % 4 * 16 + y' / 16);
    Base64.LetterIndex(y % 16 * 4 + z / 64);
    Base64.LetterIndex(y' % 16 * 4);
  }

  // ---- The legs as a whole ----

  // Nothing behind the frame that could pass for another base64 letter.
  predicate Clean(rest: seq<byte>) {
    rest == [] || !Base64.IsLetter(rest[0])
  }

  // The messages the exactness results speak of: they carry a room, as everything the application
  // writes does, and their wire fits the one-byte length without looking like a base64 digit.
  predicate OnSendLeg(m: ProtoMessage) {
    && Fits(m) && m.content.Some? && m.roomUuid != []
    && 0 < |ToWire(m)| <= 255 && !LengthLooksLikeDigit(|ToWire(m)|)
  }

  // Behind the length byte lies the wire without its last byte; the attempt on it decides.
  lemma BehindPrefix(b: seq<byte>, rest: seq<byte>)
    requires b != [] && b[0] < 64
    requires var n := |Base64.Encode(b)|; 0 < n <= 255 && n % 4 == 0 && !LengthLooksLikeDigit(n)
    ensures var wire := Base64.Encode(b);
            && DecodeTolerant(SendLeg(wire) + rest)
               == (match DecodeAdu(wire[..|wire| - 1] + rest)
                   case None => None
                   case Some(bytes) => Accept(DecodeProto(bytes)))
  {
    var wire := Base64.Encode(b);
    var tail := wire[..|wire| - 1] + rest;
    assert SendLeg(wire) + rest == [|wire|] + tail;
    OffsetZeroFails(b, |wire|, tail);
    assert ([|wire|] + tail)[1..] == tail;
  }

  // The base64 stage on a wire without its last byte.
  lemma LostByte(b: seq<byte>, rest: seq<byte>)
    requires b != []
    ensures var wire := Base64.Encode(b);
            && |wire| > 0
            && var r := DecodeAdu(wire[..|wire| - 1] + rest);
            && (|b| % 3 == 1 ==> r == Some(b))
            && (|b| % 3 == 2 && Clean(rest) ==> r == Some(b))
            && (|b| % 3 == 0 && Clean(rest) && r.Some? ==> r.value < b)
  {
    var wire, u := Base64.Encode(b), Base64.Unpadded(b);
    var pads := Base64.Pads(|u|);
    WireLength(b);
    if |b| % 3 == 0 {
      if Clean(rest) { LostLetter(b, rest); }
    } else {
      assert wire[..|wire| - 1] == u + pads[..|pads| - 1];
      PadsAndJunk(b, |pads| - 1, rest);
    }
  }

  // What the decoder makes of the encoding b and of everything cut from it.
  ghost predicate OnlyWholeDecodes(b: seq<byte>, m: ProtoMessage) {
    Accept(DecodeProto(b)) == Some(m) && forall p :: p < b ==> Accept(DecodeProto(p)) == None
  }

  lemma EncodingOnlyWholeDecodes(m: ProtoMessage)
    requires Fits(m) && m.content.Some?
    ensures OnlyWholeDecodes(EncodeProto(m), m)
  {
    ProtoRoundTrip(m);
    forall p | p < EncodeProto(m) ensures Accept(DecodeProto(p)) == None {
      CutNeverHasContent(m, p);
    }
  }

  lemma DamagedBytes(b: seq<byte>, m: ProtoMessage, rest: seq<byte>)
    requires b != [] && b[0] < 64 && OnlyWholeDecodes(b, m)
    requires var n := |Base64.Encode(b)|; 0 < n <= 255 && n % 4 == 0 && !LengthLooksLikeDigit(n)
    ensures var got := DecodeTolerant(SendLeg(Base64.Encode(b)) + rest);
            && (|b| % 3 == 1 ==> got == Some(m))
            && (|b| % 3 == 2 && Clean(rest) ==> got == Some(m))
            && (|b| % 3 == 0 && Clean(rest) ==> got == None)
  {
    BehindPrefix(b, rest);
    LostByte(b, rest);
  }

  // Send-leg exactness, with anything that may follow the frame: the message comes back when the
  // lost byte was padding, and nothing at all comes back when it was a letter.
  lemma DamagedFrame(m: ProtoMessage, rest: seq<byte>)
    requires OnSendLeg(m)
    ensures var size, got := |EncodeProto(m)|, DecodeTolerant(SendLeg(ToWire(m)) + rest);
            && (size % 3 == 1 ==> got == Some(m))
            && (size % 3 == 2 && Clean(rest) ==> got == Some(m))
            && (size % 3 == 0 && Clean(rest) ==> got == None)
  {
    hide DecodeTolerant, DecodeProto, EncodeProto, Fits, ValidUtf8, Base64.Encode, SendLeg, Clean;
    FirstByte(m);
    WireLength(EncodeProto(m));
    EncodingOnlyWholeDecodes(m);
    DamagedBytes(EncodeProto(m), m, rest);
  }

  lemma CleanWithNul(junk: seq<byte>)
    ensures Clean(junk + [0]) <==> Clean(junk)
  {
  }

  lemma FrameIsNulFree(wire: seq<byte>)
    requires 0 < |wire| <= 255 && NulFree(wire)
    ensures NulFree(SendLeg(wire))
  {
  }

  // Both legs one after the other, whatever the heap holds behind the payload.
  lemma BothLegs(m: ProtoMessage, heap: seq<byte>)
    requires OnSendLeg(m)
    ensures var size, got := |EncodeProto(m)|, DecodeTolerant(ReceiveLeg(SendLeg(ToWire(m)), heap));
            && (size % 3 == 1 ==> got == Some(m))
            && (size % 3 == 2 && Clean(CString(heap)) ==> got == Some(m))
            && (size % 3 == 0 && Clean(CString(heap)) ==> got == None)
  {
    hide DecodeTolerant, EncodeProto, NulFree, Clean, CString, Fits, ValidUtf8, Base64.Encode, SendLeg;
    var frame, junk := SendLeg(ToWire(m)), CString(heap);
    WireIsNulFree(EncodeProto(m));
    FrameIsNulFree(ToWire(m));
    CStringOfPayload(frame, heap);
    CleanWithNul(junk);
    assert ReceiveLeg(frame, heap) == frame + (junk + [0]);
    DamagedFrame(m, junk + [0]);
  }

  // The receive leg alone: the wire passes the C-string handling whole, and is recovered for every
  // heap when it ends in a pad, otherwise for every heap that does not go on with a letter.
  lemma ReceiveLegAlone(m: ProtoMessage, heap: seq<byte>)
    requires Fits(m) && m.content.Some?
    requires |EncodeProto(m)| % 3 != 0 || Clean(CString(heap))
    ensures ReceiveLeg(ToWire(m), heap) == ToWire(m) + (CString(heap) + [0])
    ensures DecodeTolerant(ReceiveLeg(ToWire(m), heap)) == Some(m)
  {
    var b := EncodeProto(m);
    WireIsNulFree(b);
    CStringOfPayload(ToWire(m), heap);
    assert ReceiveLeg(ToWire(m), heap) == ToWire(m) + (CString(heap) + [0]);
    CleanWithNul(CString(heap));
    WholeWireWithJunk(m, CString(heap) + [0]);
  }

  lemma WholeWireWithJunk(m: ProtoMessage, rest: seq<byte>)
    requires Fits(m) && m.content.Some?
    requires |EncodeProto(m)| % 3 != 0 || Clean(rest)
    ensures DecodeTolerant(ToWire(m) + rest) == Some(m)
  {
    var u := Base64.Unpadded(EncodeProto(m));
    var pads := Base64.Pads(|u|);
    WireLength(EncodeProto(m));
    assert ToWire(m) == u + pads && pads[..|pads|] == pads;
    WireWithJunk(m, |pads|, rest);
  }

  // ---- What the application sends ----

  const UUID_LENGTH: nat := 36

  lemma {:induction false} WrittenConcat(a: seq<Protobuf.Record>, b: seq<Protobuf.Record>)
    requires Protobuf.AllWritable(a) && Protobuf.AllWritable(b)
    ensures Protobuf.AllWritable(a + b)
    ensures Protobuf.Written(a + b) == Protobuf.Written(a) + Protobuf.Written(b)
    decreases |a|
  {
    hide Protobuf.FieldBytes, Protobuf.Writable;
    if a == [] {
      assert a + b == b;
    } else {
      assert (a + b)[1..] == a[1..] + b;
      WrittenConcat(a[1..], b);
    }
  }

  lemma OneField(rec: Protobuf.Record)
    requires Protobuf.Writable(rec)
    ensures Protobuf.Written([rec]) == Protobuf.FieldBytes(rec)
  {
    assert Protobuf.Written([rec][1..]) == [];
  }

  // A short string field: key, one length byte, payload.
  lemma ShortField(tag: Protobuf.FieldNumber, s: seq<byte>)
    requires tag < 16 && |s| < 128
    ensures Protobuf.AllWritable([Protobuf.Len(tag, s)])
    ensures |Protobuf.Written([Protobuf.Len(tag, s)])| == 2 + |s|
  {
    OneField(Protobuf.Len(tag, s));
  }

  lemma NumberField(tag: Protobuf.FieldNumber, n: u64)
    requires tag < 16
    ensures Protobuf.AllWritable([Protobuf.Num(tag, n)])
    ensures |Protobuf.Written([Protobuf.Num(tag, n)])| == 1 + |Protobuf.Varint(n)|
  {
    OneField(Protobuf.Num(tag, n));
  }

  lemma HeaderLength(m: ProtoMessage)
    requires |m.uuid| == UUID_LENGTH && m.roomUuid == DEFAULT_ROOM && Fits(m)
    ensures |Protobuf.Written(HeaderRecords(m))| >= 47
  {
    var first, room := [Protobuf.Len(1, m.uuid)], [Protobuf.Len(4, m.roomUuid)];
    var a, b := OptLen(2, m.senderUuid), OptNum(3, ToUnsigned(m.timestamp));
    assert HeaderRecords(m) == first + (a + (b + room));
    assert Protobuf.AllWritable(a + (b + room)) by {
      assert forall i :: 0 <= i < |a + (b + room)| ==> (a + (b + room))[i] == HeaderRecords(m)[i + 1];
    }
    ShortField(1, m.uuid);
    ShortField(4, m.roomUuid);
    WrittenConcat(first, a + (b + room));
    WrittenConcat(a, b + room);
    WrittenConcat(b, room);
  }

  lemma ContentLength(m: ProtoMessage)
    requires Fits(m) && m.content.Some?
    ensures |EncodeProto(m)| >= |Protobuf.Written(HeaderRecords(m))| + 2
  {
    var c := m.content.value;
    var last := Protobuf.Len(ContentTag(c), Protobuf.Written(ContentRecords(c)));
    OneField(last);
    WrittenConcat(HeaderRecords(m), [last]);
  }

  // Chat messages and ACKs alike: a 36-character uuid and the room name alone put the wire beyond the
  // lengths that look like digits.
  lemma ApplicationWireIsOnSendLeg(m: ProtoMessage)
    requires Fits(m) && m.content.Some? && |m.uuid| == UUID_LENGTH && m.roomUuid == DEFAULT_ROOM
    requires |ToWire(m)| <= 255
    ensures OnSendLeg(m) && |ToWire(m)| >= 68
  {
    hide Protobuf.Varint, Base64.Unpadded, Fits, ContentRecords, HeaderRecords, EncodeProto, ValidUtf8;
    HeaderLength(m);
    ContentLength(m);
    WireLength(EncodeProto(m));
  }

  // A chat message over both legs: exactly the sent message, or nothing.
  lemma ChatOverBothLegs(msg: ChatMessage, heap: seq<byte>, peers: seq<Peer>, now: Time)
    requires Fits(ConstructProto(msg)) && |msg.uuid| == UUID_LENGTH && 0 < |SerializeMessage(msg)| <= 255
    requires |EncodeProto(ConstructProto(msg))| % 3 == 1 || Clean(CString(heap))
    ensures DeserializeMessage(ReceiveLeg(SendLeg(SerializeMessage(msg)), heap), peers, now)
         == if |EncodeProto(ConstructProto(msg))| % 3 == 0 then None
            else DeserializeMessage(SerializeMessage(msg), peers, now)
  {
    ApplicationWireIsOnSendLeg(ConstructProto(msg));
    BothLegs(ConstructProto(msg), heap);
    WireRoundTrip(ConstructProto(msg));
  }

  // ---- Damage that goes unnoticed ----

  lemma {:induction false} ReplaceLastLetter(b: seq<byte>, c: byte)
    requires |b| % 3 == 0 && b != [] && Base64.IsLetter(c)
    ensures var u := Base64.Unpadded(b);
            u[..|u| - 1] + [c] == Base64.Unpadded(WithLastBits(b, c))
    decreases |b|
  {
    hide Base64.Letter, Base64.IsLetter, Base64.Index, Base64.Unpadded, Base64.Quad;
    var b' := WithLastBits(b, c);
    var u, v := Base64.Unpadded(b), Base64.Unpadded(b[3..]);
    Base64.UnpaddedStep(b);
    Base64.UnpaddedStep(b');
    if |b| == 3 {
      assert b[3..] == [] && b'[3..] == [] && b' == [b[0], b[1], b'[2]];
      assert u == Base64.Quad(b[0], b[1], b[2]) && Base64.Unpadded(b') == Base64.Quad(b[0], b[1], b'[2]);
      QuadWithLast(b[0], b[1], b[2], c);
    } else {
      ReplaceLastLetter(b[3..], c);
      assert u[..|u| - 1] == Base64.Quad(b[0], b[1], b[2]) + v[..|v| - 1];
      assert b'[3..] == WithLastBits(b[3..], c);
    }
  }

  lemma QuadWithLast(x: byte, y: byte, z: byte, c: byte)
    requires Base64.IsLetter(c)
    ensures Base64.Quad(x, y, z)[..3] + [c] == Base64.Quad(x, y, z / 64 * 64 + Base64.Index(c))
  {
    hide Base64.Letter, Base64.IsLetter, Base64.Index;
    Base64.IndexLetter(c);
    var last := z / 64 * 64 + Base64.Index(c);
    assert last % 64 == Base64.Index(c) && last / 64 == z / 64;
  }

  // Everything of a reply-less text message in front of the text itself.
  function TextFront(m: ProtoMessage, size: nat): seq<byte>
    requires Protobuf.AllWritable(HeaderRecords(m))
  {
    var inner := Protobuf.Varint(10) + Protobuf.Varint(size);
    Protobuf.Written(HeaderRecords(m)) + Protobuf.Varint(42) + Protobuf.Varint(|inner| + size) + inner
  }

  lemma TextComesLast(m: ProtoMessage, text: Str)
    requires Fits(m) && m.content == Some(Text(TextMessage(text, None))) && text != []
    ensures EncodeProto(m) == TextFront(m, |text|) + text
  {
    hide Protobuf.Varint, Protobuf.Written, HeaderRecords, Protobuf.AllWritable, ValidUtf8;
    var inner := Protobuf.Varint(10) + Protobuf.Varint(|text|);
    TextBody(text);
    var body := inner + text;
    assert ContentRecords(m.content.value) == TextRecords(TextMessage(text, None));
    var last := Protobuf.Len(5, body);
    assert ProtoRecords(m) == HeaderRecords(m) + [last];
    LastIsWritable(HeaderRecords(m), last);
    WrittenConcat(HeaderRecords(m), [last]);
    assert EncodeProto(m) == Protobuf.Written(HeaderRecords(m)) + Protobuf.LenField(5, body);
    assert Protobuf.LenField(5, body) == Protobuf.Varint(42) + Protobuf.Varint(|inner| + |text|) + inner + text;
  }

  lemma TextBody(text: Str)
    requires text != [] && Protobuf.AllWritable(TextRecords(TextMessage(text, None)))
    ensures var recs := TextRecords(TextMessage(text, None));
            Protobuf.Written(recs) == Protobuf.Varint(10) + Protobuf.Varint(|text|) + text
  {
    hide Protobuf.Varint, Protobuf.Written, ValidUtf8;
    var recs := TextRecords(TextMessage(text, None));
    assert recs == [Protobuf.Len(1, text)];
    assert Protobuf.Writable(recs[0]);
    OneField(recs[0]);
    assert recs == [recs[0]];
  }

  lemma LastIsWritable(recs: seq<Protobuf.Record>, last: Protobuf.Record)
    requires Protobuf.AllWritable(recs + [last])
    ensures Protobuf.Writable(last) && Protobuf.AllWritable([last]) && Protobuf.Written([last]) == Protobuf.FieldBytes(last)
  {
    hide Protobuf.FieldBytes, Protobuf.Writable;
    assert (recs + [last])[|recs|] == last;
    assert Protobuf.Written([last][1..]) == [];
  }

  // The bytes with the low six bits of the last one taken from a letter.
  function WithLastBits(text: seq<byte>, c: byte): seq<byte>
    requires text != [] && Base64.IsLetter(c)
  {
    text[..|text| - 1] + [text[|text| - 1] / 64 * 64 + Base64.Index(c)]
  }

  lemma LetterReplaced(b: seq<byte>, rest: seq<byte>)
    requires |b| % 3 == 0 && b != [] && rest != [] && Base64.IsLetter(rest[0]) && Clean(rest[1..])
    ensures var wire := Base64.Encode(b);
            |wire| > 0 && DecodeAdu(wire[..|wire| - 1] + rest) == Some(WithLastBits(b, rest[0]))
  {
    hide Base64.Letter, Base64.Index, Base64.Decode, Base64.Unpadded, Base64.IsLetter, DecodeAdu;
    var wire := Base64.Encode(b);
    WireLength(b);
    ReplaceLastLetter(b, rest[0]);
    var b' := WithLastBits(b, rest[0]);
    var u' := Base64.Unpadded(b');
    assert wire[..|wire| - 1] + rest == u' + rest[1..];
    LettersOfConcat(u', rest[1..]);
    LettersByMax(rest[1..], []);
    assert u' + [] == u';
    DecodeAduExact(u' + rest[1..], b');
  }

  function WithText(m: ProtoMessage, text: Str): ProtoMessage {
    m.(content := Some(Text(TextMessage(text, None))))
  }

  lemma EncodingWithLastBits(m: ProtoMessage, text: Str, c: byte)
    requires Fits(m) && text != [] && m == WithText(m, text)
    requires Base64.IsLetter(c) && ValidUtf8(WithLastBits(text, c))
    ensures var m' := WithText(m, WithLastBits(text, c));
            Fits(m') && EncodeProto(m) != [] && EncodeProto(m') == WithLastBits(EncodeProto(m), c)
  {
    var text' := WithLastBits(text, c);
    var m' := WithText(m, text');
    assert Fits(m') by {
      assert ContentRecords(m'.content.value) == [Protobuf.Len(1, text')];
      assert ContentRecords(m.content.value) == [Protobuf.Len(1, text)];
      OneField(Protobuf.Len(1, text'));
      OneField(Protobuf.Len(1, text));
    }
    TextComesLast(m, text);
    TextComesLast(m', text');
    LastBitsOfConcat(TextFront(m, |text|), text, c);
  }

  lemma LastBitsOfConcat(front: seq<byte>, text: seq<byte>, c: byte)
    requires text != [] && Base64.IsLetter(c)
    ensures WithLastBits(front + text, c) == front + WithLastBits(text, c)
  {
    hide Base64.IsLetter, Base64.Index;
  }

  // Exactly what comes out when the lost byte was a letter and the heap goes on with one letter: the
  // protobuf with that letter's bits at its end.
  lemma OneStrayLetter(m: ProtoMessage, heap: seq<byte>)
    requires OnSendLeg(m) && |EncodeProto(m)| % 3 == 0
    requires var junk := CString(heap); junk != [] && Base64.IsLetter(junk[0]) && Clean(junk[1..])
    ensures EncodeProto(m) != []
    ensures DecodeTolerant(ReceiveLeg(SendLeg(ToWire(m)), heap))
         == Accept(DecodeProto(WithLastBits(EncodeProto(m), CString(heap)[0])))
  {
    hide DecodeTolerant, DecodeProto, WithLastBits, EncodeProto, NulFree, Fits, CString, Base64.Encode, SendLeg, Accept;
    var b, frame, junk := EncodeProto(m), SendLeg(ToWire(m)), CString(heap);
    FirstByte(m);
    WireLength(b);
    WireIsNulFree(b);
    FrameIsNulFree(ToWire(m));
    CStringOfPayload(frame, heap);
    var rest := junk + [0];
    assert ReceiveLeg(frame, heap) == frame + rest;
    assert rest[1..] == junk[1..] + [0];
    CleanWithNul(junk[1..]);
    BehindPrefix(b, rest);
    LetterReplaced(b, rest);
  }

  // When the lost byte was a letter and the heap happens to go on with exactly one letter, that
  // letter takes the lost one's place: the message is accepted with a changed last character.
  // So the Clean condition of BothLegs cannot be dropped.
  lemma StrayLetterGoesUnnoticed(m: ProtoMessage, text: Str, heap: seq<byte>)
    requires OnSendLeg(m) && m == WithText(m, text) && text != []
    requires |EncodeProto(m)| % 3 == 0
    requires var junk := CString(heap);
             junk != [] && Base64.IsLetter(junk[0]) && Clean(junk[1..]) && ValidUtf8(WithLastBits(text, junk[0]))
    ensures DecodeTolerant(ReceiveLeg(SendLeg(ToWire(m)), heap))
         == Some(WithText(m, WithLastBits(text, CString(heap)[0])))
  {
    hide DecodeTolerant, DecodeProto, WithLastBits, ValidUtf8, EncodeProto, Fits, CString, Base64.Encode, SendLeg, ReceiveLeg;
    OneStrayLetter(m, heap);
    EncodingWithLastBits(m, text, CString(heap)[0]);
    EncodingOnlyWholeDecodes(WithText(m, WithLastBits(text, CString(heap)[0])));
  }

  // ---- ACKs ----

  lemma {:induction false} VarintLength(n: nat, k: nat)
    requires k >= 1 && (if k == 1 then n < 128 else Pow128(k - 1) <= n < Pow128(k))
    ensures |Protobuf.Varint(n)| == k
    decreases k
  {
    if k > 1 {
      VarintLength(n / 128, k - 1);
    }
  }

  function Pow128(k: nat): nat {
    if k == 0 then 1 else 128 * Pow128(k - 1)
  }

  lemma DeliverySize(messageUuid: Str)
    requires |messageUuid| == UUID_LENGTH
    ensures var c := Content.Delivery(DeliveryStatus(messageUuid, true, false));
            ContentFits(c) && |Protobuf.Written(ContentRecords(c))| == 40
  {
    var c := Content.Delivery(DeliveryStatus(messageUuid, true, false));
    var d1, d2 := [Protobuf.Len(1, messageUuid)], [Protobuf.Num(2, 1)];
    assert ContentRecords(c) == d1 + d2;
    ShortField(1, messageUuid);
    NumberField(2, 1);
    WrittenConcat(d1, d2);
  }

  // An unread ACK takes 98 bytes and the acker's id for every time from 1971 to 2109; 100 bytes for the
  // two-character ids of the shipped configurations.
  lemma AckSize(uuid: Str, messageUuid: Str, localUuid: Str, at: Time)
    requires |uuid| == UUID_LENGTH && |messageUuid| == UUID_LENGTH && 1 <= |localUuid| < 128
    requires 0x8_0000_0000 <= Millis(at) < 0x400_0000_0000
    ensures var m := CreateAck(uuid, messageUuid, localUuid, false, at);
            Fits(m) && |EncodeProto(m)| == 98 + |localUuid|
  {
    hide Protobuf.Varint, Base64.Unpadded, Protobuf.Written;
    var m := CreateAck(uuid, messageUuid, localUuid, false, at);
    var body := Protobuf.Written(ContentRecords(m.content.value));
    DeliverySize(messageUuid);
    var r1, r2 := [Protobuf.Len(1, uuid)], [Protobuf.Len(2, localUuid)];
    var r3, r4, r5 := [Protobuf.Num(3, Millis(at))], [Protobuf.Len(4, DEFAULT_ROOM)], [Protobuf.Len(8, body)];
    assert HeaderRecords(m) == r1 + (r2 + (r3 + r4));
    ShortField(1, uuid);
    ShortField(2, localUuid);
    NumberField(3, Millis(at));
    ShortField(4, DEFAULT_ROOM);
    ShortField(8, body);
    assert Pow128(5) == 0x8_0000_0000 && Pow128(6) == 0x400_0000_0000;
    VarintLength(Millis(at), 6);
    WrittenConcat(r3, r4);
    WrittenConcat(r2, r3 + r4);
    WrittenConcat(r1, r2 + (r3 + r4));
    assert ProtoRecords(m) == HeaderRecords(m) + r5;
    WrittenConcat(HeaderRecords(m), r5);
  }

  const LONGEST_ACKER: nat := 91

  // So its wire ends in two pads when the length of the acker's id is 2 modulo 3, and then it survives
  // both legs whatever the heap holds. (The acker's id may take 91 bytes before the wire exceeds 255.)
  lemma AckOverBothLegs(uuid: Str, messageUuid: Str, localUuid: Str, at: Time, heap: seq<byte>, peers: seq<Peer>, now: Time)
    requires |uuid| == UUID_LENGTH && |messageUuid| == UUID_LENGTH
    requires |localUuid| <= LONGEST_ACKER && |localUuid| % 3 == 2
    requires 0x8_0000_0000 <= Millis(at) < 0x400_0000_0000
    ensures var m := CreateAck(uuid, messageUuid, localUuid, false, at);
            && Fits(m) && 0 < |ToWire(m)| <= 255
            && DeserializeMessage(ReceiveLeg(SendLeg(ToWire(m)), heap), peers, now)
               == Some(Ack(messageUuid, false, FloorToMilli(at), localUuid))
  {
    hide DecodeTolerant, EncodeProto, Fits, ValidUtf8, Base64.Encode, SendLeg, ReceiveLeg, Clean, CString;
    var m := CreateAck(uuid, messageUuid, localUuid, false, at);
    AckSize(uuid, messageUuid, localUuid, at);
    WireLength(EncodeProto(m));
    BothLegs(m, heap);
    MillisRoundTrip(at);
  }
}
