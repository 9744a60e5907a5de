/** Exactly which messages survive the legs whatever the heap holds. Where the wire, as it arrives, does
    not end in a pad, heap letters may go on with it, and the decoder takes them for further fields. */
module StrayHeap {
  import opened Bytes
  import Base64
  import opened Adu
  import opened Protobuf
  import opened Schema
  import opened Messages
  import opened Codec
  import opened Legs

  // ---- Encodings that go on ----

  lemma {:induction false} UnpaddedConcat(a: seq<byte>, b: seq<byte>)
    requires |a| % 3 == 0
    ensures Base64.Unpadded(a + b) == Base64.Unpadded(a) + Base64.Unpadded(b)
    decreases |a|
  {
    hide Base64.Unpadded, Base64.Quad;
    if a == [] {
      assert a + b == b;
      assert Base64.Unpadded([]) == [];
    } else {
      assert (a + b)[3..] == a[3..] + b;
      Base64.UnpaddedStep(a);
      Base64.UnpaddedStep(a + b);
      UnpaddedConcat(a[3..], b);
    }
  }

  lemma PairGoesOn(x: byte, y: byte, e: seq<byte>)
    requires e != [] && e[0] < 64
    ensures Base64.Unpadded([x, y]) <= Base64.Unpadded([x, y] + e)
  {
    hide Base64.Letter;
    assert ([x, y] + e)[3..] == e[1..];
    Base64.UnpaddedStep([x, y] + e);
    assert Base64.Unpadded([x, y]) == Base64.Quad(x, y, e[0])[..3];
  }

  // The letters of b are the first letters of b + e, when b fills its last group or leaves it short of
  // one byte that the next one starts with zero bits.
  lemma EncodingGoesOn(b: seq<byte>, e: seq<byte>)
    requires e != [] && e[0] < 64 && |b| % 3 != 1
    ensures Base64.Unpadded(b) <= Base64.Unpadded(b + e)
  {
    hide Base64.Unpadded, Base64.AllLetters;
    if |b| % 3 == 0 {
      UnpaddedConcat(b, e);
    } else {
      var n := LastPair(b);
      PairGoesOnBehind(b[..n], b[n], b[n + 1], e);
    }
  }

  lemma LastPair(b: seq<byte>) returns (n: nat)
    requires |b| % 3 == 2
    ensures n + 2 == |b| && n % 3 == 0 && b == b[..n] + [b[n], b[n + 1]]
  {
    n := |b| - 2;
  }

  lemma PairGoesOnBehind(front: seq<byte>, x: byte, y: byte, e: seq<byte>)
    requires |front| % 3 == 0 && e != [] && e[0] < 64
    ensures Base64.Unpadded(front + [x, y]) <= Base64.Unpadded(front + [x, y] + e)
  {
    hide Base64.Unpadded;
    assert front + [x, y] + e == front + ([x, y] + e);
    UnpaddedConcat(front, [x, y]);
    UnpaddedConcat(front, [x, y] + e);
    PairGoesOn(x, y, e);
  }

  lemma FieldsAreBytes(recs: seq<Record>)
    requires AllWritable(recs) && recs != []
    ensures Written(recs) != []
  {
  }

  // ---- Messages that go on ----

  // Fields behind an encoded message are merged into it.
  lemma FieldsBehind(m: ProtoMessage, extra: seq<Record>)
    requires Fits(m) && AllWritable(extra)
    ensures DecodeProto(EncodeProto(m) + Written(extra)) == Fold(m, extra, ApplyProto)
  {
    hide Written, Fold, Fits, AllWritable;
    var recs := ProtoRecords(m);
    ProtoRoundTrip(m);
    MergeWritten(NO_MESSAGE, recs, ApplyProto, RECURSION_LIMIT);
    WrittenConcat(recs, extra);
    MergeWritten(NO_MESSAGE, recs + extra, ApplyProto, RECURSION_LIMIT);
    FoldConcat(NO_MESSAGE, recs, extra, ApplyProto);
  }

  // The heap that goes on with the letters of `full` from where the payload stopped.
  function GoingOn(full: seq<byte>, from: nat): seq<byte>
    requires from <= |full|
  {
    full[from..] + [0]
  }

  lemma CStringOfLetters(s: seq<byte>)
    requires Base64.AllLetters(s)
    ensures CString(s + [0]) == s
  {
    assert NulFree(s);
    CStringOfPayload(s, [0]);
    assert CString([0]) == [];
    assert s + [] == s;
  }

  lemma ReceivedLetters(payload: seq<byte>, full: seq<byte>, from: nat)
    requires NulFree(payload) && Base64.AllLetters(full) && from <= |full|
    ensures ReceiveLeg(payload, GoingOn(full, from)) == payload + GoingOn(full, from)
  {
    hide CString;
    CStringOfPayload(payload, GoingOn(full, from));
    CStringOfLetters(full[from..]);
  }

  // The base64 stage takes the payload's letters and the heap's for one encoding.
  lemma StageGoesOn(kept: seq<byte>, whole: seq<byte>)
    requires whole != [] && kept <= Base64.Unpadded(whole)
    ensures DecodeAdu(kept + GoingOn(Base64.Unpadded(whole), |kept|)) == Some(whole)
  {
    hide Base64.Unpadded, DecodeAdu;
    var full := Base64.Unpadded(whole);
    assert kept + GoingOn(full, |kept|) == full + Base64.Pads(|full|)[..0] + [0];
    PadsAndJunk(whole, 0, [0]);
  }

  lemma KeptLetters(b: seq<byte>, e: seq<byte>)
    requires b != [] && |b| % 3 != 1 && e != [] && e[0] < 64
    ensures var wire := Base64.Encode(b);
            |wire| > 0 && wire[..|wire| - 1] <= Base64.Unpadded(b + e) && NulFree(wire)
  {
    hide Base64.Unpadded;
    WireLength(b);
    WireIsNulFree(b);
    EncodingGoesOn(b, e);
  }

  // After both legs: for any further fields some heap makes the decoder take them for the message's own.
  lemma FieldsOverBothLegs(m: ProtoMessage, extra: seq<Record>) returns (heap: seq<byte>)
    requires OnSendLeg(m) && |EncodeProto(m)| % 3 != 1
    requires AllWritable(extra) && extra != [] && Written(extra)[0] < 64
    ensures DecodeTolerant(ReceiveLeg(SendLeg(ToWire(m)), heap)) == Accept(Fold(m, extra, ApplyProto))
  {
    hide DecodeTolerant, DecodeAdu, DecodeProto, EncodeProto, Fits, Base64.Unpadded, Base64.Encode, NulFree,
      Written, Fold, ReceiveLeg, GoingOn, Accept;
    FirstByte(m);
    FieldsAreBytes(extra);
    var b, e := EncodeProto(m), Written(extra);
    var wire, full := ToWire(m), Base64.Unpadded(b + e);
    KeptLetters(b, e);
    WireLength(b);
    var kept := wire[..|wire| - 1];
    heap := GoingOn(full, |kept|);
    FrameIsNulFree(wire);
    ReceivedLetters(SendLeg(wire), full, |kept|);
    BehindPrefix(b, heap);
    StageGoesOn(kept, b + e);
    FieldsBehind(m, extra);
  }

  // After the receive leg alone the same holds of the messages whose wire has no pad.
  lemma FieldsOverReceiveLeg(m: ProtoMessage, extra: seq<Record>) returns (heap: seq<byte>)
    requires Fits(m) && m.content.Some? && |EncodeProto(m)| % 3 == 0
    requires AllWritable(extra) && extra != [] && Written(extra)[0] < 64
    requires Accept(Fold(m, extra, ApplyProto)).Some?
    ensures DecodeTolerant(ReceiveLeg(ToWire(m), heap)) == Accept(Fold(m, extra, ApplyProto))
  {
    hide DecodeAdu, DecodeProto, EncodeProto, Fits, Base64.Unpadded, Base64.Encode, NulFree,
      Written, Fold, ReceiveLeg, GoingOn, Accept, Attempt;
    EncodedIsNotEmpty(m);
    FieldsAreBytes(extra);
    var b, e := EncodeProto(m), Written(extra);
    var wire, full := ToWire(m), Base64.Unpadded(b + e);
    WireLength(b);
    WireIsNulFree(b);
    EncodingGoesOn(b, e);
    heap := GoingOn(full, |wire|);
    ReceivedLetters(wire, full, |wire|);
    var buf := wire + heap;
    assert buf[0..] == buf;
    StageGoesOn(wire, b + e);
    AttemptFrom(buf, 0);
    FieldsBehind(m, extra);
  }

  // ---- The exact conditions ----

  // A timestamp the message does not have, as a field.
  function OtherTime(m: ProtoMessage): u64 {
    if m.timestamp == 0 then 1 else 0
  }

  function Retimed(m: ProtoMessage): ProtoMessage {
    m.(timestamp := OtherTime(m))
  }

  lemma TimeField(m: ProtoMessage)
    ensures var extra := [Num(3, OtherTime(m))];
            && AllWritable(extra) && Written(extra) == [24, OtherTime(m)]
            && Fold(m, extra, ApplyProto) == Some(Retimed(m))
  {
    var extra := [Num(3, OtherTime(m))];
    OneField(extra[0]);
    assert extra[1..] == [];
  }

  ghost predicate SurvivesBothLegs(m: ProtoMessage, heap: seq<byte>)
    requires OnSendLeg(m)
  {
    DecodeTolerant(ReceiveLeg(SendLeg(ToWire(m)), heap)) == Some(m)
  }

  ghost predicate UnchangedOverBothLegs(m: ProtoMessage, heap: seq<byte>)
    requires OnSendLeg(m)
  {
    var got := DecodeTolerant(ReceiveLeg(SendLeg(ToWire(m)), heap));
    got == Some(m) || got == None
  }

  // Over both legs a message is never changed, whatever the heap, if and only if its protobuf length is
  // 1 modulo 3; and those are the ones that always arrive.
  lemma BothLegsExact(m: ProtoMessage)
    requires OnSendLeg(m)
    ensures (forall heap :: UnchangedOverBothLegs(m, heap)) <==> |EncodeProto(m)| % 3 == 1
    ensures (forall heap :: SurvivesBothLegs(m, heap)) <==> |EncodeProto(m)| % 3 == 1
  {
    hide DecodeTolerant, EncodeProto, ReceiveLeg, SendLeg, Fits, ToWire, Written, Fold, ValidUtf8;
    if |EncodeProto(m)| % 3 == 1 {
      forall heap ensures SurvivesBothLegs(m, heap) && UnchangedOverBothLegs(m, heap) {
        BothLegs(m, heap);
      }
    } else {
      TimeField(m);
      var heap := FieldsOverBothLegs(m, [Num(3, OtherTime(m))]);
      assert !UnchangedOverBothLegs(m, heap);
      assert !SurvivesBothLegs(m, heap);
    }
  }

  ghost predicate SurvivesReceiveLeg(m: ProtoMessage, heap: seq<byte>)
    requires Fits(m)
  {
    DecodeTolerant(ReceiveLeg(ToWire(m), heap)) == Some(m)
  }

  ghost predicate UnchangedOverReceiveLeg(m: ProtoMessage, heap: seq<byte>)
    requires Fits(m)
  {
    var got := DecodeTolerant(ReceiveLeg(ToWire(m), heap));
    got == Some(m) || got == None
  }

  // Over the receive leg alone, if and only if the length is not 0 modulo 3.
  lemma ReceiveLegExact(m: ProtoMessage)
    requires Fits(m) && m.content.Some?
    ensures (forall heap :: UnchangedOverReceiveLeg(m, heap)) <==> |EncodeProto(m)| % 3 != 0
    ensures (forall heap :: SurvivesReceiveLeg(m, heap)) <==> |EncodeProto(m)| % 3 != 0
  {
    hide DecodeTolerant, EncodeProto, ReceiveLeg, Fits, ToWire, Written, Fold, ValidUtf8;
    if |EncodeProto(m)| % 3 != 0 {
      forall heap ensures SurvivesReceiveLeg(m, heap) && UnchangedOverReceiveLeg(m, heap) {
        ReceiveLegAlone(m, heap);
      }
    } else {
      TimeField(m);
      var heap := FieldsOverReceiveLeg(m, [Num(3, OtherTime(m))]);
      assert !UnchangedOverReceiveLeg(m, heap);
      assert !SurvivesReceiveLeg(m, heap);
    }
  }

  // ---- ACKs ----

  ghost predicate AckArrives(m: ProtoMessage, heap: seq<byte>, ack: Deserialized, peers: seq<Peer>, now: Time)
    requires OnSendLeg(m)
  {
    DeserializeMessage(ReceiveLeg(SendLeg(ToWire(m)), heap), peers, now) == Some(ack)
  }

  lemma RetimedAckDiffers(m: ProtoMessage, heap: seq<byte>, d: DeliveryStatus, at: Time, peers: seq<Peer>, now: Time)
    requires OnSendLeg(m) && m.content == Some(Content.Delivery(d)) && m.timestamp == Millis(at) && Millis(at) > 0
    requires DecodeTolerant(ReceiveLeg(SendLeg(ToWire(m)), heap)) == Some(Retimed(m))
    ensures !AckArrives(m, heap, Ack(d.messageUuid, d.read, FloorToMilli(at), m.senderUuid), peers, now)
  {
    hide DecodeTolerant, ToWire, ReceiveLeg, SendLeg, Fits, ValidUtf8, OnSendLeg;
    assert TimeOfMillis(0) == Some(0);
  }

  lemma AckIsOnSendLeg(uuid: Str, messageUuid: Str, localUuid: Str, at: Time)
    requires |uuid| == UUID_LENGTH && |messageUuid| == UUID_LENGTH && 1 <= |localUuid| <= LONGEST_ACKER
    requires 0x8_0000_0000 <= Millis(at) < 0x400_0000_0000
    ensures var m := CreateAck(uuid, messageUuid, localUuid, false, at);
            OnSendLeg(m) && |EncodeProto(m)| == 98 + |localUuid|
  {
    hide EncodeProto, Fits, ValidUtf8, Base64.Encode;
    AckSize(uuid, messageUuid, localUuid, at);
    WireLength(EncodeProto(CreateAck(uuid, messageUuid, localUuid, false, at)));
  }

  // An unread ACK comes back as itself from every heap if and only if the length of the acker's id is
  // 2 modulo 3.
  lemma AckExact(uuid: Str, messageUuid: Str, localUuid: Str, at: Time, peers: seq<Peer>, now: Time)
    requires |uuid| == UUID_LENGTH && |messageUuid| == UUID_LENGTH && 1 <= |localUuid| <= LONGEST_ACKER
    requires 0x8_0000_0000 <= Millis(at) < 0x400_0000_0000
    ensures var m := CreateAck(uuid, messageUuid, localUuid, false, at);
            && OnSendLeg(m)
            && ((forall heap :: AckArrives(m, heap, Ack(messageUuid, false, FloorToMilli(at), localUuid), peers, now))
                <==> |localUuid| % 3 == 2)
  {
    hide DecodeTolerant, DeserializeMessage, EncodeProto, ReceiveLeg, SendLeg, Fits, ValidUtf8, Written, Fold, ToWire, OnSendLeg;
    var m := CreateAck(uuid, messageUuid, localUuid, false, at);
    AckIsOnSendLeg(uuid, messageUuid, localUuid, at);
    if |localUuid| % 3 == 2 {
      forall heap ensures AckArrives(m, heap, Ack(messageUuid, false, FloorToMilli(at), localUuid), peers, now) {
        AckOverBothLegs(uuid, messageUuid, localUuid, at, heap, peers, now);
      }
    } else {
      TimeField(m);
      var heap := FieldsOverBothLegs(m, [Num(3, OtherTime(m))]);
      RetimedAckDiffers(m, heap, DeliveryStatus(messageUuid, true, false), at, peers, now);
    }
  }
}
