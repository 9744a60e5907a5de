/** Chat messages and ACKs to wire bytes and back: src/utils/proto.rs and src/utils/ack.rs. */
module Codec {
  import opened Bytes
  import Base64
  import opened Adu
  import Protobuf
  import opened Schema
  import opened Messages

  datatype Deserialized =
    | Chat(message: ChatMessage)
    | Ack(messageUuid: Str, isRead: bool, ackTime: Time, ackerUuid: Str)

  const DEFAULT_ROOM: Str := Ascii("default")

  // ---- Writing ----

  function ConstructProto(msg: ChatMessage): ProtoMessage {
    ProtoMessage(msg.uuid, msg.sender.uuid, Millis(msg.status.tx), DEFAULT_ROOM,
                 Some(Text(TextMessage(msg.text, msg.response))))
  }

  // The ACK carries an uuid and a time of its own, drawn when it is made.
  function CreateAck(uuid: Str, messageUuid: Str, localUuid: Str, isRead: bool, now: Time): ProtoMessage {
    ProtoMessage(uuid, localUuid, Millis(now), DEFAULT_ROOM,
                 Some(Content.Delivery(DeliveryStatus(messageUuid, true, isRead))))
  }

  function ToWire(m: ProtoMessage): seq<byte>
    requires Fits(m)
  {
    Base64.Encode(EncodeProto(m))
  }

  function SerializeMessage(msg: ChatMessage): seq<byte>
    requires Fits(ConstructProto(msg))
  {
    ToWire(ConstructProto(msg))
  }

  // ---- Reading ----

  // One decode attempt from the given offset: base64, then protobuf, and content must be there.
  function Attempt(buf: seq<byte>, start: nat): (r: Option<ProtoMessage>)
    ensures r.Some? ==> r.value.content.Some?
  {
    if start >= |buf| then None
    else match DecodeAdu(buf[start..])
      case None => None
      case Some(bytes) => Accept(DecodeProto(bytes))
  }

  function DecodeTolerant(buf: seq<byte>): (r: Option<ProtoMessage>)
    ensures r.Some? ==> r.value.content.Some?
  {
    match Attempt(buf, 0)
    case Some(m) => Some(m)
    case None => Attempt(buf, 1)
  }

  // The same attempt once its base64 stage is known.
  lemma AttemptFrom(buf: seq<byte>, start: nat)
    requires start < |buf|
    ensures var decoded := DecodeAdu(buf[start..]);
            Attempt(buf, start) == if decoded.None? then None else Accept(DecodeProto(decoded.value))
  {
  }

  // Only a message with content is accepted.
  function Accept(parsed: Option<ProtoMessage>): Option<ProtoMessage> {
    if parsed.Some? && parsed.value.content.Some? then parsed else None
  }

  method DecodeProtoTolerant(buf: seq<byte>) returns (r: Option<ProtoMessage>)
    ensures r == DecodeTolerant(buf)
  {
    for start := 0 to 2
      invariant start > 0 ==> Attempt(buf, 0) == None
      invariant start > 1 ==> Attempt(buf, 1) == None
    {
      if start >= |buf| {
        break;
      }
      AttemptFrom(buf, start);
      var decoded := DecodeAduBase64(buf[start..]);
      if decoded.None? {
        continue;
      }
      var parsed := DecodeProto(decoded.value);
      if parsed.Some? && parsed.value.content.Some? {
        return parsed;
      }
    }
    r := None;
  }

  // `now` is the local receive time.
  function ExtractMessage(m: ProtoMessage, peers: seq<Peer>, now: Time): Option<Deserialized> {
    match m.content
    case None => None
    case Some(content) =>
      match TimeOfMillis(m.timestamp)
      case None => None
      case Some(tx) =>
        match content
        case Delivery(d) => Some(Ack(d.messageUuid, d.read, tx, m.senderUuid))
        case Text(t) => Some(Received(m, peers, t.content, t.replyToUuid, tx, now))
        case File(_) => Some(Received(m, peers, FILE_TEXT, None, tx, now))
        case Presence(_) => Some(Received(m, peers, PRESENCE_TEXT, None, tx, now))
  }

  function Received(m: ProtoMessage, peers: seq<Peer>, text: Str, reply: Option<Str>, tx: Time, now: Time): Deserialized {
    Chat(ChatMessage(m.uuid, reply, PeerOrDefault(peers, m.senderUuid), text, MessageStatus.Received(tx, now)))
  }

  const NOT_SHOWN: string := " (not implemented for display)"
  const FILE_TEXT: Str := Ascii("File transfer" + NOT_SHOWN)
  const PRESENCE_TEXT: Str := Ascii("Presence update" + NOT_SHOWN)

  function DeserializeMessage(buf: seq<byte>, peers: seq<Peer>, now: Time): Option<Deserialized> {
    match DecodeTolerant(buf)
    case None => None
    case Some(m) => ExtractMessage(m, peers, now)
  }

  // ---- Round trips ----

  lemma EncodedIsNotEmpty(m: ProtoMessage)
    requires Fits(m) && m.content.Some?
    ensures EncodeProto(m) != []
  {
    assert ProtoRecords(m) != [];
  }

  // What the two attempts do with a buffer whose leading letters are an undamaged encoding.
  lemma AttemptOnEncoding(buf: seq<byte>, start: nat, m: ProtoMessage)
    requires Fits(m) && m.content.Some?
    requires start < |buf| && DecodeAdu(buf[start..]) == Some(EncodeProto(m))
    ensures Attempt(buf, start) == Some(m)
  {
    ProtoRoundTrip(m);
  }

  // A base64 text with any number of its pads left, followed by stray bytes: it is recovered
  // whatever follows if a pad is left, and otherwise whenever no letter follows directly.
  lemma WireWithJunk(m: ProtoMessage, pads: nat, junk: seq<byte>)
    requires Fits(m) && m.content.Some?
    requires var u := Base64.Unpadded(EncodeProto(m));
             pads <= |Base64.Pads(|u|)| && (pads > 0 || junk == [] || !Base64.IsLetter(junk[0]))
    ensures var u := Base64.Unpadded(EncodeProto(m));
            DecodeTolerant(u + Base64.Pads(|u|)[..pads] + junk) == Some(m)
  {
    var b := EncodeProto(m);
    var u := Base64.Unpadded(b);
    var buf := u + Base64.Pads(|u|)[..pads] + junk;
    EncodedIsNotEmpty(m);
    PadsAndJunk(b, pads, junk);
    assert buf[0..] == buf;
    AttemptOnEncoding(buf, 0, m);
  }

  lemma WireRoundTrip(m: ProtoMessage)
    requires Fits(m) && m.content.Some?
    ensures DecodeTolerant(ToWire(m)) == Some(m)
  {
    hide Protobuf.Merge, Base64.Unpadded, Protobuf.Written;
    var u := Base64.Unpadded(EncodeProto(m));
    var pads := Base64.Pads(|u|);
    WireWithJunk(m, |pads|, []);
    assert u + pads[..|pads|] + [] == ToWire(m);
  }

  // A chat message arrives with its text, reply and uuid, its time cut to milliseconds, and its
  // sender looked up among the receiver's peers.
  lemma ChatRoundTrip(msg: ChatMessage, peers: seq<Peer>, now: Time)
    requires Fits(ConstructProto(msg))
    ensures DeserializeMessage(SerializeMessage(msg), peers, now)
         == Some(Chat(ChatMessage(msg.uuid, msg.response, PeerOrDefault(peers, msg.sender.uuid), msg.text,
                                  MessageStatus.Received(FloorToMilli(msg.status.tx), now))))
  {
    WireRoundTrip(ConstructProto(msg));
    MillisRoundTrip(msg.status.tx);
  }

  lemma AckRoundTrip(uuid: Str, messageUuid: Str, localUuid: Str, isRead: bool, at: Time, peers: seq<Peer>, now: Time)
    requires Fits(CreateAck(uuid, messageUuid, localUuid, isRead, at))
    ensures DeserializeMessage(ToWire(CreateAck(uuid, messageUuid, localUuid, isRead, at)), peers, now)
         == Some(Ack(messageUuid, isRead, FloorToMilli(at), localUuid))
  {
    WireRoundTrip(CreateAck(uuid, messageUuid, localUuid, isRead, at));
    MillisRoundTrip(at);
  }
}
