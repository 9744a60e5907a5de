/** The bytes on the wire, against the numbers of src/proto/message.proto and of the Protocol Buffers
    encoding: what is written for each field, and what the reader does with everything else. */
module WireFormat {
  import opened Bytes
  import opened Protobuf
  import opened Schema
  import opened Messages
  import opened Codec
  import opened Legs

  // ---- Varints ----

  // Seven bits a byte, least significant first.
  function Sevens(v: seq<byte>): nat {
    if v == [] then 0 else v[0] % 128 + 128 * Sevens(v[1..])
  }

  lemma {:induction false} VarintExact(n: nat)
    ensures var v := Varint(n);
            && (forall i :: 0 <= i < |v| - 1 ==> v[i] >= 128) && v[|v| - 1] < 128
            && (|v| > 1 ==> v[|v| - 1] > 0) && Sevens(v) == n
  {
    if n >= 128 {
      VarintExact(n / 128);
      var v, rest := Varint(n), Varint(n / 128);
      assert v[1..] == rest;
      assert forall i :: 0 < i < |v| ==> v[i] == rest[i - 1];
    } else {
      assert Varint(n)[1..] == [];
    }
  }

  lemma {:induction false} ReadSevens(buf: seq<byte>, j: nat, k: nat)
    requires j < |buf| && (forall i :: 0 <= i < j ==> buf[i] >= 128) && buf[j] < 128
    ensures ReadVarintWithin(buf, k)
         == if j < k && (j == k - 1 ==> buf[j] < 2) then Some((Sevens(buf[..j + 1]), buf[j + 1..])) else None
    decreases j
  {
    if j == 0 {
      assert buf[..1][1..] == [];
    } else if k > 0 {
      var tail := buf[1..];
      assert forall i :: 0 <= i < j - 1 ==> tail[i] == buf[i + 1];
      ReadSevens(tail, j - 1, k - 1);
      SevensFrom(buf, j);
      assert buf[0] >= 128 && tail[j..] == buf[j + 1..];
    }
  }

  lemma SevensFrom(buf: seq<byte>, j: nat)
    requires 0 < j < |buf| && buf[0] >= 128
    ensures Sevens(buf[..j + 1]) == buf[0] - 128 + 128 * Sevens(buf[1..][..j])
  {
    assert buf[..j + 1][1..] == buf[1..][..j];
  }

  lemma {:induction false} NoEnd(buf: seq<byte>, k: nat)
    requires forall i :: 0 <= i < |buf| ==> buf[i] >= 128
    ensures ReadVarintWithin(buf, k) == None
    decreases |buf|
  {
    if buf != [] && k > 0 {
      NoEnd(buf[1..], k - 1);
    }
  }

  // A number is read from up to ten bytes, the tenth at most 1, whether or not it is written as short as
  // it could be; without a last byte there is none.
  lemma ReadVarintExact(buf: seq<byte>, j: nat)
    requires j <= |buf| && (forall i :: 0 <= i < j ==> buf[i] >= 128) && (j < |buf| ==> buf[j] < 128)
    ensures ReadVarint(buf)
         == if j < |buf| && (j < 9 || (j == 9 && buf[9] < 2)) then Some((Sevens(buf[..j + 1]), buf[j + 1..])) else None
  {
    if j < |buf| {
      ReadSevens(buf, j, 10);
    } else {
      NoEnd(buf, 10);
    }
  }

  // Negative numbers travel as their two's complement in 64 bits.
  lemma SignedExact(x: i64)
    ensures 0 <= x ==> ToUnsigned(x) == x
    ensures x < 0 ==> ToUnsigned(x) == x + 0x1_0000_0000_0000_0000
  {
  }

  // ---- Fields that are written ----

  function StringField(key: byte, s: seq<byte>): seq<byte> {
    if s == [] then [] else [key] + Varint(|s|) + s
  }

  function NumberField'(key: byte, n: nat): seq<byte> {
    if n == 0 then [] else [key] + Varint(n)
  }

  function FlagField(key: byte, b: bool): seq<byte> {
    if b then [key, 1] else []
  }

  lemma SmallVarint(n: nat)
    requires n < 128
    ensures Varint(n) == [n]
  {
  }

  lemma OptLenBytes(tag: FieldNumber, s: seq<byte>)
    requires tag < 16 && AllWritable(OptLen(tag, s))
    ensures Written(OptLen(tag, s)) == StringField(8 * tag + 2, s)
  {
    if s != [] {
      assert Writable(OptLen(tag, s)[0]);
      OneField(Len(tag, s));
      SmallVarint(8 * tag + 2);
    }
  }

  lemma OptNumBytes(tag: FieldNumber, n: u64)
    requires tag < 16
    ensures AllWritable(OptNum(tag, n)) && Written(OptNum(tag, n)) == NumberField'(8 * tag, n)
  {
    if n != 0 {
      OneField(Num(tag, n));
      SmallVarint(8 * tag);
    }
  }

  lemma OptBoolBytes(tag: FieldNumber, b: bool)
    requires tag < 16
    ensures AllWritable(OptBool(tag, b)) && Written(OptBool(tag, b)) == FlagField(8 * tag, b)
  {
    if b {
      OneField(Num(tag, 1));
      SmallVarint(8 * tag);
      SmallVarint(1);
    }
  }

  lemma Parts(a: seq<Record>, b: seq<Record>)
    requires AllWritable(a + b)
    ensures AllWritable(a) && AllWritable(b) && Written(a + b) == Written(a) + Written(b)
  {
    assert forall i :: 0 <= i < |a| ==> a[i] == (a + b)[i];
    assert forall i :: 0 <= i < |b| ==> b[i] == (a + b)[|a| + i];
    WrittenConcat(a, b);
  }

  function TextBytes(t: TextMessage): seq<byte> {
    StringField(10, t.content)
    + match t.replyToUuid case None => [] case Some(u) => [18] + Varint(|u|) + u
  }

  function FileBytes(f: FileTransfer): seq<byte> {
    StringField(10, f.filename) + (StringField(18, f.mimeType) + (NumberField'(24, f.fileSize)
    + (StringField(34, f.chunkData) + (NumberField'(40, f.chunkIndex) + (NumberField'(48, f.totalChunks)
    + StringField(58, f.fileHash))))))
  }

  function PresenceBytes(p: PresenceUpdate): seq<byte> {
    NumberField'(8, ToUnsigned(p.status))
  }

  function DeliveryBytes(d: DeliveryStatus): seq<byte> {
    StringField(10, d.messageUuid) + (FlagField(16, d.received) + FlagField(24, d.read))
  }

  function ContentBytes(c: Content): seq<byte> {
    match c
    case Text(t) => [42] + Varint(|TextBytes(t)|) + TextBytes(t)
    case File(f) => [50] + Varint(|FileBytes(f)|) + FileBytes(f)
    case Presence(p) => [58] + Varint(|PresenceBytes(p)|) + PresenceBytes(p)
    case Delivery(d) => [66] + Varint(|DeliveryBytes(d)|) + DeliveryBytes(d)
  }

  function HeaderBytes(m: ProtoMessage): seq<byte> {
    StringField(10, m.uuid) + (StringField(18, m.senderUuid)
    + (NumberField'(24, ToUnsigned(m.timestamp)) + StringField(34, m.roomUuid)))
  }

  lemma TextExact(t: TextMessage)
    requires AllWritable(TextRecords(t))
    ensures Written(TextRecords(t)) == TextBytes(t)
  {
    hide Written, AllWritable, Varint, ValidUtf8;
    var reply := match t.replyToUuid case None => [] case Some(u) => [Len(2, u)];
    Parts(OptLen(1, t.content), reply);
    OptLenBytes(1, t.content);
    match t.replyToUuid
    case None => NothingWritten();
    case Some(u) => LenBytes(2, u);
  }

  lemma NothingWritten()
    ensures AllWritable([]) && Written([]) == []
  {
  }

  lemma LenBytes(tag: FieldNumber, s: seq<byte>)
    requires tag < 16 && AllWritable([Len(tag, s)])
    ensures Written([Len(tag, s)]) == [8 * tag + 2] + Varint(|s|) + s
  {
    assert Writable([Len(tag, s)][0]);
    OneField(Len(tag, s));
    SmallVarint(8 * tag + 2);
  }

  lemma FileExact(f: FileTransfer)
    requires AllWritable(FileRecords(f))
    ensures Written(FileRecords(f)) == FileBytes(f)
  {
    hide Written, AllWritable, StringField, NumberField', OptLen, OptNum, ValidUtf8;
    var r7 := OptLen(7, f.fileHash);
    var r6 := OptNum(6, f.totalChunks) + r7;
    var r5 := OptNum(5, f.chunkIndex) + r6;
    var r4 := OptLen(4, f.chunkData) + r5;
    var r3 := OptNum(3, f.fileSize) + r4;
    var r2 := OptLen(2, f.mimeType) + r3;
    Parts(OptLen(1, f.filename), r2);
    Parts(OptLen(2, f.mimeType), r3);
    Parts(OptNum(3, f.fileSize), r4);
    Parts(OptLen(4, f.chunkData), r5);
    Parts(OptNum(5, f.chunkIndex), r6);
    Parts(OptNum(6, f.totalChunks), r7);
    OptLenBytes(1, f.filename);
    OptLenBytes(2, f.mimeType);
    OptNumBytes(3, f.fileSize);
    OptLenBytes(4, f.chunkData);
    OptNumBytes(5, f.chunkIndex);
    OptNumBytes(6, f.totalChunks);
    OptLenBytes(7, f.fileHash);
  }

  lemma DeliveryExact(d: DeliveryStatus)
    requires AllWritable(DeliveryRecords(d))
    ensures Written(DeliveryRecords(d)) == DeliveryBytes(d)
  {
    hide Written, AllWritable, StringField, FlagField, OptLen, OptBool, ValidUtf8;
    Parts(OptLen(1, d.messageUuid), OptBool(2, d.received) + OptBool(3, d.read));
    Parts(OptBool(2, d.received), OptBool(3, d.read));
    OptLenBytes(1, d.messageUuid);
    OptBoolBytes(2, d.received);
    OptBoolBytes(3, d.read);
  }

  lemma ContentExact(c: Content)
    requires ContentFits(c)
    ensures AllWritable([Len(ContentTag(c), Written(ContentRecords(c)))])
    ensures Written([Len(ContentTag(c), Written(ContentRecords(c)))]) == ContentBytes(c)
  {
    hide Written, TextBytes, FileBytes, PresenceBytes, DeliveryBytes, TextRecords, FileRecords, PresenceRecords, DeliveryRecords, Varint;
    LenBytes(ContentTag(c), Written(ContentRecords(c)));
    match c
    case Text(t) => TextExact(t);
    case File(f) => FileExact(f);
    case Presence(p) => PresenceExact(p);
    case Delivery(d) => DeliveryExact(d);
  }

  lemma PresenceExact(p: PresenceUpdate)
    ensures AllWritable(PresenceRecords(p)) && Written(PresenceRecords(p)) == PresenceBytes(p)
  {
    OptNumBytes(1, ToUnsigned(p.status));
  }

  lemma HeaderExact(m: ProtoMessage)
    requires AllWritable(HeaderRecords(m))
    ensures Written(HeaderRecords(m)) == HeaderBytes(m)
  {
    hide Written, AllWritable, StringField, NumberField', OptLen, OptNum, ValidUtf8;
    var r4 := OptLen(4, m.roomUuid);
    var r3 := OptNum(3, ToUnsigned(m.timestamp)) + r4;
    Parts(OptLen(1, m.uuid), OptLen(2, m.senderUuid) + r3);
    Parts(OptLen(2, m.senderUuid), r3);
    Parts(OptNum(3, ToUnsigned(m.timestamp)), r4);
    OptLenBytes(1, m.uuid);
    OptLenBytes(2, m.senderUuid);
    OptNumBytes(3, ToUnsigned(m.timestamp));
    OptLenBytes(4, m.roomUuid);
  }

  // Every message, byte by byte: the keys are the schema's numbers, defaults are left out, the content
  // comes last.
  lemma MessageExact(m: ProtoMessage)
    requires Fits(m)
    ensures EncodeProto(m) == HeaderBytes(m) + match m.content case None => [] case Some(c) => ContentBytes(c)
  {
    hide Written, AllWritable, HeaderRecords, HeaderBytes, ContentBytes, ContentRecords, ContentTag, ValidUtf8;
    HeaderExact(m);
    match m.content
    case None => assert HeaderRecords(m) + [] == HeaderRecords(m);
    case Some(c) =>
      ContentExact(c);
      WrittenConcat(HeaderRecords(m), [Len(ContentTag(c), Written(ContentRecords(c)))]);
  }

  // What the application writes for a chat message and for an ACK.
  lemma ApplicationMessages(msg: ChatMessage, uuid: Str, messageUuid: Str, localUuid: Str, isRead: bool, now: Time)
    ensures var m := ConstructProto(msg);
            && m.uuid == msg.uuid && m.senderUuid == msg.sender.uuid
            && m.timestamp * 1_000_000 <= msg.status.tx < (m.timestamp + 1) * 1_000_000
            && m.roomUuid == [100, 101, 102, 97, 117, 108, 116] // default
            && m.content == Some(Text(TextMessage(msg.text, msg.response)))
    ensures var a := CreateAck(uuid, messageUuid, localUuid, isRead, now);
            && a.uuid == uuid && a.senderUuid == localUuid
            && a.timestamp * 1_000_000 <= now < (a.timestamp + 1) * 1_000_000
            && a.roomUuid == [100, 101, 102, 97, 117, 108, 116]
            && a.content == Some(Content.Delivery(DeliveryStatus(messageUuid, true, isRead)))
  {
    hide ValidUtf8;
    RoomBytes();
  }

  lemma RoomBytes()
    ensures DEFAULT_ROOM == [100, 101, 102, 97, 117, 108, 116]
  {
    hide ValidUtf8;
  }

  // ---- What is shown of other messages ----

  // The placeholders, letter by letter.
  lemma FileText()
    ensures Spells(FILE_TEXT, "File transfer (not implemented for display)")
  {
    hide ValidUtf8;
  }

  lemma PresenceText()
    ensures Spells(PRESENCE_TEXT, "Presence update (not implemented for display)")
  {
    hide ValidUtf8;
  }

  predicate Spells(s: seq<byte>, text: string) {
    |s| == |text| && forall i :: 0 <= i < |s| ==> s[i] == text[i] as int
  }

  // Nothing comes of a message without content or with a time outside chrono's range; otherwise text, ACK
  // or a placeholder, by the kind of content.
  lemma ExtractExact(m: ProtoMessage, peers: seq<Peer>, now: Time)
    ensures var r := ExtractMessage(m, peers, now);
            && (r.None? <==> m.content.None? || !(-8_334_601_228_800_000 <= m.timestamp <= 8_210_266_876_799_999))
            && (r.Some? ==>
                  match m.content.value
                  case Delivery(d) => r.value == Ack(d.messageUuid, d.read, m.timestamp * 1_000_000, m.senderUuid)
                  case Text(t) => IsChat(r.value, m, peers, t.content, t.replyToUuid, now)
                  case File(_) => IsChat(r.value, m, peers, FILE_TEXT, None, now)
                  case Presence(_) => IsChat(r.value, m, peers, PRESENCE_TEXT, None, now))
  {
    hide Ascii, ValidUtf8;
  }

  ghost predicate IsChat(d: Deserialized, m: ProtoMessage, peers: seq<Peer>, text: Str, reply: Option<Str>, now: Time) {
    && d.Chat? && d.message.uuid == m.uuid && d.message.text == text && d.message.response == reply
    && d.message.sender == PeerOrDefault(peers, m.senderUuid)
    && d.message.status.Received? && d.message.status.tx == m.timestamp * 1_000_000 && d.message.status.rx == now
  }

  // ---- What the reader does with other fields ----

  // Keys with wire type 6 or 7, without a field number, or beyond 32 bits are errors.
  lemma BadKeys(key: u64, rest: seq<byte>, depth: nat)
    requires key % 8 >= 6 || key < 8 || key >= 0x1_0000_0000
    ensures ReadRecord(Varint(key) + rest, depth) == None
  {
    hide ReadVarint, Varint;
    ReadVarintOf(key, rest);
  }

  // Fixed-width fields are skipped whole or are errors.
  lemma FixedAreSkipped(tag: FieldNumber, body: seq<byte>, depth: nat)
    requires depth > 0
    ensures ReadRecord(Varint(tag * 8 + 1) + body, depth)
         == if |body| < 8 then None else Some((Other(tag), body[8..]))
    ensures ReadRecord(Varint(tag * 8 + 5) + body, depth)
         == if |body| < 4 then None else Some((Other(tag), body[4..]))
  {
    hide ReadVarint, Varint;
    ReadKeyOf(tag, 1, body);
    ReadKeyOf(tag, 5, body);
  }

  // k groups of a field, one in another, and nothing else.
  function Groups(tag: FieldNumber, k: nat): seq<byte> {
    if k == 0 then [] else Varint(tag * 8 + 3) + Groups(tag, k - 1) + Varint(tag * 8 + 4)
  }

  lemma {:induction false} SkipGroups(tag: FieldNumber, k: nat, rest: seq<byte>, depth: nat)
    requires depth > 0
    ensures SkipGroup(tag, Groups(tag, k) + Varint(tag * 8 + 4) + rest, depth) == if k < depth then Some(rest) else None
    decreases k
  {
    hide ReadVarint, Varint, ReadKey;
    if k == 0 {
      assert Groups(tag, 0) + Varint(tag * 8 + 4) + rest == Varint(tag * 8 + 4) + rest;
      ReadKeyOf(tag, 4, rest);
    } else {
      var after := Varint(tag * 8 + 4) + rest;
      var inner := Groups(tag, k - 1) + Varint(tag * 8 + 4) + after;
      assert Groups(tag, k) + Varint(tag * 8 + 4) + rest == Varint(tag * 8 + 3) + inner;
      ReadKeyOf(tag, 3, inner);
      ReadKeyOf(tag, 4, rest);
      if depth > 1 {
        SkipGroups(tag, k - 1, after, depth - 1);
        EndOfGroup(tag, rest, depth);
      }
    }
  }

  lemma EndOfGroup(tag: FieldNumber, rest: seq<byte>, depth: nat)
    requires depth > 0
    ensures SkipGroup(tag, Varint(tag * 8 + 4) + rest, depth) == Some(rest)
  {
    hide ReadVarint, Varint;
    ReadKeyOf(tag, 4, rest);
  }

  // Groups are skipped to the end, up to a hundred of them one in another.
  lemma GroupsAreSkipped(tag: FieldNumber, k: nat, rest: seq<byte>)
    requires k > 0
    ensures ReadRecord(Groups(tag, k) + rest, 100) == if k <= 100 then Some((Other(tag), rest)) else None
  {
    hide ReadVarint, Varint, ReadKey, SkipGroup;
    var inner := Groups(tag, k - 1) + Varint(tag * 8 + 4) + rest;
    assert Groups(tag, k) + rest == Varint(tag * 8 + 3) + inner;
    ReadKeyOf(tag, 3, inner);
    SkipGroups(tag, k - 1, rest, 100);
  }

  // A group closed under another number is an error.
  lemma GroupsMustMatch(tag: FieldNumber, other: FieldNumber, rest: seq<byte>, depth: nat)
    requires tag != other
    ensures ReadRecord(Varint(tag * 8 + 3) + (Varint(other * 8 + 4) + rest), depth) == None
  {
    hide ReadVarint, Varint;
    ReadKeyOf(tag, 3, Varint(other * 8 + 4) + rest);
    ReadKeyOf(other, 4, rest);
    if depth > 0 {
      assert SkipGroup(tag, Varint(other * 8 + 4) + rest, depth) == None;
    }
  }

  // Field by field: a known field must have its wire type, and its text must be UTF-8; the last one wins;
  // an unknown field changes nothing.
  lemma FieldsExact(m: ProtoMessage, rec: Record)
    ensures rec.tag == 1 ==> ApplyProto(m, rec) == if rec.Len? && ValidUtf8(rec.payload) then Some(m.(uuid := rec.payload)) else None
    ensures rec.tag == 2 ==> ApplyProto(m, rec) == if rec.Len? && ValidUtf8(rec.payload) then Some(m.(senderUuid := rec.payload)) else None
    ensures rec.tag == 3 ==>
              && (rec.Num? ==> exists t: i64 :: ApplyProto(m, rec) == Some(m.(timestamp := t)) && ToUnsigned(t) == rec.number)
              && (!rec.Num? ==> ApplyProto(m, rec) == None)
    ensures rec.tag == 4 ==> ApplyProto(m, rec) == if rec.Len? && ValidUtf8(rec.payload) then Some(m.(roomUuid := rec.payload)) else None
    ensures 5 <= rec.tag <= 8 && !rec.Len? ==> ApplyProto(m, rec) == None
    ensures rec.tag == 0 || rec.tag > 8 ==> ApplyProto(m, rec) == Some(m)
  {
    hide ValidUtf8, Merge;
    if rec.tag == 3 && rec.Num? {
      var t := ToSigned(rec.number);
      assert ToUnsigned(t) == rec.number;
    }
  }

  predicate IsText(rec: Record) {
    rec.Len? && ValidUtf8(rec.payload)
  }

  // The same inside the contents; 32-bit numbers keep their low bits, a flag is set by any other number
  // than zero.
  lemma InnerFieldsExact(t: TextMessage, f: FileTransfer, p: PresenceUpdate, d: DeliveryStatus, rec: Record)
    ensures ApplyText(t, rec).None? <==> 1 <= rec.tag <= 2 && !IsText(rec)
    ensures ApplyFile(f, rec).None? <==>
              || ((rec.tag == 1 || rec.tag == 2 || rec.tag == 7) && !IsText(rec))
              || (rec.tag == 4 && !rec.Len?)
              || ((rec.tag == 3 || rec.tag == 5 || rec.tag == 6) && !rec.Num?)
    ensures ApplyPresence(p, rec).None? <==> rec.tag == 1 && !rec.Num?
    ensures ApplyDelivery(d, rec).None? <==> (rec.tag == 1 && !IsText(rec)) || (2 <= rec.tag <= 3 && !rec.Num?)
    ensures rec.tag == 0 || rec.tag > 7 ==>
              ApplyText(t, rec) == Some(t) && ApplyFile(f, rec) == Some(f) && ApplyPresence(p, rec) == Some(p) && ApplyDelivery(d, rec) == Some(d)
    ensures rec.Num? && rec.tag == 5 ==> ApplyFile(f, rec) == Some(f.(chunkIndex := rec.number % 0x1_0000_0000))
    ensures rec.Num? && rec.tag == 6 ==> ApplyFile(f, rec) == Some(f.(totalChunks := rec.number % 0x1_0000_0000))
    ensures rec.Num? && rec.tag == 1 ==> exists s: i32 :: ApplyPresence(p, rec) == Some(PresenceUpdate(s)) && (rec.number - s) % 0x1_0000_0000 == 0
    ensures rec.Num? && rec.tag == 2 ==> ApplyDelivery(d, rec) == Some(d.(received := rec.number != 0))
    ensures rec.Num? && rec.tag == 3 ==> ApplyDelivery(d, rec) == Some(d.(read := rec.number != 0))
  {
    hide ValidUtf8;
    if rec.Num? && rec.tag == 1 {
      LowBits(rec.number);
      assert ApplyPresence(p, rec) == Some(PresenceUpdate(LowSigned(rec.number)));
    }
  }

  lemma LowBits(n: u64)
    ensures (n - LowSigned(n)) % 0x1_0000_0000 == 0
  {
    var q := n / TWO_32;
    assert n == q * TWO_32 + n % TWO_32;
    assert n - LowSigned(n) == q * TWO_32 || n - LowSigned(n) == (q + 1) * TWO_32;
  }

  // A content field is read into the content of its own kind that is already there, or replaces another.
  lemma ContentsExact(m: ProtoMessage, payload: seq<byte>)
    ensures ApplyProto(m, Len(5, payload))
         == match Merge(if m.content.Some? && m.content.value.Text? then m.content.value.text else TextMessage([], None), payload, ApplyText, 99)
            case None => None
            case Some(t) => Some(m.(content := Some(Text(t))))
    ensures ApplyProto(m, Len(6, payload))
         == match Merge(if m.content.Some? && m.content.value.File? then m.content.value.file else FileTransfer([], [], 0, [], 0, 0, []),
                        payload, ApplyFile, 99)
            case None => None
            case Some(f) => Some(m.(content := Some(File(f))))
    ensures ApplyProto(m, Len(7, payload))
         == match Merge(if m.content.Some? && m.content.value.Presence? then m.content.value.presence else PresenceUpdate(0), payload, ApplyPresence, 99)
            case None => None
            case Some(p) => Some(m.(content := Some(Presence(p))))
    ensures ApplyProto(m, Len(8, payload))
         == match Merge(if m.content.Some? && m.content.value.Delivery? then m.content.value.delivery else DeliveryStatus([], false, false),
                        payload, ApplyDelivery, 99)
            case None => None
            case Some(d) => Some(m.(content := Some(Content.Delivery(d))))
  {
    hide Merge, ValidUtf8;
  }
}
