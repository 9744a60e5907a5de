/** The messages of src/proto/message.proto: how each is written, merged and read back. */
module Schema {
  import opened Bytes
  import opened Protobuf

  datatype TextMessage = TextMessage(content: Str, replyToUuid: Option<Str>)

  datatype FileTransfer = FileTransfer(
    filename: Str, mimeType: Str, fileSize: u64, chunkData: seq<byte>,
    chunkIndex: u32, totalChunks: u32, fileHash: Str)

  // Open enum: any int32 is kept.
  datatype PresenceUpdate = PresenceUpdate(status: i32)

  datatype DeliveryStatus = DeliveryStatus(messageUuid: Str, received: bool, read: bool)

  datatype Content =
    | Text(text: TextMessage)
    | File(file: FileTransfer)
    | Presence(presence: PresenceUpdate)
    | Delivery(delivery: DeliveryStatus)

  datatype ProtoMessage = ProtoMessage(
    uuid: Str, senderUuid: Str, timestamp: i64, roomUuid: Str, content: Option<Content>)

  const NO_TEXT := TextMessage([], None)
  const NO_FILE := FileTransfer([], [], 0, [], 0, 0, [])
  const NO_PRESENCE := PresenceUpdate(0)
  const NO_DELIVERY := DeliveryStatus([], false, false)
  const NO_MESSAGE := ProtoMessage([], [], 0, [], None)

  // ---- Scalars ----

  // Signed integers travel as the two's complement 64-bit pattern.
  function ToUnsigned(x: i64): u64 { if x < 0 then x + TWO_64 else x }

  function ToSigned(n: u64): i64 { if n >= TWO_63 then n - TWO_64 else n }

  function LowSigned(n: u64): i32 {
    var low := n % TWO_32;
    if low >= TWO_31 then low - TWO_32 else low
  }

  lemma SignedRoundTrip(x: i64)
    ensures ToSigned(ToUnsigned(x)) == x
  {
  }

  lemma LowSignedRoundTrip(x: i32)
    ensures LowSigned(ToUnsigned(x)) == x
  {
    if x < 0 {
      assert (x + TWO_64) % TWO_32 == x + TWO_32 by {
        assert x + TWO_64 == (x + TWO_32) + TWO_32 * (TWO_32 - 1);
      }
    }
  }

  function AsStr(rec: Record): Option<Str> {
    if rec.Len? && ValidUtf8(rec.payload) then Some(rec.payload) else None
  }

  function AsNum(rec: Record): Option<u64> {
    if rec.Num? then Some(rec.number) else None
  }

  // ---- Reading: one field into a message ----

  function ApplyText(m: TextMessage, rec: Record): Option<TextMessage> {
    match rec.tag
    case 1 => (match AsStr(rec) case None => None case Some(s) => Some(m.(content := s)))
    case 2 => (match AsStr(rec) case None => None case Some(s) => Some(m.(replyToUuid := Some(s))))
    case _ => Some(m)
  }

  function ApplyFile(m: FileTransfer, rec: Record): Option<FileTransfer> {
    match rec.tag
    case 1 => (match AsStr(rec) case None => None case Some(s) => Some(m.(filename := s)))
    case 2 => (match AsStr(rec) case None => None case Some(s) => Some(m.(mimeType := s)))
    case 3 => (match AsNum(rec) case None => None case Some(n) => Some(m.(fileSize := n)))
    case 4 => if rec.Len? then Some(m.(chunkData := rec.payload)) else None
    case 5 => (match AsNum(rec) case None => None case Some(n) => Some(m.(chunkIndex := n % TWO_32)))
    case 6 => (match AsNum(rec) case None => None case Some(n) => Some(m.(totalChunks := n % TWO_32)))
    case 7 => (match AsStr(rec) case None => None case Some(s) => Some(m.(fileHash := s)))
    case _ => Some(m)
  }

  function ApplyPresence(m: PresenceUpdate, rec: Record): Option<PresenceUpdate> {
    match rec.tag
    case 1 => (match AsNum(rec) case None => None case Some(n) => Some(PresenceUpdate(LowSigned(n))))
    case _ => Some(m)
  }

  function ApplyDelivery(m: DeliveryStatus, rec: Record): Option<DeliveryStatus> {
    match rec.tag
    case 1 => (match AsStr(rec) case None => None case Some(s) => Some(m.(messageUuid := s)))
    case 2 => (match AsNum(rec) case None => None case Some(n) => Some(m.(received := n != 0)))
    case 3 => (match AsNum(rec) case None => None case Some(n) => Some(m.(read := n != 0)))
    case _ => Some(m)
  }

  // Messages inside the oneof are read one nesting level down.
  const INNER: nat := RECURSION_LIMIT - 1

  // A oneof member seen again is merged into the one already there; another member replaces it.
  function ApplyContent(prior: Option<Content>, tag: nat, payload: seq<byte>): Option<Content>
    requires 5 <= tag <= 8
  {
    if tag == 5 then
      var start := if prior.Some? && prior.value.Text? then prior.value.text else NO_TEXT;
      (match Merge(start, payload, ApplyText, INNER) case None => None case Some(t) => Some(Text(t)))
    else if tag == 6 then
      var start := if prior.Some? && prior.value.File? then prior.value.file else NO_FILE;
      (match Merge(start, payload, ApplyFile, INNER) case None => None case Some(f) => Some(File(f)))
    else if tag == 7 then
      var start := if prior.Some? && prior.value.Presence? then prior.value.presence else NO_PRESENCE;
      (match Merge(start, payload, ApplyPresence, INNER) case None => None case Some(p) => Some(Presence(p)))
    else
      var start := if prior.Some? && prior.value.Delivery? then prior.value.delivery else NO_DELIVERY;
      (match Merge(start, payload, ApplyDelivery, INNER) case None => None case Some(d) => Some(Delivery(d)))
  }

  function ApplyProto(m: ProtoMessage, rec: Record): Option<ProtoMessage> {
    if rec.tag == 1 then
      (match AsStr(rec) case None => None case Some(s) => Some(m.(uuid := s)))
    else if rec.tag == 2 then
      (match AsStr(rec) case None => None case Some(s) => Some(m.(senderUuid := s)))
    else if rec.tag == 3 then
      (match AsNum(rec) case None => None case Some(n) => Some(m.(timestamp := ToSigned(n))))
    else if rec.tag == 4 then
      (match AsStr(rec) case None => None case Some(s) => Some(m.(roomUuid := s)))
    else if 5 <= rec.tag <= 8 then
      if rec.Len? then
        match ApplyContent(m.content, rec.tag, rec.payload)
        case None => None
        case Some(c) => Some(m.(content := Some(c)))
      else None
    else Some(m)
  }

  function DecodeProto(buf: seq<byte>): Option<ProtoMessage> {
    Merge(NO_MESSAGE, buf, ApplyProto, RECURSION_LIMIT)
  }

  // ---- Writing: default values are left out, the oneof comes last ----

  function OptLen(tag: FieldNumber, s: seq<byte>): seq<Record> {
    if s == [] then [] else [Len(tag, s)]
  }

  function OptNum(tag: FieldNumber, n: u64): seq<Record> {
    if n == 0 then [] else [Num(tag, n)]
  }

  function OptBool(tag: FieldNumber, b: bool): seq<Record> {
    if b then [Num(tag, 1)] else []
  }

  function TextRecords(t: TextMessage): seq<Record> {
    OptLen(1, t.content) + (match t.replyToUuid case None => [] case Some(u) => [Len(2, u)])
  }

  function FileRecords(f: FileTransfer): seq<Record> {
    OptLen(1, f.filename) + (OptLen(2, f.mimeType) + (OptNum(3, f.fileSize) + (OptLen(4, f.chunkData)
    + (OptNum(5, f.chunkIndex) + (OptNum(6, f.totalChunks) + OptLen(7, f.fileHash))))))
  }

  function PresenceRecords(p: PresenceUpdate): seq<Record> {
    OptNum(1, ToUnsigned(p.status))
  }

  function DeliveryRecords(d: DeliveryStatus): seq<Record> {
    OptLen(1, d.messageUuid) + (OptBool(2, d.received) + OptBool(3, d.read))
  }

  function ContentRecords(c: Content): seq<Record> {
    match c
    case Text(t) => TextRecords(t)
    case File(f) => FileRecords(f)
    case Presence(p) => PresenceRecords(p)
    case Delivery(d) => DeliveryRecords(d)
  }

  function ContentTag(c: Content): FieldNumber {
    match c case Text(_) => 5 case File(_) => 6 case Presence(_) => 7 case Delivery(_) => 8
  }

  function HeaderRecords(m: ProtoMessage): seq<Record> {
    OptLen(1, m.uuid) + (OptLen(2, m.senderUuid)
    + (OptNum(3, ToUnsigned(m.timestamp)) + OptLen(4, m.roomUuid)))
  }

  // Strings and buffers in memory have fewer than 2^63 bytes.
  predicate ContentFits(c: Content) {
    AllWritable(ContentRecords(c)) && |Written(ContentRecords(c))| < TWO_63
  }

  predicate Fits(m: ProtoMessage) {
    AllWritable(HeaderRecords(m)) && (m.content.Some? ==> ContentFits(m.content.value))
  }

  function ProtoRecords(m: ProtoMessage): (recs: seq<Record>)
    requires Fits(m)
    ensures AllWritable(recs)
  {
    HeaderRecords(m)
    + match m.content
      case None => []
      case Some(c) => [Len(ContentTag(c), Written(ContentRecords(c)))]
  }

  function EncodeProto(m: ProtoMessage): seq<byte>
    requires Fits(m)
  {
    Written(ProtoRecords(m))
  }

  // ---- Reading back what was written ----

  // A field that is left out when it holds the default already merged.
  lemma FoldOptional<M>(m: M, m': M, opt: seq<Record>, rest: seq<Record>, apply: (M, Record) -> Option<M>)
    requires |opt| <= 1 && (if opt == [] then m == m' else apply(m, opt[0]) == Some(m'))
    ensures Fold(m, opt + rest, apply) == Fold(m', rest, apply)
  {
    if opt == [] {
      assert opt + rest == rest;
    } else {
      assert (opt + rest)[1..] == rest;
    }
  }

  lemma TextRoundTrip(t: TextMessage)
    ensures Fold(NO_TEXT, TextRecords(t), ApplyText) == Some(t)
  {
    var m1 := NO_TEXT.(content := t.content);
    var reply := match t.replyToUuid case None => [] case Some(u) => [Len(2, u)];
    FoldOptional(NO_TEXT, m1, OptLen(1, t.content), reply, ApplyText);
    FoldOptional(m1, t, reply, [], ApplyText);
    assert reply + [] == reply;
  }

  // The tail of a file's records, from the chunk data on.
  function FileTail(f: FileTransfer): seq<Record> {
    OptLen(4, f.chunkData) + (OptNum(5, f.chunkIndex) + (OptNum(6, f.totalChunks) + OptLen(7, f.fileHash)))
  }

  lemma FileTailRoundTrip(f: FileTransfer, m3: FileTransfer)
    requires m3 == NO_FILE.(filename := f.filename, mimeType := f.mimeType, fileSize := f.fileSize)
    ensures Fold(m3, FileTail(f), ApplyFile) == Some(f)
  {
    hide Fold, ValidUtf8;
    var a7 := OptLen(7, f.fileHash);
    var a6 := OptNum(6, f.totalChunks) + a7;
    var m4 := m3.(chunkData := f.chunkData);
    var m5 := m4.(chunkIndex := f.chunkIndex);
    var m6 := m5.(totalChunks := f.totalChunks);
    FoldOptional(m3, m4, OptLen(4, f.chunkData), OptNum(5, f.chunkIndex) + a6, ApplyFile);
    FoldOptional(m4, m5, OptNum(5, f.chunkIndex), a6, ApplyFile);
    FoldOptional(m5, m6, OptNum(6, f.totalChunks), a7, ApplyFile);
    FoldOptional(m6, f, a7, [], ApplyFile);
    FoldNothing(f, ApplyFile);
    assert a7 + [] == a7;
  }

  lemma FoldNothing<M>(m: M, apply: (M, Record) -> Option<M>)
    ensures Fold(m, [], apply) == Some(m)
  {
  }

  lemma FileRoundTrip(f: FileTransfer)
    ensures Fold(NO_FILE, FileRecords(f), ApplyFile) == Some(f)
  {
    var a4 := FileTail(f);
    var a3 := OptNum(3, f.fileSize) + a4;
    var m1 := NO_FILE.(filename := f.filename);
    var m2 := m1.(mimeType := f.mimeType);
    var m3 := m2.(fileSize := f.fileSize);
    FileTailRoundTrip(f, m3);
    FoldOptional(NO_FILE, m1, OptLen(1, f.filename), OptLen(2, f.mimeType) + a3, ApplyFile);
    FoldOptional(m1, m2, OptLen(2, f.mimeType), a3, ApplyFile);
    FoldOptional(m2, m3, OptNum(3, f.fileSize), a4, ApplyFile);
  }

  lemma PresenceRoundTrip(p: PresenceUpdate)
    ensures Fold(NO_PRESENCE, PresenceRecords(p), ApplyPresence) == Some(p)
  {
    LowSignedRoundTrip(p.status);
  }

  lemma DeliveryRoundTrip(d: DeliveryStatus)
    ensures Fold(NO_DELIVERY, DeliveryRecords(d), ApplyDelivery) == Some(d)
  {
    var m1 := NO_DELIVERY.(messageUuid := d.messageUuid);
    var m2 := m1.(received := d.received);
    FoldOptional(NO_DELIVERY, m1, OptLen(1, d.messageUuid), OptBool(2, d.received) + OptBool(3, d.read), ApplyDelivery);
    FoldOptional(m1, m2, OptBool(2, d.received), OptBool(3, d.read), ApplyDelivery);
    FoldOptional(m2, d, OptBool(3, d.read), [], ApplyDelivery);
    assert OptBool(3, d.read) + [] == OptBool(3, d.read);
  }

  lemma ContentRoundTrip(c: Content)
    requires ContentFits(c)
    ensures ApplyContent(None, ContentTag(c), Written(ContentRecords(c))) == Some(c)
  {
    match c
    case Text(t) =>
      MergeWritten(NO_TEXT, TextRecords(t), ApplyText, INNER);
      TextRoundTrip(t);
    case File(f) =>
      MergeWritten(NO_FILE, FileRecords(f), ApplyFile, INNER);
      FileRoundTrip(f);
    case Presence(p) =>
      MergeWritten(NO_PRESENCE, PresenceRecords(p), ApplyPresence, INNER);
      PresenceRoundTrip(p);
    case Delivery(d) =>
      MergeWritten(NO_DELIVERY, DeliveryRecords(d), ApplyDelivery, INNER);
      DeliveryRoundTrip(d);
  }

  lemma HeaderRoundTrip(m: ProtoMessage)
    ensures Fold(NO_MESSAGE, HeaderRecords(m), ApplyProto) == Some(m.(content := None))
  {
    hide Protobuf.Merge;
    var a4 := OptLen(4, m.roomUuid);
    var a3 := OptNum(3, ToUnsigned(m.timestamp)) + a4;
    var a2 := OptLen(2, m.senderUuid) + a3;
    var m1 := NO_MESSAGE.(uuid := m.uuid);
    var m2 := m1.(senderUuid := m.senderUuid);
    var m3 := m2.(timestamp := m.timestamp);
    SignedRoundTrip(m.timestamp);
    FoldOptional(NO_MESSAGE, m1, OptLen(1, m.uuid), a2, ApplyProto);
    FoldOptional(m1, m2, OptLen(2, m.senderUuid), a3, ApplyProto);
    FoldOptional(m2, m3, OptNum(3, ToUnsigned(m.timestamp)), a4, ApplyProto);
    FoldOptional(m3, m.(content := None), a4, [], ApplyProto);
    assert a4 + [] == a4;
  }

  lemma ContentField(m: ProtoMessage, tag: nat, payload: seq<byte>, c: Content)
    requires 5 <= tag <= 8 && ApplyContent(m.content, tag, payload) == Some(c)
    ensures Fold(m, [Len(tag, payload)], ApplyProto) == Some(m.(content := Some(c)))
  {
    var last := [Len(tag, payload)];
    var m' := m.(content := Some(c));
    assert ApplyProto(m, last[0]) == Some(m');
    assert Fold(m', last[1..], ApplyProto) == Some(m');
  }

  // Every message, of any content, is read back as it was written.
  lemma ProtoRoundTrip(m: ProtoMessage)
    requires Fits(m)
    ensures DecodeProto(EncodeProto(m)) == Some(m)
  {
    MergeWritten(NO_MESSAGE, ProtoRecords(m), ApplyProto, RECURSION_LIMIT);
    HeaderRoundTrip(m);
    match m.content
    case None =>
      assert ProtoRecords(m) == HeaderRecords(m);
    case Some(c) =>
      var payload := Written(ContentRecords(c));
      FoldConcat(NO_MESSAGE, HeaderRecords(m), [Len(ContentTag(c), payload)], ApplyProto);
      ContentRoundTrip(c);
      ContentField(m.(content := None), ContentTag(c), payload, c);
  }

  // ---- Truncation ----

  lemma {:induction false} HeaderOnlyHasNoContent(m: ProtoMessage, recs: seq<Record>)
    requires forall i :: 0 <= i < |recs| ==> recs[i].tag < 5
    ensures var r := Fold(m, recs, ApplyProto); r.Some? ==> r.value.content == m.content
    decreases |recs|
  {
    if recs != [] && ApplyProto(m, recs[0]).Some? {
      HeaderOnlyHasNoContent(ApplyProto(m, recs[0]).value, recs[1..]);
    }
  }

  // Because the oneof is written last, a message cut short anywhere never decodes to one
  // with content.
  lemma CutNeverHasContent(m: ProtoMessage, p: seq<byte>)
    requires Fits(m) && p < EncodeProto(m)
    ensures DecodeProto(p).Some? ==> DecodeProto(p).value.content == None
  {
    hide Protobuf.Written, Protobuf.ReadRecord;
    var recs := ProtoRecords(m);
    var k := MergeCut(NO_MESSAGE, recs, p, ApplyProto, RECURSION_LIMIT);
    assert forall i :: 0 <= i < |HeaderRecords(m)| ==> HeaderRecords(m)[i].tag < 5;
    assert k <= |HeaderRecords(m)|;
    HeaderOnlyHasNoContent(NO_MESSAGE, recs[..k]);
  }
}
