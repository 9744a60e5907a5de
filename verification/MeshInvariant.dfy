/** The invariant of the mesh and its preservation by every step. */
module MeshInvariant {
  import opened Bytes
  import opened Messages
  import opened ChatModels
  import opened Schema
  import Codec
  import opened Controller
  import opened Mesh

  // ---- Counting frames ----

  datatype Kind = Chats | Acks

  // A frame about message u between its sender and recipient r.
  predicate Is(p: Packet, k: Kind, u: Str, r: Str) {
    match p.frame
    case ChatFrame(m) => k == Chats && m.uuid == u && p.to == r
    case AckFrame(_, mu, acker, _) => k == Acks && mu == u && acker == r
  }

  function Count(ps: seq<Packet>, k: Kind, u: Str, r: Str): nat {
    if ps == [] then 0 else (if Is(ps[0], k, u, r) then 1 else 0) + Count(ps[1..], k, u, r)
  }

  lemma {:induction false} CountConcat(a: seq<Packet>, b: seq<Packet>, k: Kind, u: Str, r: Str)
    ensures Count(a + b, k, u, r) == Count(a, k, u, r) + Count(b, k, u, r)
    decreases |a|
  {
    if a == [] {
      assert a + b == b;
    } else {
      assert (a + b)[1..] == a[1..] + b;
      CountConcat(a[1..], b, k, u, r);
    }
  }

  lemma CountOne(p: Packet, k: Kind, u: Str, r: Str)
    ensures Count([p], k, u, r) == if Is(p, k, u, r) then 1 else 0
  {
    assert [p][1..] == [];
  }

  lemma CountRemove(ps: seq<Packet>, i: nat, k: Kind, u: Str, r: Str)
    requires i < |ps|
    ensures Count(Remove(ps, i), k, u, r) + (if Is(ps[i], k, u, r) then 1 else 0) == Count(ps, k, u, r)
  {
    assert ps == ps[..i] + ([ps[i]] + ps[i + 1..]);
    CountConcat(ps[..i], [ps[i]] + ps[i + 1..], k, u, r);
    CountConcat([ps[i]], ps[i + 1..], k, u, r);
    CountConcat(ps[..i], ps[i + 1..], k, u, r);
    CountOne(ps[i], k, u, r);
  }

  lemma {:induction false} CountPositive(ps: seq<Packet>, k: Kind, u: Str, r: Str)
    ensures Count(ps, k, u, r) > 0 <==> exists p :: p in ps && Is(p, k, u, r)
    decreases |ps|
  {
    if ps != [] {
      CountPositive(ps[1..], k, u, r);
      assert ps == [ps[0]] + ps[1..];
      if Is(ps[0], k, u, r) {
        assert ps[0] in ps;
      }
    }
  }

  // Every frame about u and r ever put on the network, less the duplicates: in flight, dropped, or
  // handled as an ACK.
  function Balance(m: State, u: Str, r: Str): int {
    Count(m.net, Chats, u, r) + Count(m.net, Acks, u, r)
    + Count(m.lost, Chats, u, r) + Count(m.lost, Acks, u, r) + Count(m.handled, Acks, u, r)
    - Count(m.copies, Chats, u, r) - Count(m.copies, Acks, u, r)
  }

  // ---- The invariant ----

  predicate Marked(m: ChatMessage) {
    StartsWith(m.text, ACK_MARK)
  }

  predicate DistinctUuids(peers: seq<Peer>) {
    forall i, j :: 0 <= i < j < |peers| ==> peers[i].uuid != peers[j].uuid
  }

  // A consistent full mesh: every node is listed by every other one, once, and can be reached. Whether a
  // node lists itself does not matter.
  ghost predicate Config(nodes: map<Str, Node>, parses: AddressParser) {
    forall n :: n in nodes ==>
      && nodes[n].local.uuid == n
      && DistinctUuids(nodes[n].peers)
      && (forall p :: p in nodes[n].peers && p.uuid != n ==> p.uuid in nodes && IsReachable(p, parses))
      && (forall n' :: n' in nodes && n' != n ==> FindPeer(nodes[n].peers, n').Some?)
  }

  ghost predicate Recipient(m: ChatMessage, r: Str) {
    m.status.Sent? && exists i :: 0 <= i < |m.status.deliveries| && m.status.deliveries[i].peerUuid == r
  }

  predicate DistinctPeers(ds: seq<Delivery>) {
    forall i, j :: 0 <= i < j < |ds| ==> ds[i].peerUuid != ds[j].peerUuid
  }

  // The message as sent: fresh stamps, distinct recipients among the other nodes, and an entry in the
  // sender's list.
  ghost predicate GoodOriginal(nodes: map<Str, Node>, used: set<Str>, u: Str, x: ChatMessage) {
    && x.uuid == u && u in used && x.status.Sent? && Erase(x) == x
    && x.sender.uuid in nodes
    && DistinctPeers(x.status.deliveries)
    && (forall r :: Recipient(x, r) ==> r in nodes && r != x.sender.uuid)
    && exists y :: y in nodes[x.sender.uuid].list.messages && Erase(y) == x
  }

  ghost predicate SentOk(nodes: map<Str, Node>, used: set<Str>, sent: map<Str, ChatMessage>) {
    forall u :: u in sent ==> GoodOriginal(nodes, used, u, sent[u])
  }

  // A delivery is stamped exactly when an ACK for it has been handled.
  predicate StampsOk(handled: seq<Packet>, x: ChatMessage)
    requires x.status.Sent?
  {
    forall i :: 0 <= i < |x.status.deliveries| ==>
      (x.status.deliveries[i].ackedAt.Some? <==> Count(handled, Acks, x.uuid, x.status.deliveries[i].peerUuid) > 0)
  }

  predicate GoodSentEntry(sent: map<Str, ChatMessage>, handled: seq<Packet>, n: Str, x: ChatMessage)
    requires x.status.Sent?
  {
    && x.uuid in sent && Erase(x) == sent[x.uuid] && sent[x.uuid].sender.uuid == n
    && StampsOk(handled, x)
  }

  predicate GoodReceivedEntry(sent: map<Str, ChatMessage>, used: set<Str>, n: Str, x: ChatMessage) {
    x.status.Received? && x.uuid in used && (x.uuid in sent ==> sent[x.uuid].sender.uuid != n)
  }

  predicate GoodEntry(sent: map<Str, ChatMessage>, used: set<Str>, handled: seq<Packet>, n: Str, x: ChatMessage) {
    if x.status.Sent? then GoodSentEntry(sent, handled, n, x) else GoodReceivedEntry(sent, used, n, x)
  }

  // The messages a node lists: each in order, and each sent one only once.
  ghost predicate GoodView(view: multiset<ChatMessage>, sent: map<Str, ChatMessage>, used: set<Str>, handled: seq<Packet>, n: Str) {
    && (forall x :: x in view ==> GoodEntry(sent, used, handled, n, x))
    && (forall x :: x in view && x.status.Sent? ==> view[x] == 1)
    && (forall x, y :: x in view && y in view && x.status.Sent? && y.status.Sent? && x.uuid == y.uuid ==> x == y)
  }

  ghost predicate NodeOk(node: Node, sent: map<Str, ChatMessage>, used: set<Str>, handled: seq<Packet>, n: Str) {
    && Sorted(node.list.strategy, node.list.messages)
    && GoodView(multiset(node.list.messages), sent, used, handled, n)
    && (forall x :: x in node.pending ==> GoodReceivedEntry(sent, used, n, x))
  }

  ghost predicate NodesOk(nodes: map<Str, Node>, sent: map<Str, ChatMessage>, used: set<Str>, handled: seq<Packet>) {
    forall n :: n in nodes ==> NodeOk(nodes[n], sent, used, handled, n)
  }

  ghost predicate Holds(node: Node, x: ChatMessage) {
    x in node.list.messages || x in node.pending
  }

  // What a recipient makes of a message.
  predicate ReceivedCopy(x: ChatMessage, original: ChatMessage) {
    && x.status.Received? && x.uuid == original.uuid && x.text == original.text
    && x.response == original.response && x.sender.uuid == original.sender.uuid
    && x.status.tx == FloorToMilli(original.status.tx)
  }

  // The node has the message in its list, or still holds it for its observers.
  ghost predicate Recorded(nodes: map<Str, Node>, r: Str, original: ChatMessage) {
    r in nodes && exists x :: Holds(nodes[r], x) && ReceivedCopy(x, original)
  }

  ghost predicate PacketOk(nodes: map<Str, Node>, sent: map<Str, ChatMessage>, p: Packet) {
    && p.to in nodes && Fits(ProtoOf(p.frame))
    && match p.frame
       case ChatFrame(x) => x.uuid in sent && x == sent[x.uuid] && Recipient(x, p.to)
       case AckFrame(_, u, acker, _) =>
         && u in sent && p.to == sent[u].sender.uuid && Recipient(sent[u], acker)
         && !Marked(sent[u]) && Recorded(nodes, acker, sent[u])
  }

  ghost predicate AllOk(nodes: map<Str, Node>, sent: map<Str, ChatMessage>, ps: seq<Packet>) {
    forall p :: p in ps ==> PacketOk(nodes, sent, p)
  }

  predicate AcksOnly(ps: seq<Packet>) {
    forall p :: p in ps ==> p.frame.AckFrame?
  }

  ghost predicate PacketsOk(m: State) {
    && AllOk(m.nodes, m.sent, m.net) && AllOk(m.nodes, m.sent, m.lost)
    && AllOk(m.nodes, m.sent, m.copies) && AllOk(m.nodes, m.sent, m.handled) && AcksOnly(m.handled)
  }

  ghost predicate Law(m: State) {
    forall u, r :: u in m.sent && Recipient(m.sent[u], r) && !Marked(m.sent[u]) ==> Balance(m, u, r) == 1
  }

  ghost predicate Inv(m: State, parses: AddressParser) {
    && Config(m.nodes, parses)
    && SentOk(m.nodes, m.used, m.sent)
    && m.sent.Keys <= m.used
    && NodesOk(m.nodes, m.sent, m.used, m.handled)
    && PacketsOk(m)
    && Law(m)
  }

  // ---- Facts shared by the steps ----

  // Nothing a packet relies on is lost.
  ghost predicate Extends(m: State, m': State) {
    && m'.nodes.Keys == m.nodes.Keys
    && (forall u :: u in m.sent ==> u in m'.sent && m'.sent[u] == m.sent[u])
    && (forall n, x :: n in m.nodes && Holds(m.nodes[n], x) && x.status.Received? ==> Holds(m'.nodes[n], x))
  }

  lemma AllOkExtends(m: State, m': State, ps: seq<Packet>)
    requires Extends(m, m') && AllOk(m.nodes, m.sent, ps)
    ensures AllOk(m'.nodes, m'.sent, ps)
  {
    hide Fits, ReceivedCopy, Marked;
    forall p | p in ps ensures PacketOk(m'.nodes, m'.sent, p) {
      assert PacketOk(m.nodes, m.sent, p);
      if p.frame.AckFrame? {
        RecordedExtends(m, m', p.frame.acker, m.sent[p.frame.messageUuid]);
      }
    }
  }

  lemma RecordedExtends(m: State, m': State, r: Str, original: ChatMessage)
    requires Extends(m, m') && Recorded(m.nodes, r, original)
    ensures Recorded(m'.nodes, r, original)
  {
    var x :| Holds(m.nodes[r], x) && ReceivedCopy(x, original);
    assert Holds(m'.nodes[r], x);
  }

  // A frame about a message nobody sent does not exist.
  lemma CountOfFresh(m: State, ps: seq<Packet>, k: Kind, u: Str, r: Str)
    requires u !in m.sent && AllOk(m.nodes, m.sent, ps)
    ensures Count(ps, k, u, r) == 0
  {
    hide Fits;
    CountPositive(ps, k, u, r);
  }

  // ---- What a delivery decodes to ----

  lemma ChatDecodes(x: ChatMessage, peers: seq<Peer>, now: Time)
    requires Fits(ProtoOf(ChatFrame(x)))
    ensures Codec.DeserializeMessage(Payload(ChatFrame(x)), peers, now)
         == Some(Codec.Chat(ChatMessage(x.uuid, x.response, PeerOrDefault(peers, x.sender.uuid), x.text,
                                        MessageStatus.Received(FloorToMilli(x.status.tx), now))))
  {
    hide Codec.DeserializeMessage, Fits, Codec.ToWire;
    Codec.ChatRoundTrip(x, peers, now);
  }

  lemma AckDecodes(f: Frame, peers: seq<Peer>, now: Time)
    requires f.AckFrame? && Fits(ProtoOf(f))
    ensures Codec.DeserializeMessage(Payload(f), peers, now)
         == Some(Codec.Ack(f.messageUuid, false, FloorToMilli(f.at), f.acker))
  {
    hide Codec.DeserializeMessage, Fits, Codec.ToWire;
    Codec.AckRoundTrip(f.ackUuid, f.messageUuid, f.acker, false, f.at, peers, now);
  }
}
