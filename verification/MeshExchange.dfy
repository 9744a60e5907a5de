/** A chat frame that is delivered, and whose ACK is delivered, ends in a stamp; and such exchanges do
    happen: a mesh of two nodes has one. */
module MeshExchange {
  import opened Bytes
  import opened Messages
  import opened ChatModels
  import opened Schema
  import Codec
  import opened Controller
  import Eid
  import opened Mesh
  import opened MeshInvariant
  import opened MeshSteps
  import opened MeshRuns

  lemma {:induction false} RunsOn(m: State, steps: seq<Step>, m': State, s: Step, parses: AddressParser)
    requires RunsTo(m, steps, m', parses) && Enabled(m', s)
    ensures RunsTo(m, steps + [s], Next(m', s, parses), parses)
    decreases |steps|
  {
    hide Enabled, Next;
    var steps' := steps + [s];
    if steps == [] {
      assert steps'[1..] == [];
    } else {
      assert steps'[1..] == steps[1..] + [s];
      RunsOn(Next(m, steps[0], parses), steps[1..], m', s, parses);
    }
  }

  lemma NextIsReachable(m: State, s: Step, parses: AddressParser)
    requires Reachable(m, parses) && Enabled(m, s)
    ensures Reachable(Next(m, s, parses), parses)
  {
    hide Enabled, Next, RunsTo, Init;
    var start, steps :| Init(start, parses) && RunsTo(start, steps, m, parses);
    RunsOn(start, steps, m, s, parses);
  }

  // The ACK a delivery brings about is the last frame on the network, and can be delivered.
  lemma AckComesBack(m: State, i: nat, w: Circumstances, parses: AddressParser)
    requires Inv(m, parses) && i < |m.net| && m.net[i].frame.ChatFrame? && !Marked(m.net[i].frame.message)
    requires Enabled(m, Deliver(i, w))
    ensures var x, m1 := m.net[i].frame.message, Next(m, Deliver(i, w), parses);
            && m1.net == Remove(m.net, i) + [Packet(x.sender.uuid, AckFrame(w.ackUuid, x.uuid, m.net[i].to, w.ackAt))]
            && m1.lost == m.lost && m1.sent == m.sent
  {
    hide Config, SentOk, NodesOk, Law, Fits, Marked, Receive, CopyOf, PacketOk;
    assert PacketOk(m.nodes, m.sent, m.net[i]);
    ReceiveChatIs(m, i, w, parses);
  }

  lemma AckCanBeDelivered(m: State, j: nat, w: Circumstances, parses: AddressParser)
    requires Inv(m, parses) && j < |m.net| && m.net[j].frame.AckFrame?
    ensures Enabled(m, Deliver(j, w))
    ensures var m' := Next(m, Deliver(j, w), parses);
            m'.net == Remove(m.net, j) && m'.handled == m.handled + [m.net[j]] && m'.lost == m.lost && m'.sent == m.sent
  {
    hide Config, SentOk, NodesOk, Law, Fits, Receive, Codec.DeserializeMessage, AckTarget, ChatModels.Step;
    assert PacketOk(m.nodes, m.sent, m.net[j]);
    ReceiveAckIs(m, j, w, parses);
  }

  ghost predicate Leads(m: State, s: Step, m': State, parses: AddressParser) {
    Enabled(m, s) && m' == Next(m, s, parses)
  }

  // From any reachable state: deliver an unmarked chat frame, then the ACK it brings about, and the
  // sender's list shows that delivery as acked.
  lemma ExchangeIsStamped(m: State, i: nat, w: Circumstances, w': Circumstances, parses: AddressParser)
      returns (m1: State, m': State, x: ChatMessage, k: nat)
    requires Reachable(m, parses) && i < |m.net| && m.net[i].frame.ChatFrame? && !Marked(m.net[i].frame.message)
    requires Enabled(m, Deliver(i, w))
    ensures Leads(m, Deliver(i, w), m1, parses) && |m1.net| == |m.net|
    ensures Leads(m1, Deliver(|m1.net| - 1, w'), m', parses)
    ensures Reachable(m', parses) && m'.net == Remove(m.net, i) && m'.lost == m.lost
    ensures Listed(m', m.net[i].frame.message.sender.uuid, x) && x.uuid == m.net[i].frame.message.uuid && !Marked(x)
    ensures k < |x.status.deliveries| && x.status.deliveries[k].peerUuid == m.net[i].to && IsAcked(x, k)
  {
    hide Reachable, Marked, Fits, Inv, Enabled, Next, Recipient, GoodSentEntry;
    var p := m.net[i];
    ReachableIsGood(m, parses);
    AckComesBack(m, i, w, parses);
    m1 := Next(m, Deliver(i, w), parses);
    NextIsReachable(m, Deliver(i, w), parses);
    ReachableIsGood(m1, parses);
    var j := |m1.net| - 1;
    AckCanBeDelivered(m1, j, w', parses);
    m' := Next(m1, Deliver(j, w'), parses);
    NextIsReachable(m1, Deliver(j, w'), parses);
    assert Remove(m1.net, j) == Remove(m.net, i);
    FrameIsSent(m, p, parses);
    x := SentStaysListed(m', p.frame.message.uuid, parses);
    k := StampedLike(x, p.frame.message, p.to);
    ReachableIsGood(m', parses);
    ListedIsGood(m', p.frame.message.sender.uuid, x, parses);
    StampFollows(m'.sent, m'.handled, p.frame.message.sender.uuid, x, k, m1.net[j]);
  }

  lemma FrameIsSent(m: State, p: Packet, parses: AddressParser)
    requires Inv(m, parses) && p in m.net && p.frame.ChatFrame?
    ensures var x := p.frame.message; x.uuid in m.sent && m.sent[x.uuid] == x && Recipient(x, p.to)
  {
    hide Config, SentOk, NodesOk, Law, Recipient, Fits;
    assert PacketOk(m.nodes, m.sent, p);
  }

  lemma StampFollows(sent: map<Str, ChatMessage>, handled: seq<Packet>, n: Str, x: ChatMessage, k: nat, ack: Packet)
    requires x.status.Sent? && GoodSentEntry(sent, handled, n, x) && k < |x.status.deliveries|
    requires ack in handled && Is(ack, Acks, x.uuid, x.status.deliveries[k].peerUuid)
    ensures IsAcked(x, k)
  {
    hide Erase;
    CountPositive(handled, Acks, x.uuid, x.status.deliveries[k].peerUuid);
  }

  // ---- A mesh of two ----

  const ONE: Str := Ascii("1")
  const TWO: Str := Ascii("2")

  predicate InOrder(ep: Endpoint, parses: AddressParser) {
    IsValid(ep, parses) && IsUsable(ep, parses)
  }

  function PeerAt(id: Str, at: Endpoint): Peer {
    Peer(id, id, [at], 0)
  }

  function NodeAt(id: Str, at: Endpoint, other: Str, otherAt: Endpoint): Node {
    Node(PeerAt(id, at), [PeerAt(other, otherAt)], MessageList(Standard, []), multiset{})
  }

  function Pair(a: Endpoint, b: Endpoint): State {
    State(map[ONE := NodeAt(ONE, a, TWO, b), TWO := NodeAt(TWO, b, ONE, a)], [], [], [], [], map[], {})
  }

  lemma NamesDiffer()
    ensures |ONE| == 1 && ONE[0] == 49 && |TWO| == 1 && TWO[0] == 50
  {
  }

  lemma PairIsInitial(a: Endpoint, b: Endpoint, parses: AddressParser)
    requires InOrder(a, parses) && InOrder(b, parses)
    ensures Init(Pair(a, b), parses)
  {
    hide ValidUtf8, Config, StartsClean, InOrder;
    PairIsConsistent(a, b, parses);
    ListsAreClean(ONE, a, TWO, b);
    ListsAreClean(TWO, b, ONE, a);
  }

  lemma PairIsConsistent(a: Endpoint, b: Endpoint, parses: AddressParser)
    requires InOrder(a, parses) && InOrder(b, parses)
    ensures Config(Pair(a, b).nodes, parses)
  {
    hide ValidUtf8, IsReachable, FindPeer, DistinctUuids, InOrder;
    NamesDiffer();
    PeersInOrder(ONE, a, parses);
    PeersInOrder(TWO, b, parses);
  }

  lemma ListsAreClean(id: Str, at: Endpoint, other: Str, otherAt: Endpoint)
    ensures StartsClean(NodeAt(id, at, other, otherAt), {})
  {
  }

  lemma PeersInOrder(other: Str, at: Endpoint, parses: AddressParser)
    requires InOrder(at, parses)
    ensures IsReachable(PeerAt(other, at), parses) && DistinctUuids([PeerAt(other, at)])
    ensures FindPeer([PeerAt(other, at)], other).Some?
  {
    hide IsValid, IsUsable;
  }

  const HELLO: Draft := Draft([], None, [], 0, [None])

  lemma PairRecipients(b: Endpoint)
    ensures Recipients([PeerAt(TWO, b)], ONE) == [PeerAt(TWO, b)]
  {
    NamesDiffer();
    assert [PeerAt(TWO, b)][1..] == [];
  }

  lemma HelloCanBeSent(a: Endpoint, b: Endpoint, parses: AddressParser)
    ensures Enabled(Pair(a, b), Send(ONE, HELLO))
    ensures var m := Next(Pair(a, b), Send(ONE, HELLO), parses);
            && |m.net| == 1 && m.net[0].to == TWO && m.lost == [] && TWO in m.nodes
            && m.net[0].frame == ChatFrame(SentMessage(Pair(a, b).nodes[ONE], HELLO))
  {
    hide ValidUtf8, ChatModels.Step;
    PairRecipients(b);
    HelloFits(SentMessage(Pair(a, b).nodes[ONE], HELLO));
  }

  lemma HelloFits(x: ChatMessage)
    requires x.uuid == [] && x.sender.uuid == ONE && x.text == [] && x.response == None
    ensures Fits(Codec.ConstructProto(x)) && !Marked(x)
  {
  }

  lemma AckFits(to: Str)
    requires |to| < 100
    ensures Fits(Codec.CreateAck([], [], to, false, 0))
  {
  }

  // So the theorems about reachable states speak of real exchanges, over any pair of endpoints in order.
  lemma ExchangesHappen(a: Endpoint, b: Endpoint, parses: AddressParser)
    requires InOrder(a, parses) && InOrder(b, parses)
    ensures exists m, x, k :: Reachable(m, parses) && m.net == [] && m.lost == [] && Listed(m, ONE, x) && !Marked(x) && IsAcked(x, k)
  {
    hide Reachable, Enabled, Next, Init, Marked, Fits, IsAcked, Listed, RunsTo, InOrder;
    PairIsInitial(a, b, parses);
    PairIsReachable(a, b, parses);
    HelloCanBeSent(a, b, parses);
    NextIsReachable(Pair(a, b), Send(ONE, HELLO), parses);
    var m := Next(Pair(a, b), Send(ONE, HELLO), parses);
    var w := Circumstances(None, [], 0, 0);
    HelloFits(m.net[0].frame.message);
    NamesDiffer();
    AckFits(TWO);
    HelloCanBeDelivered(m, w);
    var _, m', x, k := ExchangeIsStamped(m, 0, w, w, parses);
    assert Remove(m.net, 0) == [];
  }

  // Over BP between any two nodes, even if no IP address parses; and over TCP.
  lemma ExchangesHappenOverBp(node: u32, service: u32, node': u32, service': u32)
    ensures exists m, x, k :: Reachable(m, s => false) && m.net == [] && m.lost == [] && Listed(m, ONE, x) && !Marked(x) && IsAcked(x, k)
  {
    hide Reachable, Listed, Marked, IsAcked, IsValid, IsUsable, Eid.PrintDec, ValidUtf8;
    var none: AddressParser := s => false;
    DecimalIsUsable(node, service, none);
    DecimalIsUsable(node', service', none);
    ExchangesHappen(Bp([105, 112, 110, 58] + Eid.PrintDec(node) + [46] + Eid.PrintDec(service)),
                    Bp([105, 112, 110, 58] + Eid.PrintDec(node') + [46] + Eid.PrintDec(service')), none);
  }

  lemma ExchangesHappenOverTcp(address: Str, address': Str, parses: AddressParser)
    requires parses(address) && parses(address')
    ensures exists m, x, k :: Reachable(m, parses) && m.net == [] && m.lost == [] && Listed(m, ONE, x) && !Marked(x) && IsAcked(x, k)
  {
    hide Reachable, Listed, Marked, IsAcked;
    ExchangesHappen(Tcp(address), Tcp(address'), parses);
  }

  lemma PairIsReachable(a: Endpoint, b: Endpoint, parses: AddressParser)
    requires Init(Pair(a, b), parses)
    ensures Reachable(Pair(a, b), parses)
  {
    hide Init;
    assert RunsTo(Pair(a, b), [], Pair(a, b), parses);
  }

  lemma HelloCanBeDelivered(m: State, w: Circumstances)
    requires |m.net| == 1 && m.net[0].frame.ChatFrame? && m.net[0].to in m.nodes && Fits(ProtoOf(m.net[0].frame))
    requires Fits(Codec.CreateAck(w.ackUuid, m.net[0].frame.message.uuid, m.net[0].to, false, w.ackAt))
    ensures Enabled(m, Deliver(0, w))
  {
    hide Fits;
  }
}
