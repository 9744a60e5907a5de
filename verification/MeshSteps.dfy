/** Every step of the mesh keeps the invariant. */
module MeshSteps {
  import opened Bytes
  import opened Messages
  import opened ChatModels
  import opened Schema
  import Codec
  import opened Controller
  import opened Mesh
  import opened MeshInvariant

  // ---- Steps of the network ----

  lemma DropKeeps(m: State, i: nat, parses: AddressParser)
    requires Inv(m, parses) && i < |m.net|
    ensures Inv(DropOne(m, i), parses)
  {
    hide PacketOk, NodeOk, GoodOriginal, IsReachable, FindPeer, Count, Recipient;
    var m' := DropOne(m, i);
    forall u, r | u in m'.sent && Recipient(m'.sent[u], r) && !Marked(m'.sent[u]) ensures Balance(m', u, r) == 1 {
      MoveCounts(m, i, u, r);
    }
  }

  lemma MoveCounts(m: State, i: nat, u: Str, r: Str)
    requires i < |m.net|
    ensures Balance(DropOne(m, i), u, r) == Balance(m, u, r)
  {
    var p := m.net[i];
    CountRemove(m.net, i, Chats, u, r);
    CountRemove(m.net, i, Acks, u, r);
    CountConcat(m.lost, [p], Chats, u, r);
    CountConcat(m.lost, [p], Acks, u, r);
    CountOne(p, Chats, u, r);
    CountOne(p, Acks, u, r);
  }

  lemma DuplicateKeeps(m: State, i: nat, parses: AddressParser)
    requires Inv(m, parses) && i < |m.net|
    ensures Inv(DuplicateOne(m, i), parses)
  {
    hide PacketOk, NodeOk, GoodOriginal, IsReachable, FindPeer, Count, Recipient;
    var m' := DuplicateOne(m, i);
    var p := m.net[i];
    forall u, r | u in m'.sent && Recipient(m'.sent[u], r) && !Marked(m'.sent[u]) ensures Balance(m', u, r) == 1 {
      CountConcat(m.net, [p], Chats, u, r);
      CountConcat(m.net, [p], Acks, u, r);
      CountConcat(m.copies, [p], Chats, u, r);
      CountConcat(m.copies, [p], Acks, u, r);
    }
  }

  // ---- Steps of one node's list ----

  // A change to one node that forgets nothing.
  ghost predicate KeepsNode(node: Node, node': Node) {
    && node'.local == node.local && node'.peers == node.peers
    && (forall x :: Holds(node, x) && x.status.Received? ==> Holds(node', x))
    && (forall y :: y in node.list.messages ==> exists y' :: y' in node'.list.messages && Erase(y') == Erase(y))
  }

  lemma ConfigKeeps(nodes: map<Str, Node>, n: Str, node': Node, parses: AddressParser)
    requires Config(nodes, parses) && n in nodes && node'.local == nodes[n].local && node'.peers == nodes[n].peers
    ensures Config(nodes[n := node'], parses)
  {
    hide IsReachable, FindPeer, DistinctUuids;
    assert nodes[n := node'].Keys == nodes.Keys;
  }

  lemma SentKeeps(nodes: map<Str, Node>, used: set<Str>, sent: map<Str, ChatMessage>, n: Str, node': Node)
    requires SentOk(nodes, used, sent) && n in nodes && KeepsNode(nodes[n], node')
    ensures SentOk(nodes[n := node'], used, sent)
  {
    hide Erase, Recipient, DistinctPeers, Holds;
    forall u | u in sent ensures GoodOriginal(nodes[n := node'], used, u, sent[u]) {
      var x := sent[u];
      assert GoodOriginal(nodes, used, u, x);
      var y :| y in nodes[x.sender.uuid].list.messages && Erase(y) == x;
      if x.sender.uuid == n {
        var y' :| y' in node'.list.messages && Erase(y') == Erase(y);
      }
    }
  }

  lemma NodeChangeKeeps(m: State, n: Str, node': Node, parses: AddressParser)
    requires Config(m.nodes, parses) && SentOk(m.nodes, m.used, m.sent)
    requires n in m.nodes && KeepsNode(m.nodes[n], node')
    ensures var nodes' := m.nodes[n := node'];
            Config(nodes', parses) && SentOk(nodes', m.used, m.sent) && Extends(m, m.(nodes := nodes'))
  {
    hide Config, SentOk, Erase, Holds;
    ConfigKeeps(m.nodes, n, node', parses);
    SentKeeps(m.nodes, m.used, m.sent, n, node');
  }

  // When the frames stay as they are.
  lemma QuietNodeChangeKeeps(m: State, n: Str, node': Node, parses: AddressParser)
    requires Inv(m, parses)
    requires n in m.nodes && KeepsNode(m.nodes[n], node') && NodeOk(node', m.sent, m.used, m.handled, n)
    ensures Inv(m.(nodes := m.nodes[n := node']), parses)
  {
    hide AllOk, NodeOk, SentOk, Config, KeepsNode, Extends, Count, Recipient;
    var m' := m.(nodes := m.nodes[n := node']);
    NodeChangeKeeps(m, n, node', parses);
    AllOkExtends(m, m', m.net);
    AllOkExtends(m, m', m.lost);
    AllOkExtends(m, m', m.copies);
    AllOkExtends(m, m', m.handled);
    forall u, r | u in m'.sent && Recipient(m'.sent[u], r) && !Marked(m'.sent[u]) ensures Balance(m', u, r) == 1 {
      assert Balance(m, u, r) == 1;
    }
  }

  lemma ResortNode(node: Node, s: SortStrategy, sent: map<Str, ChatMessage>, used: set<Str>, handled: seq<Packet>, n: Str)
    requires NodeOk(node, sent, used, handled, n)
    ensures var node' := node.(list := ChatModels.Step(node.list, Sort(s)));
            NodeOk(node', sent, used, handled, n) && KeepsNode(node, node')
  {
    hide GoodView, GoodReceivedEntry, Erase, Cmp;
    var ms, ms' := node.list.messages, StableSort(s, node.list.messages);
    StableSortCorrect(s, ms);
    forall x | x in ms ensures x in ms' { assert x in multiset(ms'); }
  }

  lemma ResortKeeps(m: State, n: Str, s: SortStrategy, parses: AddressParser)
    requires Inv(m, parses) && n in m.nodes
    ensures Inv(ResortAt(m, n, s), parses)
  {
    hide PacketsOk, Law, Config, SentOk, NodeOk, KeepsNode, StableSort;
    var node := m.nodes[n];
    ResortNode(node, s, m.sent, m.used, m.handled, n);
    QuietNodeChangeKeeps(m, n, node.(list := ChatModels.Step(node.list, Sort(s))), parses);
  }

  lemma NotifyNode(node: Node, x: ChatMessage, sent: map<Str, ChatMessage>, used: set<Str>, handled: seq<Packet>, n: Str)
    requires NodeOk(node, sent, used, handled, n) && x in node.pending
    ensures var node' := node.(list := ChatModels.Step(node.list, Add(x)), pending := node.pending - multiset{x});
            NodeOk(node', sent, used, handled, n) && KeepsNode(node, node')
  {
    hide GoodView, GoodReceivedEntry, Erase, Sorted, AddTo;
    var ms, ms' := node.list.messages, AddTo(node.list.strategy, node.list.messages, x);
    AddKeepsOrder(node.list.strategy, ms, x);
    GrowView(multiset(ms), x, sent, used, handled, n);
    forall y | y in ms || y == x ensures y in ms' { assert y in multiset(ms'); }
  }

  lemma NotifyKeeps(m: State, n: Str, x: ChatMessage, parses: AddressParser)
    requires Inv(m, parses) && n in m.nodes && x in m.nodes[n].pending
    ensures Inv(NotifyAt(m, n, x), parses)
  {
    hide PacketsOk, Law, Config, SentOk, NodeOk, KeepsNode, AddTo;
    var node := m.nodes[n];
    NotifyNode(node, x, m.sent, m.used, m.handled, n);
    var node' := node.(list := ChatModels.Step(node.list, Add(x)), pending := node.pending - multiset{x});
    QuietNodeChangeKeeps(m, n, node', parses);
  }

  // A received message may be added any number of times.
  lemma GrowView(view: multiset<ChatMessage>, x: ChatMessage, sent: map<Str, ChatMessage>, used: set<Str>, handled: seq<Packet>, n: Str)
    requires GoodView(view, sent, used, handled, n) && GoodReceivedEntry(sent, used, n, x)
    ensures GoodView(view + multiset{x}, sent, used, handled, n)
  {
    hide GoodSentEntry;
  }

  // ---- Delivering a chat frame ----

  // The received copy, and the ACK that goes back unless the text is marked.
  function CopyOf(x: ChatMessage, node: Node, now: Time): ChatMessage {
    ChatMessage(x.uuid, x.response, PeerOrDefault(node.peers, x.sender.uuid), x.text,
                MessageStatus.Received(FloorToMilli(x.status.tx), now))
  }

  function AckFor(x: ChatMessage, to: Str, w: Circumstances): seq<Packet> {
    if Marked(x) then [] else [Packet(x.sender.uuid, AckFrame(w.ackUuid, x.uuid, to, w.ackAt))]
  }

  function AfterChat(m: State, i: nat, w: Circumstances): State
    requires i < |m.net| && m.net[i].to in m.nodes && m.net[i].frame.ChatFrame?
  {
    var p := m.net[i];
    var node := m.nodes[p.to];
    var copy := CopyOf(p.frame.message, node, w.now);
    m.(net := Remove(m.net, i) + AckFor(p.frame.message, p.to, w),
       nodes := m.nodes[p.to := node.(pending := node.pending + multiset{copy})])
  }

  lemma SenderIsKnown(m: State, p: Packet, parses: AddressParser)
    requires Config(m.nodes, parses) && SentOk(m.nodes, m.used, m.sent)
    requires PacketOk(m.nodes, m.sent, p) && p.frame.ChatFrame?
    ensures var s := p.frame.message.sender.uuid;
            var found := FindPeer(m.nodes[p.to].peers, s);
            && s in m.nodes && s != p.to && found.Some? && found.value.uuid == s && IsReachable(found.value, parses)
            && m.nodes[p.to].local.uuid == p.to
  {
    hide Fits, IsReachable;
    var x := p.frame.message;
    assert GoodOriginal(m.nodes, m.used, x.uuid, m.sent[x.uuid]);
  }

  lemma ReceiveChatIs(m: State, i: nat, w: Circumstances, parses: AddressParser)
    requires Config(m.nodes, parses) && SentOk(m.nodes, m.used, m.sent)
    requires i < |m.net| && m.net[i].frame.ChatFrame? && PacketOk(m.nodes, m.sent, m.net[i])
    ensures Receive(m, m.net[i], Remove(m.net, i), w, parses) == AfterChat(m, i, w)
  {
    hide Fits, Codec.DeserializeMessage, Payload, FindPeer, IsReachable, Config, SentOk, AckTarget, PeerOrDefault;
    var p := m.net[i];
    var x, node := p.frame.message, m.nodes[p.to];
    SenderIsKnown(m, p, parses);
    assert PeerOrDefault(node.peers, x.sender.uuid).uuid == x.sender.uuid by {
      SenderIsFound(node.peers, x.sender.uuid);
    }
    ChatDecodes(x, node.peers, w.now);
    AckedUnlessMarked(node.peers, CopyOf(x, node, w.now), w.receivedOn, parses);
  }

  lemma SenderIsFound(peers: seq<Peer>, id: Str)
    requires FindPeer(peers, id).Some?
    ensures PeerOrDefault(peers, id).uuid == id
  {
  }

  lemma ReceiveNode(node: Node, copy: ChatMessage, sent: map<Str, ChatMessage>, used: set<Str>, handled: seq<Packet>, n: Str)
    requires NodeOk(node, sent, used, handled, n) && GoodReceivedEntry(sent, used, n, copy)
    ensures var node' := node.(pending := node.pending + multiset{copy});
            NodeOk(node', sent, used, handled, n) && KeepsNode(node, node') && Holds(node', copy)
  {
    hide GoodView, Sorted, Erase, GoodReceivedEntry;
  }

  lemma ChatCounts(m: State, i: nat, w: Circumstances, u: Str, r: Str)
    requires i < |m.net| && m.net[i].to in m.nodes && m.net[i].frame.ChatFrame?
    requires u == m.net[i].frame.message.uuid ==> !Marked(m.net[i].frame.message)
    ensures Balance(AfterChat(m, i, w), u, r) == Balance(m, u, r)
  {
    hide Marked;
    var p := m.net[i];
    var acks := AckFor(p.frame.message, p.to, w);
    CountRemove(m.net, i, Chats, u, r);
    CountRemove(m.net, i, Acks, u, r);
    CountConcat(Remove(m.net, i), acks, Chats, u, r);
    CountConcat(Remove(m.net, i), acks, Acks, u, r);
    if acks != [] {
      CountOne(acks[0], Chats, u, r);
      CountOne(acks[0], Acks, u, r);
    }
  }

  lemma AckForIsOk(m: State, p: Packet, w: Circumstances, nodes': map<Str, Node>)
    requires PacketOk(m.nodes, m.sent, p) && p.frame.ChatFrame? && nodes'.Keys == m.nodes.Keys
    requires p.frame.message.sender.uuid in m.nodes
    requires Fits(Codec.CreateAck(w.ackUuid, p.frame.message.uuid, p.to, false, w.ackAt))
    requires Recorded(nodes', p.to, p.frame.message)
    ensures AllOk(nodes', m.sent, AckFor(p.frame.message, p.to, w))
  {
    hide Fits, Marked, Recipient, Recorded;
  }

  lemma DeliverChatKeeps(m: State, i: nat, w: Circumstances, parses: AddressParser)
    requires Inv(m, parses) && i < |m.net| && m.net[i].frame.ChatFrame?
    requires m.net[i].to in m.nodes
    requires Fits(Codec.CreateAck(w.ackUuid, m.net[i].frame.message.uuid, m.net[i].to, false, w.ackAt))
    ensures Inv(AfterChat(m, i, w), parses)
  {
    hide Fits, PacketOk, NodeOk, Config, SentOk, Extends, Count, Recipient, CopyOf, Marked, KeepsNode, GoodOriginal,
      AckFor, Balance;
    var p := m.net[i];
    var m' := AfterChat(m, i, w);
    assert PacketOk(m.nodes, m.sent, p);
    DeliverChatNode(m, p, w, parses);
    var mid := m.(nodes := m'.nodes);
    AllOkExtends(m, mid, m.net);
    AllOkExtends(m, mid, m.lost);
    AllOkExtends(m, mid, m.copies);
    AllOkExtends(m, mid, m.handled);
    SenderIsKnown(m, p, parses);
    AckForIsOk(m, p, w, m'.nodes);
    forall u, r | u in m'.sent && Recipient(m'.sent[u], r) && !Marked(m'.sent[u]) ensures Balance(m', u, r) == 1 {
      OriginalOf(m, p);
      ChatCounts(m, i, w, u, r);
    }
  }

  lemma OriginalOf(m: State, p: Packet)
    requires PacketOk(m.nodes, m.sent, p) && p.frame.ChatFrame?
    ensures var x := p.frame.message; x.uuid in m.sent && m.sent[x.uuid] == x && Recipient(x, p.to)
  {
  }

  lemma DeliverChatNode(m: State, p: Packet, w: Circumstances, parses: AddressParser)
    requires Inv(m, parses) && PacketOk(m.nodes, m.sent, p) && p.frame.ChatFrame?
    ensures p.to in m.nodes
    ensures var node := m.nodes[p.to];
            var node' := node.(pending := node.pending + multiset{CopyOf(p.frame.message, node, w.now)});
            var nodes' := m.nodes[p.to := node'];
            && Config(nodes', parses) && SentOk(nodes', m.used, m.sent) && Extends(m, m.(nodes := nodes'))
            && NodesOk(nodes', m.sent, m.used, m.handled) && Recorded(nodes', p.to, p.frame.message)
  {
    hide Fits, NodeOk, Config, SentOk, Extends, Law, PacketsOk, Recipient, KeepsNode, AllOk;
    var x, node := p.frame.message, m.nodes[p.to];
    var copy := CopyOf(x, node, w.now);
    SenderIsKnown(m, p, parses);
    SenderIsFound(node.peers, x.sender.uuid);
    assert ReceivedCopy(copy, x);
    assert NodeOk(node, m.sent, m.used, m.handled, p.to);
    ReceiveNode(node, copy, m.sent, m.used, m.handled, p.to);
    NodeChangeKeeps(m, p.to, node.(pending := node.pending + multiset{copy}), parses);
  }

  // ---- Delivering an ACK ----

  function AfterAck(m: State, i: nat): State
    requires i < |m.net| && m.net[i].to in m.nodes && m.net[i].frame.AckFrame?
  {
    var p := m.net[i];
    var node := m.nodes[p.to];
    var op := Op.Ack(p.frame.messageUuid, p.frame.acker, FloorToMilli(p.frame.at));
    m.(net := Remove(m.net, i), handled := m.handled + [p],
       nodes := m.nodes[p.to := node.(list := ChatModels.Step(node.list, op))])
  }

  lemma ReceiveAckIs(m: State, i: nat, w: Circumstances, parses: AddressParser)
    requires i < |m.net| && m.net[i].to in m.nodes && m.net[i].frame.AckFrame? && Fits(ProtoOf(m.net[i].frame))
    ensures Receive(m, m.net[i], Remove(m.net, i), w, parses) == AfterAck(m, i)
  {
    hide Fits, Codec.DeserializeMessage, Payload, AckTarget, ChatModels.Step;
    AckDecodes(m.net[i].frame, m.nodes[m.net[i].to].peers, w.now);
  }

  // Handling one more ACK leaves the stamps of other messages right.
  lemma StampsElsewhere(handled: seq<Packet>, p: Packet, x: ChatMessage)
    requires x.status.Sent? && StampsOk(handled, x) && p.frame.AckFrame? && p.frame.messageUuid != x.uuid
    ensures StampsOk(handled + [p], x)
  {
    forall i | 0 <= i < |x.status.deliveries|
      ensures Count(handled + [p], Acks, x.uuid, x.status.deliveries[i].peerUuid)
           == Count(handled, Acks, x.uuid, x.status.deliveries[i].peerUuid)
    {
      CountConcat(handled, [p], Acks, x.uuid, x.status.deliveries[i].peerUuid);
      CountOne(p, Acks, x.uuid, x.status.deliveries[i].peerUuid);
    }
  }

  // And it makes the stamp of the message it is about right.
  lemma StampsMarked(handled: seq<Packet>, p: Packet, x: ChatMessage, at: Time)
    requires x.status.Sent? && StampsOk(handled, x) && DistinctPeers(x.status.deliveries)
    requires p.frame.AckFrame? && p.frame.messageUuid == x.uuid
    ensures var x' := MarkAck(x, p.frame.acker, at).0;
            x'.status.Sent? && x'.uuid == x.uuid && StampsOk(handled + [p], x')
  {
    var ds, acker := x.status.deliveries, p.frame.acker;
    StampFirstExact(ds, acker, at, FirstTo(ds, acker));
    forall i | 0 <= i < |ds|
      ensures Count(handled + [p], Acks, x.uuid, ds[i].peerUuid)
           == Count(handled, Acks, x.uuid, ds[i].peerUuid) + if ds[i].peerUuid == acker then 1 else 0
    {
      CountConcat(handled, [p], Acks, x.uuid, ds[i].peerUuid);
      CountOne(p, Acks, x.uuid, ds[i].peerUuid);
    }
  }

  lemma ElsewhereView(view: multiset<ChatMessage>, sent: map<Str, ChatMessage>, used: set<Str>, handled: seq<Packet>, n: Str, p: Packet)
    requires GoodView(view, sent, used, handled, n)
    requires p.frame.AckFrame? && p.frame.messageUuid in sent && sent[p.frame.messageUuid].sender.uuid != n
    ensures GoodView(view, sent, used, handled + [p], n)
  {
    hide StampsOk, Erase;
    forall x | x in view ensures GoodEntry(sent, used, handled + [p], n, x) {
      assert GoodEntry(sent, used, handled, n, x);
      if x.status.Sent? {
        StampsElsewhere(handled, p, x);
      }
    }
  }

  // The acknowledged message is found at the first position with its uuid.
  lemma FindOriginal(node: Node, sent: map<Str, ChatMessage>, used: set<Str>, handled: seq<Packet>, n: Str, u: Str) returns (k: nat)
    requires NodeOk(node, sent, used, handled, n) && u in sent && sent[u].sender.uuid == n && sent[u].uuid == u
    requires exists y :: y in node.list.messages && Erase(y) == sent[u]
    ensures k == FirstWith(node.list.messages, u) && k < |node.list.messages|
    ensures node.list.messages[k].uuid == u && node.list.messages[k].status.Sent?
  {
    hide StampsOk, Sorted;
    var ms := node.list.messages;
    var y :| y in ms && Erase(y) == sent[u];
    assert y.uuid == u;
    k := FirstWith(ms, u);
    var i :| 0 <= i < |ms| && ms[i] == y;
    assert ms[k] in multiset(ms);
    assert GoodEntry(sent, used, handled, n, ms[k]);
  }

  // Stamping one sent message of the view.
  lemma StampedView(view: multiset<ChatMessage>, sent: map<Str, ChatMessage>, used: set<Str>, handled: seq<Packet>, n: Str,
                    p: Packet, z: ChatMessage, at: Time)
    requires GoodView(view, sent, used, handled, n) && z in view && z.status.Sent? && DistinctPeers(z.status.deliveries)
    requires p.frame.AckFrame? && p.frame.messageUuid == z.uuid
    ensures GoodView(view - multiset{z} + multiset{MarkAck(z, p.frame.acker, at).0}, sent, used, handled + [p], n)
  {
    hide StampsOk, Erase, MarkAck;
    var z' := MarkAck(z, p.frame.acker, at).0;
    var view' := view - multiset{z} + multiset{z'};
    assert GoodEntry(sent, used, handled, n, z);
    StampsMarked(handled, p, z, at);
    MarkAckAdvances(z, p.frame.acker, at);
    forall x | x in view' ensures x == z' || (x in view && x != z) {
    }
    forall x | x in view' ensures GoodEntry(sent, used, handled + [p], n, x) {
      if x != z' {
        assert GoodEntry(sent, used, handled, n, x);
        if x.status.Sent? {
          StampsElsewhere(handled, p, x);
        }
      }
    }
  }

  lemma UpdateView(ms: seq<ChatMessage>, k: nat, z': ChatMessage)
    requires k < |ms|
    ensures multiset(ms[k := z']) == multiset(ms) - multiset{ms[k]} + multiset{z'}
  {
  }

  lemma AckNode(node: Node, sent: map<Str, ChatMessage>, used: set<Str>, handled: seq<Packet>, n: Str, p: Packet, at: Time)
    requires NodeOk(node, sent, used, handled, n)
    requires p.frame.AckFrame? && p.frame.messageUuid in sent
    requires var x := sent[p.frame.messageUuid];
             && x.sender.uuid == n && x.uuid == p.frame.messageUuid && x.status.Sent? && DistinctPeers(x.status.deliveries)
             && exists y :: y in node.list.messages && Erase(y) == x
    ensures var node' := node.(list := ChatModels.Step(node.list, Op.Ack(p.frame.messageUuid, p.frame.acker, at)));
            NodeOk(node', sent, used, handled + [p], n) && KeepsNode(node, node')
  {
    hide GoodView, MarkAck, Cmp, StampsOk, GoodReceivedEntry;
    var u, acker := p.frame.messageUuid, p.frame.acker;
    var ms := node.list.messages;
    var k := FindOriginal(node, sent, used, handled, n, u);
    var z := ms[k];
    AckInExact(ms, u, acker, at, k);
    StepKeepsSorted(node.list, Op.Ack(u, acker, at));
    SameRecipients(multiset(ms), sent, used, handled, n, z);
    StampedView(multiset(ms), sent, used, handled, n, p, z, at);
    UpdateView(ms, k, MarkAck(z, acker, at).0);
    AckKeepsNode(node, k, MarkAck(z, acker, at).0, u, acker, at);
  }

  lemma SameRecipients(view: multiset<ChatMessage>, sent: map<Str, ChatMessage>, used: set<Str>, handled: seq<Packet>, n: Str, z: ChatMessage)
    requires GoodView(view, sent, used, handled, n) && z in view && z.status.Sent? && z.uuid in sent
    requires sent[z.uuid].status.Sent? && DistinctPeers(sent[z.uuid].status.deliveries)
    ensures DistinctPeers(z.status.deliveries)
  {
    hide StampsOk;
    assert GoodEntry(sent, used, handled, n, z);
    var a, b := z.status.deliveries, sent[z.uuid].status.deliveries;
    assert EraseStamps(a) == b;
    forall i | 0 <= i < |a| ensures a[i].peerUuid == b[i].peerUuid {
      assert EraseStamps(a)[i] == b[i];
    }
  }

  lemma AckKeepsNode(node: Node, k: nat, z': ChatMessage, u: Str, acker: Str, at: Time)
    requires k < |node.list.messages| && node.list.messages[k].status.Sent?
    requires z' == MarkAck(node.list.messages[k], acker, at).0
    requires AckIn(node.list.messages, u, acker, at).0 == node.list.messages[k := z']
    ensures KeepsNode(node, node.(list := ChatModels.Step(node.list, Op.Ack(u, acker, at))))
  {
    hide MarkAck, Erase;
    var ms := node.list.messages;
    var ms' := ms[k := z'];
    MarkAckAdvances(ms[k], acker, at);
    forall y | y in ms ensures exists y' :: y' in ms' && Erase(y') == Erase(y) {
      var i :| 0 <= i < |ms| && ms[i] == y;
      assert ms'[i] in ms';
    }
    forall x | x in ms && x.status.Received? ensures x in ms' {
      var i :| 0 <= i < |ms| && ms[i] == x;
      assert ms'[i] == x;
    }
  }

  lemma AckCounts(m: State, i: nat, u: Str, r: Str)
    requires i < |m.net| && m.net[i].to in m.nodes && m.net[i].frame.AckFrame?
    ensures Balance(AfterAck(m, i), u, r) == Balance(m, u, r)
  {
    hide ChatModels.Step;
    var p := m.net[i];
    CountRemove(m.net, i, Chats, u, r);
    CountRemove(m.net, i, Acks, u, r);
    CountConcat(m.handled, [p], Acks, u, r);
    CountOne(p, Chats, u, r);
    CountOne(p, Acks, u, r);
  }

  lemma DeliverAckNodes(m: State, p: Packet, parses: AddressParser)
    requires Inv(m, parses) && PacketOk(m.nodes, m.sent, p) && p.frame.AckFrame?
    ensures p.to in m.nodes
    ensures var node := m.nodes[p.to];
            var op := Op.Ack(p.frame.messageUuid, p.frame.acker, FloorToMilli(p.frame.at));
            var nodes' := m.nodes[p.to := node.(list := ChatModels.Step(node.list, op))];
            && Config(nodes', parses) && SentOk(nodes', m.used, m.sent) && Extends(m, m.(nodes := nodes'))
            && NodesOk(nodes', m.sent, m.used, m.handled + [p])
  {
    hide Fits, Config, Extends, Law, PacketsOk, KeepsNode, AllOk, Recorded, Erase, ChatModels.Step, NodeOk;
    var node := m.nodes[p.to];
    var u := p.frame.messageUuid;
    var op := Op.Ack(u, p.frame.acker, FloorToMilli(p.frame.at));
    var node' := node.(list := ChatModels.Step(node.list, op));
    assert GoodOriginal(m.nodes, m.used, u, m.sent[u]);
    assert NodeOk(node, m.sent, m.used, m.handled, p.to);
    AckNode(node, m.sent, m.used, m.handled, p.to, p, FloorToMilli(p.frame.at));
    NodeChangeKeeps(m, p.to, node', parses);
    forall n | n in m.nodes && n != p.to ensures NodeOk(m.nodes[n], m.sent, m.used, m.handled + [p], n) {
      assert NodeOk(m.nodes[n], m.sent, m.used, m.handled, n);
      ElsewhereNode(m.nodes[n], m.sent, m.used, m.handled, n, p);
    }
  }

  lemma ElsewhereNode(node: Node, sent: map<Str, ChatMessage>, used: set<Str>, handled: seq<Packet>, n: Str, p: Packet)
    requires NodeOk(node, sent, used, handled, n)
    requires p.frame.AckFrame? && p.frame.messageUuid in sent && sent[p.frame.messageUuid].sender.uuid != n
    ensures NodeOk(node, sent, used, handled + [p], n)
  {
    hide GoodView, GoodReceivedEntry, Sorted;
    ElsewhereView(multiset(node.list.messages), sent, used, handled, n, p);
  }

  lemma DeliverAckKeeps(m: State, i: nat, parses: AddressParser)
    requires Inv(m, parses) && i < |m.net| && m.net[i].to in m.nodes && m.net[i].frame.AckFrame?
    ensures Inv(AfterAck(m, i), parses)
  {
    hide Fits, PacketOk, NodeOk, Config, SentOk, Extends, Count, Recipient, Marked, KeepsNode, GoodOriginal, Balance,
      ChatModels.Step;
    var p := m.net[i];
    var m' := AfterAck(m, i);
    assert PacketOk(m.nodes, m.sent, p);
    DeliverAckNodes(m, p, parses);
    var mid := m.(nodes := m'.nodes);
    AllOkExtends(m, mid, m.net);
    AllOkExtends(m, mid, m.lost);
    AllOkExtends(m, mid, m.copies);
    AllOkExtends(m, mid, m.handled);
    forall u, r | u in m'.sent && Recipient(m'.sent[u], r) && !Marked(m'.sent[u]) ensures Balance(m', u, r) == 1 {
      AckCounts(m, i, u, r);
    }
  }

  // ---- Sending ----

  lemma {:induction false} RecipientsAre(peers: seq<Peer>, localUuid: Str)
    requires DistinctUuids(peers)
    ensures var to := Recipients(peers, localUuid);
            DistinctUuids(to) && forall p :: p in to <==> p in peers && p.uuid != localUuid && p.endpoints != []
    decreases |peers|
  {
    if peers != [] {
      RecipientsAre(peers[1..], localUuid);
      assert peers == [peers[0]] + peers[1..];
      var rest := Recipients(peers[1..], localUuid);
      forall i | 0 <= i < |rest| ensures rest[i].uuid != peers[0].uuid {
        assert rest[i] in peers[1..];
      }
    }
  }

  lemma {:induction false} CountPacketsTo(to: seq<Peer>, x: ChatMessage, u: Str, r: Str)
    requires DistinctUuids(to)
    ensures Count(PacketsTo(to, x), Acks, u, r) == 0
    ensures Count(PacketsTo(to, x), Chats, u, r) == if u == x.uuid && exists p :: p in to && p.uuid == r then 1 else 0
    decreases |to|
  {
    if to != [] {
      assert PacketsTo(to, x)[1..] == PacketsTo(to[1..], x);
      CountPacketsTo(to[1..], x, u, r);
      assert to == [to[0]] + to[1..];
      if to[0].uuid == r {
        assert forall p :: p in to[1..] ==> p.uuid != r;
        assert to[0] in to;
      }
    }
  }

  // The message as it goes out: no stamps, one delivery for each reachable peer.
  lemma NewMessage(nodes: map<Str, Node>, n: Str, d: Draft, parses: AddressParser)
    requires Config(nodes, parses) && n in nodes
    requires |d.predicted| == |Recipients(nodes[n].peers, nodes[n].local.uuid)|
    ensures var x := SentMessage(nodes[n], d);
            var to := Recipients(nodes[n].peers, nodes[n].local.uuid);
            && x.status.Sent? && Erase(x) == x && x.sender.uuid == n && x.uuid == d.uuid
            && DistinctUuids(to) && DistinctPeers(x.status.deliveries)
            && (forall r :: Recipient(x, r) <==> exists p :: p in to && p.uuid == r)
            && (forall r :: Recipient(x, r) ==> r in nodes && r != n)
            && (forall i :: 0 <= i < |x.status.deliveries| ==> x.status.deliveries[i].ackedAt == None)
  {
    hide IsReachable, FindPeer;
    var to := Recipients(nodes[n].peers, nodes[n].local.uuid);
    var x := SentMessage(nodes[n], d);
    RecipientsAre(nodes[n].peers, nodes[n].local.uuid);
    assert EraseStamps(x.status.deliveries) == x.status.deliveries;
    forall r ensures Recipient(x, r) <==> exists p :: p in to && p.uuid == r {
      if p :| p in to && p.uuid == r {
        var i :| 0 <= i < |to| && to[i] == p;
        assert x.status.deliveries[i].peerUuid == r;
      }
      if Recipient(x, r) {
        var i :| 0 <= i < |x.status.deliveries| && x.status.deliveries[i].peerUuid == r;
        assert to[i] in to;
      }
    }
  }

  lemma FreshEntry(sent: map<Str, ChatMessage>, used: set<Str>, handled: seq<Packet>, n: Str, y: ChatMessage, x: ChatMessage)
    requires sent.Keys <= used && x.uuid !in used && GoodEntry(sent, used, handled, n, y)
    ensures GoodEntry(sent[x.uuid := x], used + {x.uuid}, handled, n, y) && y.uuid != x.uuid
  {
    hide StampsOk, Erase;
  }

  lemma FreshNode(node: Node, sent: map<Str, ChatMessage>, used: set<Str>, handled: seq<Packet>, n: Str, x: ChatMessage)
    requires sent.Keys <= used && x.uuid !in used && NodeOk(node, sent, used, handled, n)
    ensures NodeOk(node, sent[x.uuid := x], used + {x.uuid}, handled, n)
  {
    hide StampsOk, Erase, Sorted, GoodEntry, GoodReceivedEntry;
    forall y | y in multiset(node.list.messages) ensures GoodEntry(sent[x.uuid := x], used + {x.uuid}, handled, n, y) {
      FreshEntry(sent, used, handled, n, y, x);
    }
    forall y | y in node.pending ensures GoodReceivedEntry(sent[x.uuid := x], used + {x.uuid}, n, y) {
      FreshReceived(sent, used, n, y, x);
    }
  }

  lemma FreshReceived(sent: map<Str, ChatMessage>, used: set<Str>, n: Str, y: ChatMessage, x: ChatMessage)
    requires x.uuid !in used && GoodReceivedEntry(sent, used, n, y)
    ensures GoodReceivedEntry(sent[x.uuid := x], used + {x.uuid}, n, y)
  {
  }

  lemma NewStamps(m: State, x: ChatMessage)
    requires x.uuid !in m.sent && AllOk(m.nodes, m.sent, m.handled) && x.status.Sent?
    requires forall i :: 0 <= i < |x.status.deliveries| ==> x.status.deliveries[i].ackedAt == None
    ensures StampsOk(m.handled, x)
  {
    hide AllOk;
    forall i | 0 <= i < |x.status.deliveries| ensures Count(m.handled, Acks, x.uuid, x.status.deliveries[i].peerUuid) == 0 {
      CountOfFresh(m, m.handled, Acks, x.uuid, x.status.deliveries[i].peerUuid);
    }
  }

  lemma NewEntryView(view: multiset<ChatMessage>, sent: map<Str, ChatMessage>, used: set<Str>, handled: seq<Packet>, n: Str, x: ChatMessage)
    requires sent.Keys <= used && x.uuid !in used && GoodView(view, sent, used, handled, n)
    requires x.status.Sent? && Erase(x) == x && x.sender.uuid == n && StampsOk(handled, x)
    ensures GoodView(view + multiset{x}, sent[x.uuid := x], used + {x.uuid}, handled, n)
  {
    hide StampsOk, Erase, GoodEntry;
    var view' := view + multiset{x};
    forall y | y in view ensures GoodEntry(sent[x.uuid := x], used + {x.uuid}, handled, n, y) && y.uuid != x.uuid {
      FreshEntry(sent, used, handled, n, y, x);
    }
    NewEntry(sent, used, handled, n, x);
    forall y | y in view' ensures y == x || y in view {
    }
  }

  lemma NewEntry(sent: map<Str, ChatMessage>, used: set<Str>, handled: seq<Packet>, n: Str, x: ChatMessage)
    requires x.status.Sent? && Erase(x) == x && x.sender.uuid == n && StampsOk(handled, x)
    ensures GoodEntry(sent[x.uuid := x], used + {x.uuid}, handled, n, x)
  {
    hide StampsOk, Erase;
  }

  lemma SendNode(node: Node, sent: map<Str, ChatMessage>, used: set<Str>, handled: seq<Packet>, n: Str, x: ChatMessage)
    requires sent.Keys <= used && x.uuid !in used && NodeOk(node, sent, used, handled, n)
    requires x.status.Sent? && Erase(x) == x && x.sender.uuid == n && StampsOk(handled, x)
    ensures var node' := node.(list := ChatModels.Step(node.list, Add(x)));
            && NodeOk(node', sent[x.uuid := x], used + {x.uuid}, handled, n) && KeepsNode(node, node')
            && x in node'.list.messages
  {
    hide GoodView, GoodReceivedEntry, Erase, Sorted, AddTo, StampsOk;
    var ms, ms' := node.list.messages, AddTo(node.list.strategy, node.list.messages, x);
    AddKeepsOrder(node.list.strategy, ms, x);
    NewEntryView(multiset(ms), sent, used, handled, n, x);
    forall y | y in ms || y == x ensures y in ms' { assert y in multiset(ms'); }
    forall y | y in node.pending ensures GoodReceivedEntry(sent[x.uuid := x], used + {x.uuid}, n, y) {
      FreshReceived(sent, used, n, y, x);
    }
  }

  lemma SendOriginals(nodes: map<Str, Node>, used: set<Str>, sent: map<Str, ChatMessage>, x: ChatMessage)
    requires SentOk(nodes, used, sent) && x.status.Sent? && Erase(x) == x && x.sender.uuid in nodes
    requires DistinctPeers(x.status.deliveries)
    requires forall r :: Recipient(x, r) ==> r in nodes && r != x.sender.uuid
    requires x in nodes[x.sender.uuid].list.messages
    ensures SentOk(nodes, used + {x.uuid}, sent[x.uuid := x])
  {
    hide Erase, Recipient, DistinctPeers;
    forall u | u in sent && u != x.uuid ensures GoodOriginal(nodes, used + {x.uuid}, u, sent[u]) {
      assert GoodOriginal(nodes, used, u, sent[u]);
    }
  }

  lemma NewPacketsOk(nodes: map<Str, Node>, sent: map<Str, ChatMessage>, to: seq<Peer>, x: ChatMessage)
    requires x.uuid in sent && sent[x.uuid] == x && Fits(Codec.ConstructProto(x))
    requires forall p :: p in to ==> p.uuid in nodes && Recipient(x, p.uuid)
    ensures AllOk(nodes, sent, PacketsTo(to, x))
  {
    hide Fits, Recipient;
    forall q | q in PacketsTo(to, x) ensures PacketOk(nodes, sent, q) {
      var i :| 0 <= i < |to| && q == PacketsTo(to, x)[i];
      assert to[i] in to;
    }
  }

  lemma SendCounts(m: State, n: Str, d: Draft, u: Str, r: Str)
    requires PacketsOk(m) && n in m.nodes && d.uuid !in m.sent
    requires |d.predicted| == |Recipients(m.nodes[n].peers, m.nodes[n].local.uuid)|
    requires DistinctUuids(Recipients(m.nodes[n].peers, m.nodes[n].local.uuid))
    ensures var to := Recipients(m.nodes[n].peers, m.nodes[n].local.uuid);
            && (u != d.uuid ==> Balance(SendFrom(m, n, d), u, r) == Balance(m, u, r))
            && (u == d.uuid && (exists p :: p in to && p.uuid == r) ==> Balance(SendFrom(m, n, d), u, r) == 1)
  {
    hide PacketOk, ChatModels.Step, Recipients, DistinctUuids;
    var to := Recipients(m.nodes[n].peers, m.nodes[n].local.uuid);
    var x := SentMessage(m.nodes[n], d);
    CountPacketsTo(to, x, u, r);
    CountConcat(m.net, PacketsTo(to, x), Chats, u, r);
    CountConcat(m.net, PacketsTo(to, x), Acks, u, r);
    if u == d.uuid {
      CountOfFresh(m, m.net, Chats, u, r);
      CountOfFresh(m, m.net, Acks, u, r);
      CountOfFresh(m, m.lost, Chats, u, r);
      CountOfFresh(m, m.lost, Acks, u, r);
      CountOfFresh(m, m.copies, Chats, u, r);
      CountOfFresh(m, m.copies, Acks, u, r);
      CountOfFresh(m, m.handled, Acks, u, r);
    }
  }

  lemma SendNodes(m: State, n: Str, d: Draft, parses: AddressParser)
    requires Inv(m, parses) && n in m.nodes && d.uuid !in m.used
    requires |d.predicted| == |Recipients(m.nodes[n].peers, m.nodes[n].local.uuid)|
    ensures var m' := SendFrom(m, n, d);
            && Config(m'.nodes, parses) && SentOk(m'.nodes, m'.used, m'.sent) && Extends(m, m')
            && NodesOk(m'.nodes, m'.sent, m'.used, m'.handled)
  {
    hide NodeOk, Config, SentOk, Law, AllOk, Recipient, KeepsNode, SentMessage, Recipients, Erase, ChatModels.Step,
      DistinctUuids, DistinctPeers, StampsOk;
    var node := m.nodes[n];
    var x := SentMessage(node, d);
    var node' := node.(list := ChatModels.Step(node.list, Add(x)));
    NewMessage(m.nodes, n, d, parses);
    NewStamps(m, x);
    assert NodeOk(node, m.sent, m.used, m.handled, n);
    SendNode(node, m.sent, m.used, m.handled, n, x);
    NodeChangeKeeps(m, n, node', parses);
    SendOriginals(m.nodes[n := node'], m.used, m.sent, x);
    forall k | k in m.nodes && k != n ensures NodeOk(m.nodes[k], m.sent[x.uuid := x], m.used + {x.uuid}, m.handled, k) {
      FreshNode(m.nodes[k], m.sent, m.used, m.handled, k, x);
    }
  }

  lemma SendKeeps(m: State, n: Str, d: Draft, parses: AddressParser)
    requires Inv(m, parses) && n in m.nodes && d.uuid !in m.used
    requires |d.predicted| == |Recipients(m.nodes[n].peers, m.nodes[n].local.uuid)|
    requires Fits(Codec.ConstructProto(SentMessage(m.nodes[n], d)))
    ensures Inv(SendFrom(m, n, d), parses)
  {
    hide Fits, PacketOk, NodeOk, Config, SentOk, Extends, Count, Recipient, Marked, SentMessage, Recipients, Balance,
      Erase, ChatModels.Step, DistinctUuids, DistinctPeers;
    var m' := SendFrom(m, n, d);
    var to := Recipients(m.nodes[n].peers, m.nodes[n].local.uuid);
    var x := SentMessage(m.nodes[n], d);
    NewMessage(m.nodes, n, d, parses);
    SendNodes(m, n, d, parses);
    AllOkExtends(m, m', m.net);
    AllOkExtends(m, m', m.lost);
    AllOkExtends(m, m', m.copies);
    AllOkExtends(m, m', m.handled);
    assert m'.nodes.Keys == m.nodes.Keys;
    NewPacketsOk(m'.nodes, m'.sent, to, x);
    forall u, r | u in m'.sent && Recipient(m'.sent[u], r) && !Marked(m'.sent[u]) ensures Balance(m', u, r) == 1 {
      SendCounts(m, n, d, u, r);
    }
  }

  // ---- Every step ----

  lemma NextKeeps(m: State, step: Step, parses: AddressParser)
    requires Inv(m, parses) && Enabled(m, step)
    ensures Inv(Next(m, step, parses), parses)
  {
    hide Inv, Fits, ChatModels.Step, Recipients, SentMessage, AckTarget, Codec.DeserializeMessage, Payload;
    match step
    case Send(n, d) => SendKeeps(m, n, d, parses);
    case Deliver(i, w) => DeliverKeeps(m, i, w, parses);
    case Notify(n, x) => NotifyKeeps(m, n, x, parses);
    case Drop(i) => DropKeeps(m, i, parses);
    case Duplicate(i) => DuplicateKeeps(m, i, parses);
    case Resort(n, s) => ResortKeeps(m, n, s, parses);
  }

  lemma DeliverKeeps(m: State, i: nat, w: Circumstances, parses: AddressParser)
    requires Inv(m, parses) && Enabled(m, Deliver(i, w))
    ensures Inv(Receive(m, m.net[i], Remove(m.net, i), w, parses), parses)
  {
    hide Fits, Config, SentOk, NodesOk, Law, PacketOk, AckTarget, Codec.DeserializeMessage, Payload, AfterChat,
      AfterAck, Receive;
    assert PacketOk(m.nodes, m.sent, m.net[i]);
    if m.net[i].frame.ChatFrame? {
      ReceiveChatIs(m, i, w, parses);
      DeliverChatKeeps(m, i, w, parses);
    } else {
      ReceiveAckIs(m, i, w, parses);
      DeliverAckKeeps(m, i, parses);
    }
  }
}
