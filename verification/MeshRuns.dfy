/** What holds in every run of the mesh: nothing is lost track of, acknowledgements are honest, and
    traffic dies out. */
module MeshRuns {
  import opened Bytes
  import opened Messages
  import opened ChatModels
  import opened Schema
  import Codec
  import opened Controller
  import opened Mesh
  import opened MeshInvariant
  import opened MeshSteps

  // ---- Runs ----

  // Before anything is sent: any received messages may already be listed.
  ghost predicate StartsClean(node: Node, used: set<Str>) {
    && Sorted(node.list.strategy, node.list.messages) && node.pending == multiset{}
    && forall x :: x in node.list.messages ==> x.status.Received? && x.uuid in used
  }

  ghost predicate Init(m: State, parses: AddressParser) {
    && Config(m.nodes, parses)
    && m.net == [] && m.lost == [] && m.copies == [] && m.handled == [] && m.sent == map[]
    && forall n :: n in m.nodes ==> StartsClean(m.nodes[n], m.used)
  }

  ghost predicate RunsTo(m: State, steps: seq<Step>, m': State, parses: AddressParser)
    decreases |steps|
  {
    if steps == [] then m' == m
    else Enabled(m, steps[0]) && RunsTo(Next(m, steps[0], parses), steps[1..], m', parses)
  }

  ghost predicate Reachable(m: State, parses: AddressParser) {
    exists start, steps :: Init(start, parses) && RunsTo(start, steps, m, parses)
  }

  lemma InitIsGood(m: State, parses: AddressParser)
    requires Init(m, parses)
    ensures Inv(m, parses)
  {
    hide Config, Sorted;
    forall n | n in m.nodes ensures NodeOk(m.nodes[n], m.sent, m.used, m.handled, n) {
      assert StartsClean(m.nodes[n], m.used);
    }
  }

  lemma {:induction false} RunKeeps(m: State, steps: seq<Step>, m': State, parses: AddressParser)
    requires Inv(m, parses) && RunsTo(m, steps, m', parses)
    ensures Inv(m', parses)
    decreases |steps|
  {
    hide Inv, Enabled, Next;
    if steps != [] {
      NextKeeps(m, steps[0], parses);
      RunKeeps(Next(m, steps[0], parses), steps[1..], m', parses);
    }
  }

  // The invariant holds in every reachable state.
  lemma ReachableIsGood(m: State, parses: AddressParser)
    requires Reachable(m, parses)
    ensures Inv(m, parses)
  {
    hide Inv, Init;
    var start, steps :| Init(start, parses) && RunsTo(start, steps, m, parses);
    InitIsGood(start, parses);
    RunKeeps(start, steps, m, parses);
  }

  // ---- Nothing is lost track of ----

  predicate Listed(m: State, n: Str, x: ChatMessage) {
    n in m.nodes && x in m.nodes[n].list.messages && x.status.Sent?
  }

  function Frames(ps: seq<Packet>, u: Str, r: Str): nat {
    Count(ps, Chats, u, r) + Count(ps, Acks, u, r)
  }

  lemma ListedIsGood(m: State, n: Str, x: ChatMessage, parses: AddressParser)
    requires Inv(m, parses) && Listed(m, n, x)
    ensures GoodSentEntry(m.sent, m.handled, n, x)
  {
    hide Config, SentOk, PacketsOk, Law, StampsOk, Erase, GoodSentEntry, Sorted;
    assert NodeOk(m.nodes[n], m.sent, m.used, m.handled, n);
    assert x in multiset(m.nodes[n].list.messages);
    assert GoodEntry(m.sent, m.used, m.handled, n, x);
  }

  lemma DeliveryIsToRecipient(x: ChatMessage, original: ChatMessage, i: nat)
    requires x.status.Sent? && Erase(x) == original && i < |x.status.deliveries|
    ensures Recipient(original, x.status.deliveries[i].peerUuid) && Marked(original) == Marked(x)
  {
    assert original.status.deliveries[i].peerUuid == x.status.deliveries[i].peerUuid;
  }

  // Each delivery of an unmarked message accounts for one frame more than were duplicated: it is in
  // flight, was dropped, or came back as an ACK, and that is what the stamp records.
  lemma FramesAddUp(m: State, n: Str, x: ChatMessage, i: nat, parses: AddressParser)
    requires Reachable(m, parses) && Listed(m, n, x) && i < |x.status.deliveries| && !Marked(x)
    ensures var r := x.status.deliveries[i].peerUuid;
            && Frames(m.net, x.uuid, r) + Frames(m.lost, x.uuid, r) + Count(m.handled, Acks, x.uuid, r)
               == 1 + Frames(m.copies, x.uuid, r)
            && (IsAcked(x, i) <==> Count(m.handled, Acks, x.uuid, r) > 0)
  {
    hide Reachable, Count, Erase, Recipient, Marked, Config, SentOk, PacketsOk, NodesOk;
    var r := x.status.deliveries[i].peerUuid;
    ReachableIsGood(m, parses);
    ListedIsGood(m, n, x, parses);
    DeliveryIsToRecipient(x, m.sent[x.uuid], i);
    assert Balance(m, x.uuid, r) == 1;
  }

  // Without duplication every delivery is in exactly one place.
  lemma NothingLostTrackOf(m: State, n: Str, x: ChatMessage, i: nat, parses: AddressParser)
    requires Reachable(m, parses) && Listed(m, n, x) && i < |x.status.deliveries| && !Marked(x)
    requires m.copies == []
    ensures var r := x.status.deliveries[i].peerUuid;
            Count(m.net, Chats, x.uuid, r) + Count(m.net, Acks, x.uuid, r)
            + Count(m.lost, Chats, x.uuid, r) + Count(m.lost, Acks, x.uuid, r)
            + (if IsAcked(x, i) then 1 else 0) == 1
  {
    hide Reachable, Marked, IsAcked;
    FramesAddUp(m, n, x, i, parses);
  }

  // With duplication too, a quiet network that dropped nothing has every delivery acknowledged.
  lemma QuietMeshIsAcked(m: State, n: Str, x: ChatMessage, i: nat, parses: AddressParser)
    requires Reachable(m, parses) && Listed(m, n, x) && i < |x.status.deliveries| && !Marked(x)
    requires m.net == [] && m.lost == []
    ensures IsAcked(x, i)
  {
    hide Reachable, Marked, IsAcked;
    FramesAddUp(m, n, x, i, parses);
  }

  // What was sent stays listed at its sender, once, changed at most in its stamps.
  lemma SentStaysListed(m: State, u: Str, parses: AddressParser) returns (x: ChatMessage)
    requires Reachable(m, parses) && u in m.sent
    ensures Listed(m, m.sent[u].sender.uuid, x) && Erase(x) == m.sent[u] && x.uuid == u
    ensures multiset(m.nodes[m.sent[u].sender.uuid].list.messages)[x] == 1
    ensures forall y :: Listed(m, m.sent[u].sender.uuid, y) && y.uuid == u ==> y == x
  {
    hide Reachable, Recipient, Config, PacketsOk, Law, GoodEntry, Sorted;
    ReachableIsGood(m, parses);
    var n := m.sent[u].sender.uuid;
    assert GoodOriginal(m.nodes, m.used, u, m.sent[u]);
    x :| x in m.nodes[n].list.messages && Erase(x) == m.sent[u];
    assert NodeOk(m.nodes[n], m.sent, m.used, m.handled, n);
    assert x in multiset(m.nodes[n].list.messages);
    forall y | Listed(m, n, y) && y.uuid == u ensures y == x {
      assert y in multiset(m.nodes[n].list.messages);
    }
  }

  // Lists stay in order.
  lemma ListsStaySorted(m: State, n: Str, parses: AddressParser)
    requires Reachable(m, parses) && n in m.nodes
    ensures Sorted(m.nodes[n].list.strategy, m.nodes[n].list.messages)
  {
    hide Reachable, Config, SentOk, PacketsOk, Law, GoodView, Sorted;
    ReachableIsGood(m, parses);
    assert NodeOk(m.nodes[n], m.sent, m.used, m.handled, n);
  }

  // ---- Acknowledgements are honest ----

  // A stamped delivery means that peer has the message, and the message is one that is acknowledged.
  lemma AckedMeansRecorded(m: State, n: Str, x: ChatMessage, i: nat, parses: AddressParser)
    requires Reachable(m, parses) && Listed(m, n, x) && IsAcked(x, i)
    ensures Recorded(m.nodes, x.status.deliveries[i].peerUuid, Erase(x)) && !Marked(x)
  {
    hide Reachable, Erase, Recipient, Marked, Config, SentOk, NodesOk, Law, Recorded, Count, Fits;
    var r := x.status.deliveries[i].peerUuid;
    ReachableIsGood(m, parses);
    ListedIsGood(m, n, x, parses);
    DeliveryIsToRecipient(x, m.sent[x.uuid], i);
    CountPositive(m.handled, Acks, x.uuid, r);
    var p :| p in m.handled && Is(p, Acks, x.uuid, r);
    assert PacketOk(m.nodes, m.sent, p);
  }

  // An ACK in flight is for a message its addressee sent and lists, with a delivery to the acker, who
  // has the message.
  lemma AckInFlightMatches(m: State, p: Packet, parses: AddressParser) returns (x: ChatMessage, i: nat)
    requires Reachable(m, parses) && p in m.net && p.frame.AckFrame?
    ensures Listed(m, p.to, x) && x.uuid == p.frame.messageUuid && !Marked(x)
    ensures i < |x.status.deliveries| && x.status.deliveries[i].peerUuid == p.frame.acker
    ensures Recorded(m.nodes, p.frame.acker, Erase(x))
  {
    hide Reachable, Marked, Config, SentOk, NodesOk, Law, Recorded, Fits, Erase;
    ReachableIsGood(m, parses);
    assert PacketOk(m.nodes, m.sent, p);
    var u := p.frame.messageUuid;
    x := SentStaysListed(m, u, parses);
    i := StampedLike(x, m.sent[u], p.frame.acker);
  }

  lemma StampedLike(x: ChatMessage, original: ChatMessage, r: Str) returns (i: nat)
    requires x.status.Sent? && Erase(x) == original && Recipient(original, r)
    ensures i < |x.status.deliveries| && x.status.deliveries[i].peerUuid == r
    ensures x.uuid == original.uuid && Marked(x) == Marked(original)
  {
    i :| 0 <= i < |original.status.deliveries| && original.status.deliveries[i].peerUuid == r;
  }

  // ---- No ACK storm ----

  // A chat frame may still bring about one ACK.
  function Weight(ps: seq<Packet>): nat {
    if ps == [] then 0 else (if ps[0].frame.ChatFrame? then 2 else 1) + Weight(ps[1..])
  }

  lemma {:induction false} WeightConcat(a: seq<Packet>, b: seq<Packet>)
    ensures Weight(a + b) == Weight(a) + Weight(b)
    decreases |a|
  {
    if a == [] {
      assert a + b == b;
    } else {
      assert (a + b)[1..] == a[1..] + b;
      WeightConcat(a[1..], b);
    }
  }

  lemma WeightOfOne(p: Packet)
    ensures Weight([p]) == if p.frame.ChatFrame? then 2 else 1
  {
    assert [p][1..] == [];
  }

  lemma WeightRemove(ps: seq<Packet>, i: nat)
    requires i < |ps|
    ensures Weight(ps) == Weight(Remove(ps, i)) + Weight([ps[i]])
  {
    hide Weight;
    assert ps == ps[..i] + ([ps[i]] + ps[i + 1..]);
    WeightConcat(ps[..i], [ps[i]] + ps[i + 1..]);
    WeightConcat([ps[i]], ps[i + 1..]);
    WeightConcat(ps[..i], ps[i + 1..]);
  }

  lemma {:induction false} WeightOfChats(to: seq<Peer>, x: ChatMessage)
    ensures Weight(PacketsTo(to, x)) == 2 * |to|
    decreases |to|
  {
    if to != [] {
      assert PacketsTo(to, x)[1..] == PacketsTo(to[1..], x);
      WeightOfChats(to[1..], x);
    }
  }

  // Delivering a chat frame puts at most one frame on the network, an ACK; delivering an ACK none.
  lemma DeliveryCreates(m: State, i: nat, w: Circumstances, parses: AddressParser)
    requires Enabled(m, Deliver(i, w))
    ensures var m' := Next(m, Deliver(i, w), parses);
            && Remove(m.net, i) <= m'.net && |m'.net| <= |m.net|
            && (m.net[i].frame.AckFrame? ==> m'.net == Remove(m.net, i))
            && (forall p :: p in m'.net[|m.net| - 1..] ==> p.frame.AckFrame?)
  {
    hide Fits, Codec.DeserializeMessage, Payload, AckTarget, FindPeer, PeerOrDefault, ChatModels.Step;
    var p := m.net[i];
    if p.frame.ChatFrame? {
      ChatDecodes(p.frame.message, m.nodes[p.to].peers, w.now);
    } else {
      AckDecodes(p.frame, m.nodes[p.to].peers, w.now);
    }
  }

  lemma DeliveryLightens(m: State, i: nat, w: Circumstances, parses: AddressParser)
    requires Enabled(m, Deliver(i, w))
    ensures Weight(Next(m, Deliver(i, w), parses).net) < Weight(m.net)
  {
    hide Enabled, Next;
    Indexed(m, i, w, parses);
    DeliveryCreates(m, i, w, parses);
    var rest, net' := Remove(m.net, i), Next(m, Deliver(i, w), parses).net;
    WeightRemove(m.net, i);
    WeightOfOne(m.net[i]);
    assert net' == rest + net'[|rest|..];
    WeightConcat(rest, net'[|rest|..]);
    if |net'| > |rest| {
      var q := net'[|rest|];
      assert net'[|rest|..] == [q];
      assert q in net'[|rest|..];
      WeightOfOne(q);
    }
  }

  lemma Indexed(m: State, i: nat, w: Circumstances, parses: AddressParser)
    requires Enabled(m, Deliver(i, w))
    ensures i < |m.net|
  {
  }

  // What a step may add to the network's weight, and whether it consumes a frame.
  function Budget(s: Step): nat {
    match s
    case Send(_, d) => 2 * |d.predicted|
    case Duplicate(_) => 2
    case _ => 0
  }

  predicate Consumes(s: Step) {
    s.Deliver? || s.Drop?
  }

  function Consumed(steps: seq<Step>): nat {
    if steps == [] then 0 else (if Consumes(steps[0]) then 1 else 0) + Consumed(steps[1..])
  }

  function TotalBudget(steps: seq<Step>): nat {
    if steps == [] then 0 else Budget(steps[0]) + TotalBudget(steps[1..])
  }

  lemma StepWeight(m: State, s: Step, parses: AddressParser)
    requires Enabled(m, s)
    ensures Weight(Next(m, s, parses).net) + (if Consumes(s) then 1 else 0) <= Weight(m.net) + Budget(s)
  {
    hide Fits, ChatModels.Step, Recipients, SentMessage, Receive, Weight;
    match s
    case Send(n, d) =>
      var to := Recipients(m.nodes[n].peers, m.nodes[n].local.uuid);
      WeightConcat(m.net, PacketsTo(to, SentMessage(m.nodes[n], d)));
      WeightOfChats(to, SentMessage(m.nodes[n], d));
    case Deliver(i, w) => DeliveryLightens(m, i, w, parses);
    case Drop(i) =>
      WeightRemove(m.net, i);
      WeightOfOne(m.net[i]);
    case Duplicate(i) =>
      WeightConcat(m.net, [m.net[i]]);
      WeightOfOne(m.net[i]);
    case _ =>
  }

  // Over any run, in any mesh, the frames consumed are paid for by sends and duplications: each
  // message brings about at most two deliveries per recipient.
  lemma {:induction false} NoAckStorm(m: State, steps: seq<Step>, m': State, parses: AddressParser)
    requires RunsTo(m, steps, m', parses)
    ensures Weight(m'.net) + Consumed(steps) <= Weight(m.net) + TotalBudget(steps)
    decreases |steps|
  {
    hide Enabled, Next, Consumes, Budget, Weight;
    if steps != [] {
      StepWeight(m, steps[0], parses);
      NoAckStorm(Next(m, steps[0], parses), steps[1..], m', parses);
    }
  }
}
