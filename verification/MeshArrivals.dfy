/** The recipients' side of the mesh: every copy of a message, marked or not, is in flight, dropped, or
    with its recipient, and what a recipient has is what was sent to it. */
module MeshArrivals {
  import opened Bytes
  import opened Messages
  import opened ChatModels
  import opened Schema
  import Codec
  import opened Controller
  import opened Mesh
  import opened MeshInvariant
  import opened MeshSteps
  import opened MeshRuns

  // ---- Counting received messages ----

  predicate IsCopy(x: ChatMessage, u: Str) {
    x.status.Received? && x.uuid == u
  }

  ghost function CopiesIn(view: multiset<ChatMessage>, u: Str): nat
    decreases |view|
  {
    if view == multiset{} then 0
    else
      var x :| x in view;
      CopiesIn(view - multiset{x}, u) + if IsCopy(x, u) then 1 else 0
  }

  // Whichever message is counted first.
  lemma {:induction false} CopiesWithout(view: multiset<ChatMessage>, x: ChatMessage, u: Str)
    requires x in view
    ensures CopiesIn(view, u) == CopiesIn(view - multiset{x}, u) + if IsCopy(x, u) then 1 else 0
    decreases |view|
  {
    hide IsCopy;
    var y :| y in view && CopiesIn(view, u) == CopiesIn(view - multiset{y}, u) + if IsCopy(y, u) then 1 else 0;
    if y != x {
      CopiesWithout(view - multiset{y}, x, u);
      CopiesWithout(view - multiset{x}, y, u);
      assert view - multiset{y} - multiset{x} == view - multiset{x} - multiset{y};
    }
  }

  lemma CopiesWith(view: multiset<ChatMessage>, x: ChatMessage, u: Str)
    ensures CopiesIn(view + multiset{x}, u) == CopiesIn(view, u) + if IsCopy(x, u) then 1 else 0
  {
    hide IsCopy, CopiesIn;
    CopiesWithout(view + multiset{x}, x, u);
    assert view + multiset{x} - multiset{x} == view;
  }

  lemma {:induction false} NoCopies(view: multiset<ChatMessage>, u: Str)
    requires forall x :: x in view ==> !IsCopy(x, u)
    ensures CopiesIn(view, u) == 0
    decreases |view|
  {
    hide IsCopy;
    if view != multiset{} {
      var x :| x in view;
      CopiesWithout(view, x, u);
      NoCopies(view - multiset{x}, u);
    }
  }

  lemma SomeCopy(view: multiset<ChatMessage>, u: Str) returns (x: ChatMessage)
    requires CopiesIn(view, u) > 0
    ensures x in view && IsCopy(x, u)
  {
    if forall x :: x in view ==> !IsCopy(x, u) {
      NoCopies(view, u);
    }
    x :| x in view && IsCopy(x, u);
  }

  // Everything a node has: listed, or held for its observers.
  function View(node: Node): multiset<ChatMessage> {
    multiset(node.list.messages) + node.pending
  }

  // ---- The invariant ----

  // Chat frames about u for r ever put on the network and not delivered, less the duplicates.
  function Outstanding(m: State, u: Str, r: Str): int {
    Count(m.net, Chats, u, r) + Count(m.lost, Chats, u, r) - Count(m.copies, Chats, u, r)
  }

  ghost predicate EachArrives(m: State) {
    forall u, r :: u in m.sent && Recipient(m.sent[u], r) ==>
      r in m.nodes && Outstanding(m, u, r) + CopiesIn(View(m.nodes[r]), u) == 1
  }

  // What a node received under a sent message's uuid is that message, and was sent to it.
  ghost predicate FaithfulEntry(sent: map<Str, ChatMessage>, n: Str, x: ChatMessage) {
    x.status.Received? && x.uuid in sent ==> ReceivedCopy(x, sent[x.uuid]) && Recipient(sent[x.uuid], n)
  }

  ghost predicate FaithfulView(sent: map<Str, ChatMessage>, n: Str, view: multiset<ChatMessage>) {
    forall x :: x in view ==> FaithfulEntry(sent, n, x)
  }

  ghost predicate EachIsFaithful(m: State) {
    forall n :: n in m.nodes ==> FaithfulView(m.sent, n, View(m.nodes[n]))
  }

  // ---- Steps that bring nobody anything ----

  // The same received messages.
  ghost predicate SameReceived(view: multiset<ChatMessage>, view': multiset<ChatMessage>) {
    && (forall u :: CopiesIn(view', u) == CopiesIn(view, u))
    && (forall x :: x in view' && x.status.Received? ==> x in view)
  }

  lemma QuietKeeps(m: State, m': State)
    requires EachArrives(m) && EachIsFaithful(m)
    requires m'.sent == m.sent && m'.nodes.Keys == m.nodes.Keys
    requires forall n :: n in m.nodes ==> SameReceived(View(m.nodes[n]), View(m'.nodes[n]))
    requires forall u, r :: Outstanding(m', u, r) == Outstanding(m, u, r)
    ensures EachArrives(m') && EachIsFaithful(m')
  {
    hide Outstanding, Recipient, View, CopiesIn, ReceivedCopy;
    forall u, r | u in m'.sent && Recipient(m'.sent[u], r)
      ensures r in m'.nodes && Outstanding(m', u, r) + CopiesIn(View(m'.nodes[r]), u) == 1
    {
      assert SameReceived(View(m.nodes[r]), View(m'.nodes[r]));
    }
    forall n | n in m'.nodes ensures FaithfulView(m'.sent, n, View(m'.nodes[n])) {
      assert SameReceived(View(m.nodes[n]), View(m'.nodes[n])) && FaithfulView(m.sent, n, View(m.nodes[n]));
    }
  }

  lemma DropKeepsArrivals(m: State, i: nat)
    requires EachArrives(m) && EachIsFaithful(m) && i < |m.net|
    ensures EachArrives(DropOne(m, i)) && EachIsFaithful(DropOne(m, i))
  {
    hide EachArrives, EachIsFaithful, View, CopiesIn;
    forall u, r ensures Outstanding(DropOne(m, i), u, r) == Outstanding(m, u, r) {
      CountRemove(m.net, i, Chats, u, r);
      CountConcat(m.lost, [m.net[i]], Chats, u, r);
      CountOne(m.net[i], Chats, u, r);
    }
    QuietKeeps(m, DropOne(m, i));
  }

  lemma DuplicateKeepsArrivals(m: State, i: nat)
    requires EachArrives(m) && EachIsFaithful(m) && i < |m.net|
    ensures EachArrives(DuplicateOne(m, i)) && EachIsFaithful(DuplicateOne(m, i))
  {
    hide EachArrives, EachIsFaithful, View, CopiesIn;
    forall u, r ensures Outstanding(DuplicateOne(m, i), u, r) == Outstanding(m, u, r) {
      CountConcat(m.net, [m.net[i]], Chats, u, r);
      CountConcat(m.copies, [m.net[i]], Chats, u, r);
    }
    QuietKeeps(m, DuplicateOne(m, i));
  }

  lemma NodeKeepsArrivals(m: State, n: Str, node': Node)
    requires EachArrives(m) && EachIsFaithful(m) && n in m.nodes && SameReceived(View(m.nodes[n]), View(node'))
    ensures var m' := m.(nodes := m.nodes[n := node']); EachArrives(m') && EachIsFaithful(m')
  {
    hide EachArrives, EachIsFaithful, View, CopiesIn, Count;
    var m' := m.(nodes := m.nodes[n := node']);
    assert m'.nodes.Keys == m.nodes.Keys;
    QuietKeeps(m, m');
  }

  lemma ResortKeepsArrivals(m: State, n: Str, s: SortStrategy)
    requires EachArrives(m) && EachIsFaithful(m) && n in m.nodes
    ensures EachArrives(ResortAt(m, n, s)) && EachIsFaithful(ResortAt(m, n, s))
  {
    hide EachArrives, EachIsFaithful, CopiesIn, StableSort;
    var node := m.nodes[n];
    StableSortCorrect(s, node.list.messages);
    NodeKeepsArrivals(m, n, node.(list := ChatModels.Step(node.list, Sort(s))));
  }

  lemma NotifyKeepsArrivals(m: State, n: Str, x: ChatMessage)
    requires EachArrives(m) && EachIsFaithful(m) && n in m.nodes && x in m.nodes[n].pending
    requires Sorted(m.nodes[n].list.strategy, m.nodes[n].list.messages)
    ensures EachArrives(NotifyAt(m, n, x)) && EachIsFaithful(NotifyAt(m, n, x))
  {
    hide EachArrives, EachIsFaithful, CopiesIn, AddTo, Sorted;
    var node := m.nodes[n];
    AddKeepsOrder(node.list.strategy, node.list.messages, x);
    var node' := node.(list := ChatModels.Step(node.list, Add(x)), pending := node.pending - multiset{x});
    assert View(node') == View(node);
    NodeKeepsArrivals(m, n, node');
  }

  // ---- Delivering an ACK ----

  lemma StampedReceived(node: Node, u: Str, acker: Str, at: Time)
    ensures SameReceived(View(node), View(node.(list := ChatModels.Step(node.list, Op.Ack(u, acker, at)))))
  {
    hide SameReceived, AckIn, MarkAck;
    var ms := node.list.messages;
    var k := FirstWith(ms, u);
    AckInExact(ms, u, acker, at, k);
    if k < |ms| {
      var z, z' := ms[k], MarkAck(ms[k], acker, at).0;
      UpdateView(ms, k, z');
      Regrouped(multiset(ms), node.pending, z, z');
      var rest := multiset(ms) - multiset{z} + node.pending;
      MarkedReceived(z, acker, at);
      ReplacedReceived(rest, z, z');
    } else {
      SameIsSame(View(node));
    }
  }

  lemma Regrouped(listed: multiset<ChatMessage>, pending: multiset<ChatMessage>, z: ChatMessage, z': ChatMessage)
    requires z in listed
    ensures var rest := listed - multiset{z} + pending;
            listed + pending == rest + multiset{z} && listed - multiset{z} + multiset{z'} + pending == rest + multiset{z'}
  {
  }

  lemma ReplacedReceived(rest: multiset<ChatMessage>, z: ChatMessage, z': ChatMessage)
    requires (z.status.Received? <==> z'.status.Received?) && (z.status.Received? ==> z' == z)
    requires forall w :: IsCopy(z, w) == IsCopy(z', w)
    ensures SameReceived(rest + multiset{z}, rest + multiset{z'})
  {
    hide CopiesIn, IsCopy;
    forall w ensures CopiesIn(rest + multiset{z'}, w) == CopiesIn(rest + multiset{z}, w) {
      CopiesWith(rest, z, w);
      CopiesWith(rest, z', w);
    }
  }

  lemma MarkedReceived(z: ChatMessage, acker: Str, at: Time)
    ensures var z' := MarkAck(z, acker, at).0;
            (z.status.Received? <==> z'.status.Received?) && (z.status.Received? ==> z' == z) && forall w :: IsCopy(z, w) == IsCopy(z', w)
  {
  }

  lemma AckKeepsArrivals(m: State, i: nat)
    requires EachArrives(m) && EachIsFaithful(m)
    requires i < |m.net| && m.net[i].to in m.nodes && m.net[i].frame.AckFrame?
    ensures EachArrives(AfterAck(m, i)) && EachIsFaithful(AfterAck(m, i))
  {
    hide EachArrives, EachIsFaithful, CopiesIn, ChatModels.Step, View, SameReceived;
    var p, m' := m.net[i], AfterAck(m, i);
    var node := m.nodes[p.to];
    StampedReceived(node, p.frame.messageUuid, p.frame.acker, FloorToMilli(p.frame.at));
    forall n | n in m.nodes ensures SameReceived(View(m.nodes[n]), View(m'.nodes[n])) {
      SameIsSame(View(m.nodes[n]));
    }
    assert m'.nodes.Keys == m.nodes.Keys;
    forall u, r ensures Outstanding(m', u, r) == Outstanding(m, u, r) {
      CountRemove(m.net, i, Chats, u, r);
    }
    QuietKeeps(m, m');
  }

  lemma SameIsSame(view: multiset<ChatMessage>)
    ensures SameReceived(view, view)
  {
  }

  // ---- Delivering a chat frame ----

  lemma ChatOutstanding(m: State, i: nat, w: Circumstances, u: Str, r: Str)
    requires i < |m.net| && m.net[i].to in m.nodes && m.net[i].frame.ChatFrame?
    ensures Outstanding(AfterChat(m, i, w), u, r)
         == Outstanding(m, u, r) - if Is(m.net[i], Chats, u, r) then 1 else 0
  {
    hide Marked, CopyOf;
    var p := m.net[i];
    var acks := AckFor(p.frame.message, p.to, w);
    CountRemove(m.net, i, Chats, u, r);
    CountConcat(Remove(m.net, i), acks, Chats, u, r);
    if acks != [] {
      CountOne(acks[0], Chats, u, r);
    }
  }

  lemma CopyIsFaithful(m: State, p: Packet, w: Circumstances, parses: AddressParser)
    requires Config(m.nodes, parses) && SentOk(m.nodes, m.used, m.sent)
    requires PacketOk(m.nodes, m.sent, p) && p.frame.ChatFrame?
    ensures var x := p.frame.message;
            var copy := CopyOf(x, m.nodes[p.to], w.now);
            && FaithfulEntry(m.sent, p.to, copy) && copy.status.Received? && copy.uuid == x.uuid
  {
    hide Fits, Config, SentOk, Recipient;
    SenderIsKnown(m, p, parses);
    SenderIsFound(m.nodes[p.to].peers, p.frame.message.sender.uuid);
  }

  lemma ChatArrives(m: State, i: nat, w: Circumstances)
    requires EachArrives(m) && i < |m.net| && PacketOk(m.nodes, m.sent, m.net[i]) && m.net[i].frame.ChatFrame?
    requires m.net[i].to in m.nodes
    ensures EachArrives(AfterChat(m, i, w))
  {
    hide PacketOk, CopiesIn, Outstanding, Recipient, AckFor, View, PeerOrDefault;
    var p := m.net[i];
    OriginalOf(m, p);
    var node, m' := m.nodes[p.to], AfterChat(m, i, w);
    var copy := CopyOf(p.frame.message, node, w.now);
    ViewWithPending(node, copy);
    forall u, r | u in m'.sent && Recipient(m'.sent[u], r)
      ensures r in m'.nodes && Outstanding(m', u, r) + CopiesIn(View(m'.nodes[r]), u) == 1
    {
      ChatOutstanding(m, i, w, u, r);
      CopiesWith(View(node), copy, u);
    }
  }

  lemma ViewWithPending(node: Node, copy: ChatMessage)
    ensures View(node.(pending := node.pending + multiset{copy})) == View(node) + multiset{copy}
  {
  }

  lemma ChatIsFaithful(m: State, i: nat, w: Circumstances, parses: AddressParser)
    requires EachIsFaithful(m) && Config(m.nodes, parses) && SentOk(m.nodes, m.used, m.sent)
    requires i < |m.net| && PacketOk(m.nodes, m.sent, m.net[i]) && m.net[i].frame.ChatFrame?
    requires m.net[i].to in m.nodes
    ensures EachIsFaithful(AfterChat(m, i, w))
  {
    hide Config, SentOk, PacketOk, FaithfulEntry, CopyOf, AckFor, View;
    var p := m.net[i];
    CopyIsFaithful(m, p, w, parses);
    var node, m' := m.nodes[p.to], AfterChat(m, i, w);
    ViewWithPending(node, CopyOf(p.frame.message, node, w.now));
    assert FaithfulView(m.sent, p.to, View(node));
    forall n | n in m'.nodes ensures FaithfulView(m'.sent, n, View(m'.nodes[n])) {
      assert n != p.to ==> FaithfulView(m.sent, n, View(m.nodes[n]));
    }
  }

  lemma ChatKeepsArrivals(m: State, i: nat, w: Circumstances, parses: AddressParser)
    requires EachArrives(m) && EachIsFaithful(m) && Config(m.nodes, parses) && SentOk(m.nodes, m.used, m.sent)
    requires i < |m.net| && PacketOk(m.nodes, m.sent, m.net[i]) && m.net[i].frame.ChatFrame?
    ensures EachArrives(AfterChat(m, i, w)) && EachIsFaithful(AfterChat(m, i, w))
  {
    hide EachArrives, EachIsFaithful, Config, SentOk, PacketOk, AfterChat;
    PacketIsToNode(m, m.net[i]);
    ChatArrives(m, i, w);
    ChatIsFaithful(m, i, w, parses);
  }

  lemma PacketIsToNode(m: State, p: Packet)
    requires PacketOk(m.nodes, m.sent, p)
    ensures p.to in m.nodes
  {
  }

  // ---- Sending ----

  lemma UsedEntries(node: Node, sent: map<Str, ChatMessage>, used: set<Str>, handled: seq<Packet>, n: Str, u: Str)
    requires NodeOk(node, sent, used, handled, n) && u !in used
    ensures forall x :: x in View(node) ==> !IsCopy(x, u)
  {
    hide Sorted, GoodSentEntry;
  }

  lemma SendKeepsArrivals(m: State, n: Str, d: Draft, parses: AddressParser)
    requires Inv(m, parses) && EachArrives(m) && EachIsFaithful(m) && n in m.nodes && d.uuid !in m.used
    requires |d.predicted| == |Recipients(m.nodes[n].peers, m.nodes[n].local.uuid)|
    ensures EachArrives(SendFrom(m, n, d)) && EachIsFaithful(SendFrom(m, n, d))
  {
    hide Fits, PacketOk, NodeOk, Config, SentOk, Count, Recipient, SentMessage, Recipients, Erase, ChatModels.Step,
      DistinctUuids, DistinctPeers, CopiesIn, View, EachArrives, EachIsFaithful, Law;
    var m' := SendFrom(m, n, d);
    var x := SentMessage(m.nodes[n], d);
    NewMessage(m.nodes, n, d, parses);
    assert NodeOk(m.nodes[n], m.sent, m.used, m.handled, n);
    SenderView(m.nodes[n], x, m.sent, m.used, m.handled, n);
    assert m'.nodes.Keys == m.nodes.Keys;
    forall k | k in m.nodes ensures SameReceived(View(m.nodes[k]), View(m'.nodes[k])) {
      SameIsSame(View(m.nodes[k]));
    }
    SendArrives(m, n, d, parses);
    SendIsFaithful(m, n, d, parses);
  }

  lemma SenderView(node: Node, x: ChatMessage, sent: map<Str, ChatMessage>, used: set<Str>, handled: seq<Packet>, n: Str)
    requires NodeOk(node, sent, used, handled, n) && x.status.Sent?
    ensures SameReceived(View(node), View(node.(list := ChatModels.Step(node.list, Add(x)))))
  {
    hide GoodView, GoodReceivedEntry, Sorted, AddTo, CopiesIn;
    AddKeepsOrder(node.list.strategy, node.list.messages, x);
    var node' := node.(list := ChatModels.Step(node.list, Add(x)));
    assert View(node') == View(node) + multiset{x};
    forall u ensures CopiesIn(View(node'), u) == CopiesIn(View(node), u) {
      CopiesWith(View(node), x, u);
    }
  }

  lemma SendOutstanding(m: State, n: Str, d: Draft, u: Str, r: Str)
    requires PacketsOk(m) && n in m.nodes && d.uuid !in m.sent
    requires |d.predicted| == |Recipients(m.nodes[n].peers, m.nodes[n].local.uuid)|
    requires DistinctUuids(Recipients(m.nodes[n].peers, m.nodes[n].local.uuid))
    ensures var to := Recipients(m.nodes[n].peers, m.nodes[n].local.uuid);
            && (u != d.uuid ==> Outstanding(SendFrom(m, n, d), u, r) == Outstanding(m, u, r))
            && (u == d.uuid && (exists p :: p in to && p.uuid == r) ==> Outstanding(SendFrom(m, n, d), u, r) == 1)
  {
    hide PacketOk, ChatModels.Step, Recipients, DistinctUuids;
    var to := Recipients(m.nodes[n].peers, m.nodes[n].local.uuid);
    var x := SentMessage(m.nodes[n], d);
    CountPacketsTo(to, x, u, r);
    CountConcat(m.net, PacketsTo(to, x), Chats, u, r);
    if u == d.uuid {
      CountOfFresh(m, m.net, Chats, u, r);
      CountOfFresh(m, m.lost, Chats, u, r);
      CountOfFresh(m, m.copies, Chats, u, r);
    }
  }

  lemma SendArrives(m: State, n: Str, d: Draft, parses: AddressParser)
    requires Inv(m, parses) && EachArrives(m) && n in m.nodes && d.uuid !in m.used
    requires |d.predicted| == |Recipients(m.nodes[n].peers, m.nodes[n].local.uuid)|
    requires forall k :: k in m.nodes ==> SameReceived(View(m.nodes[k]), View(SendFrom(m, n, d).nodes[k]))
    ensures EachArrives(SendFrom(m, n, d))
  {
    hide Fits, PacketOk, NodeOk, Config, SentOk, Count, Recipient, SentMessage, Recipients, Erase, ChatModels.Step,
      DistinctUuids, DistinctPeers, CopiesIn, View, Outstanding, AllOk, Law;
    var m' := SendFrom(m, n, d);
    NewMessage(m.nodes, n, d, parses);
    forall u, r | u in m'.sent && Recipient(m'.sent[u], r)
      ensures r in m'.nodes && Outstanding(m', u, r) + CopiesIn(View(m'.nodes[r]), u) == 1
    {
      SendOutstanding(m, n, d, u, r);
      assert r in m.nodes && SameReceived(View(m.nodes[r]), View(m'.nodes[r]));
      if u == d.uuid {
        assert NodeOk(m.nodes[r], m.sent, m.used, m.handled, r);
        UsedEntries(m.nodes[r], m.sent, m.used, m.handled, r, u);
        NoCopies(View(m.nodes[r]), u);
      }
    }
  }

  lemma SendIsFaithful(m: State, n: Str, d: Draft, parses: AddressParser)
    requires Inv(m, parses) && EachIsFaithful(m) && n in m.nodes && d.uuid !in m.used
    requires |d.predicted| == |Recipients(m.nodes[n].peers, m.nodes[n].local.uuid)|
    requires forall k :: k in m.nodes ==> SameReceived(View(m.nodes[k]), View(SendFrom(m, n, d).nodes[k]))
    ensures EachIsFaithful(SendFrom(m, n, d))
  {
    hide Fits, PacketOk, NodeOk, Config, SentOk, Count, Recipient, Recipients, ChatModels.Step,
      CopiesIn, View, AllOk, Law, ReceivedCopy;
    var m' := SendFrom(m, n, d);
    forall k | k in m'.nodes ensures FaithfulView(m'.sent, k, View(m'.nodes[k])) {
      assert NodeOk(m.nodes[k], m.sent, m.used, m.handled, k);
      UsedEntries(m.nodes[k], m.sent, m.used, m.handled, k, d.uuid);
      assert FaithfulView(m.sent, k, View(m.nodes[k])) && SameReceived(View(m.nodes[k]), View(m'.nodes[k]));
    }
  }

  // ---- Every run ----

  lemma NextKeepsArrivals(m: State, step: Step, parses: AddressParser)
    requires Inv(m, parses) && Enabled(m, step) && EachArrives(m) && EachIsFaithful(m)
    ensures EachArrives(Next(m, step, parses)) && EachIsFaithful(Next(m, step, parses))
  {
    hide Fits, ChatModels.Step, Recipients, SentMessage, AckTarget, Codec.DeserializeMessage, Payload, EachArrives,
      EachIsFaithful, Config, SentOk, NodeOk, PacketOk, Law, AfterChat, AfterAck, Receive, Sorted;
    match step
    case Send(n, d) => SendKeepsArrivals(m, n, d, parses);
    case Deliver(i, w) =>
      assert PacketOk(m.nodes, m.sent, m.net[i]);
      if m.net[i].frame.ChatFrame? {
        ReceiveChatIs(m, i, w, parses);
        ChatKeepsArrivals(m, i, w, parses);
      } else {
        ReceiveAckIs(m, i, w, parses);
        AckKeepsArrivals(m, i);
      }
    case Notify(n, x) =>
      NodeIsSorted(m, n, parses);
      NotifyKeepsArrivals(m, n, x);
    case Drop(i) => DropKeepsArrivals(m, i);
    case Duplicate(i) => DuplicateKeepsArrivals(m, i);
    case Resort(n, s) => ResortKeepsArrivals(m, n, s);
  }

  lemma NodeIsSorted(m: State, n: Str, parses: AddressParser)
    requires Inv(m, parses) && n in m.nodes
    ensures Sorted(m.nodes[n].list.strategy, m.nodes[n].list.messages)
  {
    hide Config, SentOk, PacketsOk, Law, GoodView, Sorted;
    assert NodeOk(m.nodes[n], m.sent, m.used, m.handled, n);
  }

  lemma {:induction false} RunKeepsArrivals(m: State, steps: seq<Step>, m': State, parses: AddressParser)
    requires Inv(m, parses) && EachArrives(m) && EachIsFaithful(m) && RunsTo(m, steps, m', parses)
    ensures EachArrives(m') && EachIsFaithful(m')
    decreases |steps|
  {
    hide Inv, Enabled, Next, EachArrives, EachIsFaithful;
    if steps != [] {
      NextKeeps(m, steps[0], parses);
      NextKeepsArrivals(m, steps[0], parses);
      RunKeepsArrivals(Next(m, steps[0], parses), steps[1..], m', parses);
    }
  }

  lemma ReachableArrives(m: State, parses: AddressParser)
    requires Reachable(m, parses)
    ensures EachArrives(m) && EachIsFaithful(m)
  {
    hide Inv, EachArrives, EachIsFaithful, Init, RunsTo;
    var start, steps :| Init(start, parses) && RunsTo(start, steps, m, parses);
    InitIsGood(start, parses);
    InitArrives(start, parses);
    RunKeepsArrivals(start, steps, m, parses);
  }

  lemma InitArrives(m: State, parses: AddressParser)
    requires Init(m, parses)
    ensures EachArrives(m) && EachIsFaithful(m)
  {
    hide Config, StartsClean;
  }

  // ---- What follows ----

  // For every sent message, marked or not, and every recipient: chat frames in flight, those dropped, and
  // the copies the recipient has make one more than the chat frames duplicated.
  lemma CopiesAddUp(m: State, u: Str, r: Str, parses: AddressParser)
    requires Reachable(m, parses) && u in m.sent && Recipient(m.sent[u], r)
    ensures r in m.nodes
    ensures Count(m.net, Chats, u, r) + Count(m.lost, Chats, u, r) + CopiesIn(View(m.nodes[r]), u)
         == 1 + Count(m.copies, Chats, u, r)
  {
    hide Reachable, Recipient, CopiesIn, View, Count, EachIsFaithful;
    ReachableArrives(m, parses);
    assert Outstanding(m, u, r) + CopiesIn(View(m.nodes[r]), u) == 1;
  }

  // So without duplication nobody has a message twice, and when such a mesh is quiet and dropped nothing,
  // every recipient has it exactly once.
  lemma HadAtMostOnce(m: State, u: Str, r: Str, parses: AddressParser)
    requires Reachable(m, parses) && u in m.sent && Recipient(m.sent[u], r) && m.copies == []
    ensures r in m.nodes && CopiesIn(View(m.nodes[r]), u) <= 1
    ensures m.net == [] && m.lost == [] ==> CopiesIn(View(m.nodes[r]), u) == 1
  {
    hide Reachable, Recipient, CopiesIn, View;
    CopiesAddUp(m, u, r, parses);
  }

  // What anybody has received under the uuid of a sent message is that message, unchanged, and was
  // addressed to them.
  lemma ReceivedAsSent(m: State, n: Str, x: ChatMessage, parses: AddressParser)
    requires Reachable(m, parses) && n in m.nodes && Holds(m.nodes[n], x) && x.status.Received? && x.uuid in m.sent
    ensures ReceivedCopy(x, m.sent[x.uuid]) && Recipient(m.sent[x.uuid], n)
  {
    hide Reachable, Recipient, ReceivedCopy, EachArrives;
    ReachableArrives(m, parses);
    assert FaithfulView(m.sent, n, View(m.nodes[n]));
    assert x in View(m.nodes[n]);
  }

  // Once a quiet mesh has told its observers everything, each recipient lists each message, as sent.
  lemma QuietMeshLists(m: State, u: Str, r: Str, parses: AddressParser) returns (x: ChatMessage)
    requires Reachable(m, parses) && u in m.sent && Recipient(m.sent[u], r)
    requires m.net == [] && m.lost == [] && r in m.nodes && m.nodes[r].pending == multiset{}
    ensures x in m.nodes[r].list.messages && ReceivedCopy(x, m.sent[u])
  {
    hide Reachable, Recipient, CopiesIn, ReceivedCopy;
    CopiesAddUp(m, u, r, parses);
    x := SomeCopy(View(m.nodes[r]), u);
    assert x in multiset(m.nodes[r].list.messages);
    ReceivedAsSent(m, r, x, parses);
  }
}
