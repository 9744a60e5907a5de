/** The application's handlers as they change one node's model: sending (manage_send in
    src/layout/rooms/message_prompt.rs) and the listeners with the controller behind them
    (src/utils/socket.rs). */
module Handlers {
  import opened Bytes
  import opened Messages
  import opened ChatModels
  import opened Schema
  import Codec
  import opened Controller
  import opened Mesh

  // ---- Sending ----

  // The arrival predicted for each recipient; the router itself is a parameter.
  function Predicted(to: seq<Peer>, predict: Peer -> Option<Time>): (r: seq<Option<Time>>)
    ensures |r| == |to| && forall i :: 0 <= i < |to| ==> r[i] == predict(to[i])
  {
    seq(|to|, i requires 0 <= i < |to| => predict(to[i]))
  }

  // The message with one delivery for each recipient.
  function Addressed(msg: ChatMessage, to: seq<Peer>, predict: Peer -> Option<Time>): ChatMessage {
    msg.(status := MessageStatus.Sent(msg.status.tx, Deliveries(to, Predicted(to, predict))))
  }

  const INIT_FAILED: Str := Ascii("Socket init failed for ")
  const SOCKET_ERROR: Str := Ascii("Socket error to ")

  // Whether a socket can be made for the peer's first endpoint: `GenericSocket::new`.
  predicate Opens(p: Peer, opens: Endpoint -> bool) {
    p.endpoints != [] && opens(p.endpoints[0])
  }

  // The peers a socket can be made for, or those it cannot be made for.
  function Sift(to: seq<Peer>, opens: Endpoint -> bool, want: bool): seq<Peer> {
    if to == [] then []
    else
      var last := to[|to| - 1];
      Sift(to[..|to| - 1], opens, want) + if Opens(last, opens) == want then [last] else []
  }

  function InitFailed(p: Peer): Event {
    ErrorEvent(INIT_FAILED + p.name + Ascii("."))
  }

  function InitFailures(to: seq<Peer>): (es: seq<Event>)
    ensures |es| == |to| && forall i :: 0 <= i < |to| ==> es[i] == InitFailed(to[i])
  {
    seq(|to|, i requires 0 <= i < |to| => InitFailed(to[i]))
  }

  // The message is listed once, whatever becomes of its copies; then one copy goes out to each recipient
  // a socket can be made for, and an error is raised for each other one.
  method ManageSend(model: ChatModel, msg: ChatMessage, predict: Peer -> Option<Time>, opens: Endpoint -> bool)
      returns (out: seq<Packet>, ghost errors: seq<Event>)
    requires model.Valid()
    modifies model`messages, model`events
    ensures model.Valid()
    ensures var to := Recipients(model.peers, model.localpeer.uuid);
            && model.List() == ChatModels.Step(old(model.List()), Add(Addressed(msg, to, predict)))
            && out == PacketsTo(Sift(to, opens, true), Addressed(msg, to, predict))
            && model.events == old(model.events) + [MESSAGE_SENT] + errors
            && errors == InitFailures(Sift(to, opens, false))
    // A copy for exactly the other peers with endpoints whose first endpoint gets a socket, an error for
    // exactly those whose first endpoint does not.
    ensures forall q :: q in out <==>
              exists p :: p in model.peers && p.uuid != model.localpeer.uuid && p.endpoints != [] && opens(p.endpoints[0])
                && q == Packet(p.uuid, ChatFrame(Addressed(msg, Recipients(model.peers, model.localpeer.uuid), predict)))
    ensures forall e :: e in errors <==>
              exists p :: p in model.peers && p.uuid != model.localpeer.uuid && p.endpoints != [] && !opens(p.endpoints[0])
                && e == ErrorEvent(INIT_FAILED + p.name + Ascii("."))
    ensures (forall e :: opens(e)) ==>
              && out == PacketsTo(Recipients(model.peers, model.localpeer.uuid),
                                  Addressed(msg, Recipients(model.peers, model.localpeer.uuid), predict))
              && errors == []
  {
    hide Recipients, ChatModels.Step, Sorted, Sift, InitFailed;
    var recipients := RecipientsIn(model.peers, model.localpeer.uuid);
    var deliveries: seq<Delivery> := [];
    for i := 0 to |recipients|
      invariant deliveries == Deliveries(recipients, Predicted(recipients, predict))[..i]
    {
      deliveries := deliveries + [Delivery.Delivery(recipients[i].uuid, recipients[i].name, predict(recipients[i]), None)];
    }
    assert deliveries == Deliveries(recipients, Predicted(recipients, predict));
    var message := msg.(status := MessageStatus.Sent(msg.status.tx, deliveries));
    assert message == Addressed(msg, recipients, predict);
    model.AddMessage(message, Outbound);
    EachHasEndpoints(model.peers, model.localpeer.uuid);
    out := SendToEach(model, recipients, message, opens);
    errors := InitFailures(Sift(recipients, opens, false));
    CopiesAndErrors(model.peers, model.localpeer.uuid, message, opens);
  }

  // Recipients and Sift, one peer at a time.
  lemma {:induction false} RecipientsExact(a: seq<Peer>, b: seq<Peer>, p: Peer, local: Str)
    ensures Recipients([p], local) == if p.uuid != local && p.endpoints != [] then [p] else []
    ensures Recipients(a + b, local) == Recipients(a, local) + Recipients(b, local)
    decreases |a|
  {
    assert [p][1..] == [];
    if a == [] {
      assert a + b == b;
    } else {
      assert (a + b)[1..] == a[1..] + b;
      RecipientsExact(a[1..], b, p, local);
    }
  }

  lemma {:induction false} RecipientsMembers(peers: seq<Peer>, local: Str)
    ensures forall p :: p in Recipients(peers, local) <==> p in peers && p.uuid != local && p.endpoints != []
    decreases |peers|
  {
    if peers != [] {
      RecipientsMembers(peers[1..], local);
      assert peers == [peers[0]] + peers[1..];
    }
  }

  lemma SiftMembers(to: seq<Peer>, opens: Endpoint -> bool)
    requires forall p :: p in to ==> p.endpoints != []
    ensures forall p :: p in Sift(to, opens, true) <==> p in to && p.endpoints != [] && opens(p.endpoints[0])
    ensures forall p :: p in Sift(to, opens, false) <==> p in to && p.endpoints != [] && !opens(p.endpoints[0])
    ensures (forall p :: p in to ==> opens(p.endpoints[0])) ==> Sift(to, opens, true) == to && Sift(to, opens, false) == []
  {
    hide Opens, Sift;
    forall p ensures p in Sift(to, opens, true) <==> p in to && Opens(p, opens) { SiftMember(to, opens, true, p); }
    forall p ensures p in Sift(to, opens, false) <==> p in to && !Opens(p, opens) { SiftMember(to, opens, false, p); }
    OpensExact(opens);
    if forall p :: p in to ==> opens(p.endpoints[0]) {
      SiftEverybody(to, opens);
    }
  }

  lemma OpensExact(opens: Endpoint -> bool)
    ensures forall p :: Opens(p, opens) <==> p.endpoints != [] && opens(p.endpoints[0])
  {
  }

  lemma {:induction false} SiftMember(to: seq<Peer>, opens: Endpoint -> bool, want: bool, p: Peer)
    ensures p in Sift(to, opens, want) <==> p in to && Opens(p, opens) == want
    decreases |to|
  {
    hide Opens;
    if to != [] {
      SiftMember(to[..|to| - 1], opens, want, p);
      assert to == to[..|to| - 1] + [to[|to| - 1]];
    }
  }

  lemma {:induction false} SiftEverybody(to: seq<Peer>, opens: Endpoint -> bool)
    requires forall p :: p in to ==> Opens(p, opens)
    ensures Sift(to, opens, true) == to && Sift(to, opens, false) == []
    decreases |to|
  {
    hide Opens;
    if to != [] {
      SiftEverybody(to[..|to| - 1], opens);
      assert to == to[..|to| - 1] + [to[|to| - 1]];
    }
  }

  lemma CopiesAndErrors(peers: seq<Peer>, local: Str, x: ChatMessage, opens: Endpoint -> bool)
    ensures var to := Recipients(peers, local);
            && (forall q :: q in PacketsTo(Sift(to, opens, true), x) <==>
                  exists p :: p in peers && p.uuid != local && p.endpoints != [] && opens(p.endpoints[0])
                              && q == Packet(p.uuid, ChatFrame(x)))
            && (forall e :: e in InitFailures(Sift(to, opens, false)) <==>
                  exists p :: p in peers && p.uuid != local && p.endpoints != [] && !opens(p.endpoints[0])
                              && e == ErrorEvent(INIT_FAILED + p.name + Ascii(".")))
            && ((forall e :: opens(e)) ==> PacketsTo(Sift(to, opens, true), x) == PacketsTo(to, x)
                                           && InitFailures(Sift(to, opens, false)) == [])
  {
    hide Recipients, Sift, Ascii, ValidUtf8;
    var to := Recipients(peers, local);
    EachHasEndpoints(peers, local);
    RecipientsMembers(peers, local);
    SiftMembers(to, opens);
    PacketMembers(Sift(to, opens, true), x);
    FailureMembers(Sift(to, opens, false));
  }

  lemma PacketMembers(to: seq<Peer>, x: ChatMessage)
    ensures forall q :: q in PacketsTo(to, x) <==> exists p :: p in to && q == Packet(p.uuid, ChatFrame(x))
  {
    forall p | p in to ensures Packet(p.uuid, ChatFrame(x)) in PacketsTo(to, x) {
      var i :| 0 <= i < |to| && to[i] == p;
      assert PacketsTo(to, x)[i] == Packet(p.uuid, ChatFrame(x));
    }
    forall q | q in PacketsTo(to, x) ensures exists p :: p in to && q == Packet(p.uuid, ChatFrame(x)) {
      var i :| 0 <= i < |to| && PacketsTo(to, x)[i] == q;
      assert to[i] in to;
    }
  }

  lemma FailureMembers(to: seq<Peer>)
    ensures forall e :: e in InitFailures(to) <==> exists p :: p in to && e == ErrorEvent(INIT_FAILED + p.name + Ascii("."))
  {
    hide Ascii, ValidUtf8;
    forall p | p in to ensures ErrorEvent(INIT_FAILED + p.name + Ascii(".")) in InitFailures(to) {
      var i :| 0 <= i < |to| && to[i] == p;
      assert InitFailures(to)[i] == InitFailed(p);
    }
    forall e | e in InitFailures(to) ensures exists p :: p in to && e == ErrorEvent(INIT_FAILED + p.name + Ascii(".")) {
      var i :| 0 <= i < |to| && InitFailures(to)[i] == e;
      assert to[i] in to;
    }
  }

  method RecipientsIn(peers: seq<Peer>, local: Str) returns (recipients: seq<Peer>)
    ensures recipients == Recipients(peers, local)
  {
    hide Recipients;
    recipients := [];
    assert peers[0..] == peers;
    for i := 0 to |peers|
      invariant Recipients(peers, local) == recipients + Recipients(peers[i..], local)
    {
      RecipientsFrom(peers, i, local);
      if peers[i].uuid != local && peers[i].endpoints != [] {
        recipients := recipients + [peers[i]];
      }
    }
    RecipientsFrom(peers, |peers|, local);
  }

  lemma RecipientsFrom(peers: seq<Peer>, i: nat, local: Str)
    requires i <= |peers|
    ensures Recipients(peers[i..], local)
         == if i == |peers| then []
            else (if peers[i].uuid != local && peers[i].endpoints != [] then [peers[i]] else [])
                 + Recipients(peers[i + 1..], local)
  {
    if i < |peers| {
      assert peers[i..][1..] == peers[i + 1..];
    }
  }

  lemma {:induction false} EachHasEndpoints(peers: seq<Peer>, local: Str)
    ensures forall p :: p in Recipients(peers, local) ==> p.endpoints != []
    decreases |peers|
  {
    if peers != [] {
      EachHasEndpoints(peers[1..], local);
    }
  }

  method SendToEach(model: ChatModel, to: seq<Peer>, message: ChatMessage, opens: Endpoint -> bool)
      returns (out: seq<Packet>)
    requires forall p :: p in to ==> p.endpoints != []
    modifies model`events
    ensures out == PacketsTo(Sift(to, opens, true), message)
    ensures model.events == old(model.events) + InitFailures(Sift(to, opens, false))
  {
    hide Sift, InitFailed;
    out := [];
    SiftNobody(opens);
    for i := 0 to |to|
      invariant out == PacketsTo(Sift(to[..i], opens, true), message)
      invariant model.events == old(model.events) + InitFailures(Sift(to[..i], opens, false))
    {
      SiftOneMore(to, i, opens);
      if opens(to[i].endpoints[0]) {
        out := out + [Packet(to[i].uuid, ChatFrame(message))];
      } else {
        model.NotifyObservers(InitFailed(to[i]));
      }
    }
    assert to[..|to|] == to;
  }

  lemma SiftNobody(opens: Endpoint -> bool)
    ensures Sift([], opens, true) == [] && Sift([], opens, false) == []
  {
  }

  lemma SiftOneMore(to: seq<Peer>, i: nat, opens: Endpoint -> bool)
    requires i < |to|
    ensures Sift(to[..i + 1], opens, true) == Sift(to[..i], opens, true) + if Opens(to[i], opens) then [to[i]] else []
    ensures Sift(to[..i + 1], opens, false) == Sift(to[..i], opens, false) + if Opens(to[i], opens) then [] else [to[i]]
  {
    assert to[..i + 1][..i] == to[..i];
  }

  // The spawned send of one copy that fails, some time later: the copy is lost and an error is raised.
  method OnSendError(model: ChatModel, receiver: Peer, reason: seq<byte>)
    modifies model`events
    ensures model.events == old(model.events) + [ErrorEvent(SOCKET_ERROR + receiver.name + Ascii(": ") + reason)]
  {
    model.NotifyObservers(ErrorEvent(SOCKET_ERROR + receiver.name + Ascii(": ") + reason));
  }

  lemma {:induction false} SiftedApart(to: seq<Peer>, opens: Endpoint -> bool, x: ChatMessage)
    ensures multiset(PacketsTo(to, x))
         == multiset(PacketsTo(Sift(to, opens, true), x)) + multiset(PacketsTo(Sift(to, opens, false), x))
    decreases |to|
  {
    hide Opens, Sift, PacketsTo;
    if to == [] {
      SiftNobody(opens);
      PacketsConcat([], [], x);
    } else {
      var n := |to| - 1;
      var front, last := to[..n], to[n];
      var yes, no := Sift(front, opens, true), Sift(front, opens, false);
      SiftedApart(front, opens, x);
      SiftOneMore(to, n, opens);
      assert to[..n + 1] == to == front + [last];
      PacketsConcat(front, [last], x);
      PacketsConcat(yes, [last], x);
      PacketsConcat(no, [last], x);
      assert yes + [] == yes && no + [] == no;
    }
  }

  lemma PacketsConcat(a: seq<Peer>, b: seq<Peer>, x: ChatMessage)
    ensures PacketsTo(a + b, x) == PacketsTo(a, x) + PacketsTo(b, x)
    ensures PacketsTo([], x) == []
  {
  }

  // For the node's own messages this is the mesh's Send step; the copies no socket can be made for are
  // frames of that step that are dropped.
  lemma ManageSendIsSend(m: State, n: Str, msg: ChatMessage, predict: Peer -> Option<Time>, opens: Endpoint -> bool)
    requires n in m.nodes && msg.sender == m.nodes[n].local
    ensures var node := m.nodes[n];
            var to := Recipients(node.peers, node.local.uuid);
            var d := Draft(msg.uuid, msg.response, msg.text, msg.status.tx, Predicted(to, predict));
            var x, m' := Addressed(msg, to, predict), SendFrom(m, n, d);
            && m'.nodes[n] == node.(list := ChatModels.Step(node.list, Add(x)))
            && multiset(m'.net) == multiset(m.net) + multiset(PacketsTo(Sift(to, opens, true), x))
                                   + multiset(PacketsTo(Sift(to, opens, false), x))
  {
    hide ChatModels.Step, Recipients, Sift;
    var to := Recipients(m.nodes[n].peers, m.nodes[n].local.uuid);
    assert SentMessage(m.nodes[n], Draft(msg.uuid, msg.response, msg.text, msg.status.tx, Predicted(to, predict)))
        == Addressed(msg, to, predict);
    SiftedApart(to, opens, Addressed(msg, to, predict));
  }

  // ---- Receiving ----

  function AckFrom(peers: seq<Peer>, local: Option<Peer>, x: ChatMessage, w: Circumstances, parses: AddressParser): seq<Packet> {
    match local case None => [] case Some(me) => Acknowledgement(peers, me.uuid, x, w, parses)
  }

  // What a payload does to the list, and the frames it sends back.
  function Handled(l: MessageList, peers: seq<Peer>, local: Option<Peer>, payload: seq<byte>, w: Circumstances, parses: AddressParser)
    : (MessageList, seq<Packet>)
  {
    match Codec.DeserializeMessage(payload, peers, w.now)
    case None => (l, [])
    case Some(Chat(x)) => (ChatModels.Step(l, Add(x)), AckFrom(peers, local, x, w, parses))
    case Some(Ack(u, _, at, acker)) => (ChatModels.Step(l, Op.Ack(u, acker, at)), [])
  }

  class DefaultSocketController {
    var observer: ChatModel // the one observer the application registers
    var localPeer: Option<Peer>
    var peers: seq<Peer>

    constructor (observer: ChatModel, local: Peer, peers: seq<Peer>)
      ensures this.observer == observer && localPeer == Some(local) && this.peers == peers
    {
      this.observer := observer;
      this.localPeer := Some(local);
      this.peers := peers;
    }

    method SendAckIfNeeded(message: ChatMessage, w: Circumstances, parses: AddressParser) returns (out: seq<Packet>)
      ensures out == AckFrom(peers, localPeer, message, w, parses)
      // Nothing goes out exactly when the text is marked, there is no local peer, the sender is not listed,
      // no endpoint can be chosen, or no socket can be made for it; else one ACK for the message, to its sender.
      ensures out == [] <==>
                || [91, 65, 67, 75, 93] <= message.text
                || localPeer.None?
                || (forall p :: p in peers ==> p.uuid != message.sender.uuid)
                || var ep := ChooseAckEndpoint(FindPeer(peers, message.sender.uuid).value, w.receivedOn, parses);
                   ep.None? || !IsUsable(ep.value, parses)
      ensures out != [] ==>
                out == [Packet(message.sender.uuid, AckFrame(w.ackUuid, message.uuid, localPeer.value.uuid, w.ackAt))]
    {
      hide ChooseAckEndpoint, IsUsable, Ascii, ValidUtf8;
      AckTargetExact(peers, message, w.receivedOn, parses);
      out := [];
      if StartsWith(message.text, ACK_MARK) || localPeer.None? {
        return;
      }
      var sender := FindPeer(peers, message.sender.uuid);
      if sender.None? {
        return;
      }
      var target := ChooseAckEndpoint(sender.value, w.receivedOn, parses);
      if target.None? || !IsUsable(target.value, parses) {
        return;
      }
      out := [Packet(sender.value.uuid, AckFrame(w.ackUuid, message.uuid, localPeer.value.uuid, w.ackAt))];
    }

    // One datagram or one TCP connection's bytes. The ACK is on its way before the model hears.
    method HandlePayload(payload: seq<byte>, w: Circumstances, parses: AddressParser) returns (out: seq<Packet>)
      requires observer.Valid()
      modifies observer`messages, observer`events
      ensures observer.Valid()
      ensures (observer.List(), out) == Handled(old(observer.List()), peers, localPeer, payload, w, parses)
      ensures observer.events == old(observer.events) + match Codec.DeserializeMessage(payload, peers, w.now)
                case None => []
                case Some(Chat(x)) => [ReceivedFrom(x)]
                case Some(Ack(u, _, at, acker)) =>
                  if AckIn(old(observer.messages), u, acker, at).1 then [STATUS_UPDATED] else []
    {
      hide ChatModels.Step, Sorted, AckIn, Ascii, ValidUtf8, Acknowledgement, ChooseAckEndpoint, IsUsable;
      out := [];
      var proto := Codec.DecodeProtoTolerant(payload);
      if proto.None? {
        return;
      }
      match Codec.ExtractMessage(proto.value, peers, w.now)
      case None =>
      case Some(Chat(x)) =>
        out := SendAckIfNeeded(x, w, parses);
        observer.OnSocketEvent(x);
      case Some(Ack(u, _, at, acker)) =>
        observer.OnAckReceived(u, acker, at);
    }
  }

  // A chat message from a sender nobody listed is shown as from the default peer, and is acknowledged to
  // nobody, unless somebody listed goes by the default peer's uuid.
  lemma UnlistedSender(msg: ChatMessage, peers: seq<Peer>, w: Circumstances, parses: AddressParser, x: ChatMessage)
    requires Fits(Codec.ConstructProto(msg)) && forall p :: p in peers ==> p.uuid != msg.sender.uuid
    requires Codec.DeserializeMessage(Codec.SerializeMessage(msg), peers, w.now) == Some(Codec.Chat(x))
    ensures x.sender.uuid == [117, 110, 107, 110, 111, 119, 110] && x.sender.name == [85, 110, 107, 110, 111, 119, 110]
    ensures x.sender.endpoints == [] && x.sender.color == 0
    ensures (forall p :: p in peers ==> p.uuid != [117, 110, 107, 110, 111, 119, 110]) ==>
              AckTarget(peers, x, w.receivedOn, parses) == None
  {
    hide Codec.DeserializeMessage, Codec.SerializeMessage, Fits, ValidUtf8, ChooseAckEndpoint, IsUsable, AckTarget;
    Codec.ChatRoundTrip(msg, peers, w.now);
    UnlistedIsDefault(peers, msg.sender.uuid);
    AckTargetExact(peers, x, w.receivedOn, parses);
  }

  // The handler is the mesh's Deliver step, followed for a chat message by the Notify step.
  lemma HandlingIsDeliverAndNotify(m: State, p: Packet, rest: seq<Packet>, w: Circumstances, parses: AddressParser)
    requires p.to in m.nodes && Fits(ProtoOf(p.frame))
    ensures var node := m.nodes[p.to];
            var (list, out) := Handled(node.list, node.peers, Some(node.local), Payload(p.frame), w, parses);
            var m1 := Receive(m, p, rest, w, parses);
            match Codec.DeserializeMessage(Payload(p.frame), node.peers, w.now)
            case Some(Chat(x)) =>
              && p.to in m1.nodes && x in m1.nodes[p.to].pending
              && var m2 := NotifyAt(m1, p.to, x);
                 m2.net == rest + out && m2.nodes == m.nodes[p.to := node.(list := list)]
            case _ => m1.net == rest + out && m1.nodes == m.nodes[p.to := node.(list := list)]
  {
    hide ChatModels.Step, Codec.DeserializeMessage, Payload, Fits, Acknowledgement;
    var node := m.nodes[p.to];
    match Codec.DeserializeMessage(Payload(p.frame), node.peers, w.now)
    case Some(Chat(x)) => assert node.pending + multiset{x} - multiset{x} == node.pending;
    case _ =>
  }
}
