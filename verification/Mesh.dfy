/** The full mesh as a transition system: nodes with their message lists, and a network that may
    deliver, duplicate and drop. Frames are what src/utils/proto.rs and src/utils/ack.rs put on the
    wire; a delivery decodes the bytes and does what the listeners of src/utils/socket.rs do. */
module Mesh {
  import opened Bytes
  import opened Messages
  import opened ChatModels
  import opened Schema
  import Codec
  import opened Controller

  // A node: its own entry, its peer list, its model's message list, and the received messages its
  // handler has acknowledged but not yet told the model about.
  datatype Node = Node(local: Peer, peers: seq<Peer>, list: MessageList, pending: multiset<ChatMessage>)

  datatype Frame =
    | ChatFrame(message: ChatMessage)
    | AckFrame(ackUuid: Str, messageUuid: Str, acker: Str, at: Time)

  datatype Packet = Packet(to: Str, frame: Frame)

  // The network, and a ledger of what happened to frames: dropped, duplicated, ACKs handled. `sent`
  // holds every message as it was sent; `used` every message uuid ever drawn.
  datatype State = State(
    nodes: map<Str, Node>, net: seq<Packet>,
    lost: seq<Packet>, copies: seq<Packet>, handled: seq<Packet>,
    sent: map<Str, ChatMessage>, used: set<Str>)

  function ProtoOf(f: Frame): ProtoMessage {
    match f
    case ChatFrame(m) => Codec.ConstructProto(m)
    case AckFrame(id, u, acker, at) => Codec.CreateAck(id, u, acker, false, at)
  }

  function Payload(f: Frame): seq<byte>
    requires Fits(ProtoOf(f))
  {
    Codec.ToWire(ProtoOf(f))
  }

  // ---- Sending ----

  function Recipients(peers: seq<Peer>, localUuid: Str): seq<Peer> {
    if peers == [] then []
    else (if peers[0].uuid != localUuid && peers[0].endpoints != [] then [peers[0]] else [])
         + Recipients(peers[1..], localUuid)
  }

  function Deliveries(to: seq<Peer>, predicted: seq<Option<Time>>): (ds: seq<Delivery>)
    requires |predicted| == |to|
    ensures |ds| == |to|
    ensures forall i :: 0 <= i < |to| ==> ds[i] == Delivery.Delivery(to[i].uuid, to[i].name, predicted[i], None)
  {
    seq(|to|, i requires 0 <= i < |to| => Delivery.Delivery(to[i].uuid, to[i].name, predicted[i], None))
  }

  function PacketsTo(to: seq<Peer>, m: ChatMessage): (ps: seq<Packet>)
    ensures |ps| == |to| && forall i :: 0 <= i < |to| ==> ps[i] == Packet(to[i].uuid, ChatFrame(m))
  {
    seq(|to|, i requires 0 <= i < |to| => Packet(to[i].uuid, ChatFrame(m)))
  }

  // What the user typed, with the uuid and time drawn for it and the predicted arrivals.
  datatype Draft = Draft(uuid: Str, response: Option<Str>, text: Str, tx: Time, predicted: seq<Option<Time>>)

  function SentMessage(node: Node, d: Draft): ChatMessage
    requires |d.predicted| == |Recipients(node.peers, node.local.uuid)|
  {
    ChatMessage(d.uuid, d.response, node.local, d.text,
                MessageStatus.Sent(d.tx, Deliveries(Recipients(node.peers, node.local.uuid), d.predicted)))
  }

  // ---- Steps ----

  // What the environment contributes to a delivery: the transport the frame came in on, the uuid and
  // time an ACK would get, and the receive time.
  datatype Circumstances = Circumstances(receivedOn: Option<Endpoint>, ackUuid: Str, ackAt: Time, now: Time)

  datatype Step =
    | Send(from: Str, draft: Draft)
    | Deliver(index: nat, with: Circumstances)
    | Notify(at: Str, message: ChatMessage)
    | Drop(index: nat)
    | Duplicate(index: nat)
    | Resort(at: Str, strategy: SortStrategy)

  function Remove<T>(s: seq<T>, i: nat): seq<T>
    requires i < |s|
  {
    s[..i] + s[i + 1..]
  }

  ghost predicate Enabled(m: State, step: Step) {
    match step
    case Send(from, d) =>
      && from in m.nodes && d.uuid !in m.used
      && |d.predicted| == |Recipients(m.nodes[from].peers, m.nodes[from].local.uuid)|
      && Fits(Codec.ConstructProto(SentMessage(m.nodes[from], d)))
    case Deliver(i, w) =>
      && i < |m.net| && m.net[i].to in m.nodes && Fits(ProtoOf(m.net[i].frame))
      && (m.net[i].frame.ChatFrame? ==>
            Fits(Codec.CreateAck(w.ackUuid, m.net[i].frame.message.uuid, m.net[i].to, false, w.ackAt)))
    case Notify(n, x) => n in m.nodes && x in m.nodes[n].pending
    case Drop(i) => i < |m.net|
    case Duplicate(i) => i < |m.net|
    case Resort(n, _) => n in m.nodes
  }

  // The ACK that answers a received message, if any.
  function Acknowledgement(peers: seq<Peer>, localUuid: Str, x: ChatMessage, w: Circumstances, parses: AddressParser): seq<Packet> {
    match AckTarget(peers, x, w.receivedOn, parses)
    case None => []
    case Some(peer) => [Packet(peer.uuid, AckFrame(w.ackUuid, x.uuid, localUuid, w.ackAt))]
  }

  // The listener: a decoded chat message is acknowledged, then held for the observers; a decoded ACK
  // goes to the model; anything else is dropped.
  function Receive(m: State, p: Packet, rest: seq<Packet>, w: Circumstances, parses: AddressParser): State
    requires p.to in m.nodes && Fits(ProtoOf(p.frame))
  {
    var node := m.nodes[p.to];
    match Codec.DeserializeMessage(Payload(p.frame), node.peers, w.now)
    case None => m.(net := rest)
    case Some(Chat(x)) =>
      m.(net := rest + Acknowledgement(node.peers, node.local.uuid, x, w, parses),
         nodes := m.nodes[p.to := node.(pending := node.pending + multiset{x})])
    case Some(Ack(u, _, at, acker)) =>
      m.(net := rest, handled := m.handled + [p],
         nodes := m.nodes[p.to := node.(list := ChatModels.Step(node.list, Op.Ack(u, acker, at)))])
  }

  function SendFrom(m: State, from: Str, d: Draft): State
    requires from in m.nodes && |d.predicted| == |Recipients(m.nodes[from].peers, m.nodes[from].local.uuid)|
  {
    var node := m.nodes[from];
    var x := SentMessage(node, d);
    m.(nodes := m.nodes[from := node.(list := ChatModels.Step(node.list, Add(x)))],
       net := m.net + PacketsTo(Recipients(node.peers, node.local.uuid), x),
       sent := m.sent[x.uuid := x], used := m.used + {x.uuid})
  }

  function NotifyAt(m: State, n: Str, x: ChatMessage): State
    requires n in m.nodes
  {
    var node := m.nodes[n];
    m.(nodes := m.nodes[n := node.(list := ChatModels.Step(node.list, Add(x)), pending := node.pending - multiset{x})])
  }

  function DropOne(m: State, i: nat): State
    requires i < |m.net|
  {
    m.(net := Remove(m.net, i), lost := m.lost + [m.net[i]])
  }

  function DuplicateOne(m: State, i: nat): State
    requires i < |m.net|
  {
    m.(net := m.net + [m.net[i]], copies := m.copies + [m.net[i]])
  }

  function ResortAt(m: State, n: Str, s: SortStrategy): State
    requires n in m.nodes
  {
    var node := m.nodes[n];
    m.(nodes := m.nodes[n := node.(list := ChatModels.Step(node.list, Sort(s)))])
  }

  function Next(m: State, step: Step, parses: AddressParser): State
    requires Enabled(m, step)
  {
    match step
    case Send(from, d) => SendFrom(m, from, d)
    case Deliver(i, w) => Receive(m, m.net[i], Remove(m.net, i), w, parses)
    case Notify(n, x) => NotifyAt(m, n, x)
    case Drop(i) => DropOne(m, i)
    case Duplicate(i) => DuplicateOne(m, i)
    case Resort(n, s) => ResortAt(m, n, s)
  }
}
