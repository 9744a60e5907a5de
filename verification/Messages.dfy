/** Chat messages, their delivery status and the peers they name: src/utils/message.rs and
    src/utils/config.rs. */
module Messages {
  import opened Bytes

  // Instants are nanoseconds since the Unix epoch, within the range of chrono's DateTime<Utc>.
  const NANOS_PER_MILLI: int := 1_000_000
  const MIN_MILLIS: int := -8_334_601_228_800_000
  const MAX_MILLIS: int := 8_210_266_876_799_999
  type Time = t: int | MIN_MILLIS * NANOS_PER_MILLI <= t < (MAX_MILLIS + 1) * NANOS_PER_MILLI

  // `timestamp_millis`: rounds towards minus infinity.
  function Millis(t: Time): i64 {
    t / NANOS_PER_MILLI
  }

  // `Utc.timestamp_millis_opt(..).single()`.
  function TimeOfMillis(ms: i64): Option<Time> {
    if MIN_MILLIS <= ms <= MAX_MILLIS then Some(ms * NANOS_PER_MILLI) else None
  }

  function FloorToMilli(t: Time): Time {
    t - t % NANOS_PER_MILLI
  }

  lemma MillisRoundTrip(t: Time)
    ensures TimeOfMillis(Millis(t)) == Some(FloorToMilli(t))
  {
  }

  datatype Endpoint = Udp(address: Str) | Tcp(address: Str) | Bp(address: Str)

  datatype Peer = Peer(uuid: Str, name: Str, endpoints: seq<Endpoint>, color: u32)

  datatype Delivery = Delivery(
    peerUuid: Str, peerName: Str, predictedArrival: Option<Time>, ackedAt: Option<Time>)

  datatype MessageStatus =
    | Sent(tx: Time, deliveries: seq<Delivery>)
    | Received(tx: Time, rx: Time) // the sender's tx time, our rx time

  datatype ChatMessage = ChatMessage(
    uuid: Str, response: Option<Str>, sender: Peer, text: Str, status: MessageStatus)

  const DEFAULT_PEER: Peer := Peer(Ascii("unknown"), Ascii("Unknown"), [], 0)

  function FindPeer(peers: seq<Peer>, id: Str): (r: Option<Peer>)
    ensures r.Some? ==> r.value in peers && r.value.uuid == id
    ensures r.None? ==> forall p :: p in peers ==> p.uuid != id
  {
    if peers == [] then None
    else if peers[0].uuid == id then Some(peers[0])
    else FindPeer(peers[1..], id)
  }

  function PeerOrDefault(peers: seq<Peer>, id: Str): Peer {
    match FindPeer(peers, id) case None => DEFAULT_PEER case Some(p) => p
  }

  // The first one with the uuid is found.
  lemma {:induction false} FindPeerExact(peers: seq<Peer>, id: Str, k: nat)
    requires k < |peers| && peers[k].uuid == id && forall j :: 0 <= j < k ==> peers[j].uuid != id
    ensures FindPeer(peers, id) == Some(peers[k])
    decreases |peers|
  {
    if k > 0 {
      FindPeerExact(peers[1..], id, k - 1);
    }
  }

  // A sender nobody listed is shown as this peer.
  lemma UnlistedIsDefault(peers: seq<Peer>, id: Str)
    requires forall p :: p in peers ==> p.uuid != id
    ensures var p := PeerOrDefault(peers, id);
            && p.uuid == [117, 110, 107, 110, 111, 119, 110] // unknown
            && p.name == [85, 110, 107, 110, 111, 119, 110] // Unknown
            && p.endpoints == [] && p.color == 0
  {
    hide ValidUtf8;
  }

  // ---- Acknowledging ----

  // Stamp the first delivery to that peer; false if there is none.
  function StampFirst(ds: seq<Delivery>, acker: Str, at: Time): (r: (seq<Delivery>, bool))
    ensures |r.0| == |ds|
  {
    if ds == [] then ([], false)
    else if ds[0].peerUuid == acker then ([ds[0].(ackedAt := Some(at))] + ds[1..], true)
    else var (rest, found) := StampFirst(ds[1..], acker, at); ([ds[0]] + rest, found)
  }

  function MarkAck(m: ChatMessage, acker: Str, at: Time): (ChatMessage, bool) {
    if m.status.Received? then (m, false)
    else
      var (ds, found) := StampFirst(m.status.deliveries, acker, at);
      (m.(status := m.status.(deliveries := ds)), found)
  }

  // What a stamp does, position by position: only the first delivery to the acker changes, and only
  // its stamp; the answer says whether there is one.
  lemma {:induction false} StampFirstExact(ds: seq<Delivery>, acker: Str, at: Time, k: nat)
    requires k <= |ds| && (forall i :: 0 <= i < k ==> ds[i].peerUuid != acker)
    requires k < |ds| ==> ds[k].peerUuid == acker
    ensures StampFirst(ds, acker, at)
         == if k < |ds| then (ds[k := ds[k].(ackedAt := Some(at))], true) else (ds, false)
    decreases |ds|
  {
    if ds != [] && k > 0 {
      StampFirstExact(ds[1..], acker, at, k - 1);
      assert ds == [ds[0]] + ds[1..];
      if k < |ds| {
        var d := ds[k].(ackedAt := Some(at));
        assert ds[k := d] == [ds[0]] + ds[1..][k - 1 := d];
      }
    } else if ds != [] {
      assert ds[0 := ds[0].(ackedAt := Some(at))] == [ds[0].(ackedAt := Some(at))] + ds[1..];
    }
  }

  // The source's loop over `deliveries.iter_mut()`.
  method StampInPlace(deliveries: array<Delivery>, acker: Str, at: Time) returns (found: bool)
    modifies deliveries
    ensures (deliveries[..], found) == StampFirst(old(deliveries[..]), acker, at)
  {
    for i := 0 to deliveries.Length
      invariant deliveries[..] == old(deliveries[..])
      invariant forall j :: 0 <= j < i ==> deliveries[j].peerUuid != acker
    {
      if deliveries[i].peerUuid == acker {
        StampFirstExact(deliveries[..], acker, at, i);
        deliveries[i] := deliveries[i].(ackedAt := Some(at));
        return true;
      }
    }
    StampFirstExact(deliveries[..], acker, at, deliveries.Length);
    return false;
  }

  // ---- What acknowledging keeps ----

  function EraseStamps(ds: seq<Delivery>): (r: seq<Delivery>)
    ensures |r| == |ds|
    ensures forall i :: 0 <= i < |ds| ==> r[i] == ds[i].(ackedAt := None)
  {
    seq(|ds|, i requires 0 <= i < |ds| => ds[i].(ackedAt := None))
  }

  // The message without its ack stamps.
  function Erase(m: ChatMessage): ChatMessage {
    if m.status.Received? then m
    else m.(status := m.status.(deliveries := EraseStamps(m.status.deliveries)))
  }

  predicate IsAcked(m: ChatMessage, i: nat) {
    m.status.Sent? && i < |m.status.deliveries| && m.status.deliveries[i].ackedAt.Some?
  }

  // m' is m with perhaps more acks: nothing else differs and no ack is gone.
  ghost predicate Advances(m: ChatMessage, m': ChatMessage) {
    Erase(m) == Erase(m') && forall i: nat :: IsAcked(m, i) ==> IsAcked(m', i)
  }

  // The answer says whether the message is one of ours with a delivery to the acker.
  lemma MarkAckAnswer(m: ChatMessage, acker: Str, at: Time)
    ensures MarkAck(m, acker, at).1 <==>
              m.status.Sent? && exists i :: 0 <= i < |m.status.deliveries| && m.status.deliveries[i].peerUuid == acker
  {
    if m.status.Sent? {
      StampFirstExact(m.status.deliveries, acker, at, FirstTo(m.status.deliveries, acker));
    }
  }

  lemma MarkAckAdvances(m: ChatMessage, acker: Str, at: Time)
    ensures Advances(m, MarkAck(m, acker, at).0)
  {
    if m.status.Sent? {
      var ds := m.status.deliveries;
      var k := FirstTo(ds, acker);
      StampFirstExact(ds, acker, at, k);
      var ds' := MarkAck(m, acker, at).0.status.deliveries;
      assert EraseStamps(ds) == EraseStamps(ds');
    }
  }

  function FirstTo(ds: seq<Delivery>, acker: Str): (k: nat)
    ensures k <= |ds| && (forall i :: 0 <= i < k ==> ds[i].peerUuid != acker)
    ensures k < |ds| ==> ds[k].peerUuid == acker
  {
    if ds == [] || ds[0].peerUuid == acker then 0 else 1 + FirstTo(ds[1..], acker)
  }
}
