/** The pure decisions of the socket controller in src/utils/socket.rs: which endpoints are valid,
    whether a received message is acknowledged, and over which endpoint. Parsing of IP socket
    addresses is a parameter. */
module Controller {
  import opened Bytes
  import opened Messages
  import Eid

  type AddressParser = seq<byte> -> bool

  const ACK_MARK: Str := Ascii("[ACK]")
  const PLACEHOLDER: Str := Ascii("PLACEHOLDER")

  predicate Contains(s: seq<byte>, part: seq<byte>) {
    part <= s || (s != [] && Contains(s[1..], part))
  }

  predicate IsValid(ep: Endpoint, parses: AddressParser) {
    match ep
    case Udp(addr) => parses(addr)
    case Tcp(addr) => parses(addr)
    case Bp(addr) => !Contains(addr, PLACEHOLDER) && addr != [] && (Eid.IPN <= addr || Eid.DTN <= addr)
  }

  // Whether a socket can be made for the endpoint: `GenericSocket::new`.
  predicate IsUsable(ep: Endpoint, parses: AddressParser) {
    match ep
    case Udp(addr) => parses(addr)
    case Tcp(addr) => parses(addr)
    case Bp(addr) => Eid.CreateSockaddr(addr).Ipn?
  }

  predicate SameFamily(a: Endpoint, b: Endpoint) {
    (a.Udp? && b.Udp?) || (a.Tcp? && b.Tcp?) || (a.Bp? && b.Bp?)
  }

  function FindEndpoint(eps: seq<Endpoint>, want: Endpoint -> bool): (r: Option<Endpoint>)
    ensures r.Some? ==> r.value in eps && want(r.value)
    ensures r.Some? ==> exists k :: 0 <= k < |eps| && eps[k] == r.value && forall j :: 0 <= j < k ==> !want(eps[j])
    ensures r.None? ==> forall e :: e in eps ==> !want(e)
  {
    if eps == [] then None
    else if want(eps[0]) then Some(eps[0])
    else FindEndpoint(eps[1..], want)
  }

  function OrElse<T>(a: Option<T>, b: Option<T>): Option<T> {
    if a.Some? then a else b
  }

  function ChooseAckEndpoint(sender: Peer, receivedOn: Option<Endpoint>, parses: AddressParser): Option<Endpoint> {
    var eps := sender.endpoints;
    var family := if receivedOn.None? then None else FindEndpoint(eps, e => SameFamily(e, receivedOn.value));
    if family.Some? then family
    else
      OrElse(FindEndpoint(eps, e => IsValid(e, parses) && e.Bp?),
        OrElse(FindEndpoint(eps, e => IsValid(e, parses) && e.Tcp?),
          OrElse(FindEndpoint(eps, e => IsValid(e, parses) && e.Udp?),
            FindEndpoint(eps, e => IsValid(e, parses)))))
  }

  // The transport of arrival wins; failing that the best valid one, in the order Bp, Tcp, Udp; and an
  // endpoint is found whenever the peer has one that qualifies.
  lemma AckEndpointIsBest(sender: Peer, receivedOn: Option<Endpoint>, parses: AddressParser)
    ensures var r := ChooseAckEndpoint(sender, receivedOn, parses);
            var eps := sender.endpoints;
            var familiar := receivedOn.Some? && exists e :: e in eps && SameFamily(e, receivedOn.value);
            && (r.None? <==> !familiar && forall e :: e in eps ==> !IsValid(e, parses))
            && (r.Some? ==> r.value in eps)
            && (familiar ==> SameFamily(r.value, receivedOn.value))
            && (r.Some? && !familiar ==>
                  && IsValid(r.value, parses)
                  && (!r.value.Bp? ==> forall e :: e in eps && IsValid(e, parses) ==> !e.Bp?)
                  && (r.value.Udp? ==> forall e :: e in eps && IsValid(e, parses) ==> e.Udp?))
  {
  }

  // The first endpoint of the family the message came in on, whether valid or not.
  lemma AckEndpointOfFamily(sender: Peer, receivedOn: Endpoint, parses: AddressParser, k: nat)
    requires k < |sender.endpoints|
    requires if receivedOn.Bp? then sender.endpoints[k].Bp? && forall j :: 0 <= j < k ==> !sender.endpoints[j].Bp?
             else if receivedOn.Tcp? then sender.endpoints[k].Tcp? && forall j :: 0 <= j < k ==> !sender.endpoints[j].Tcp?
             else sender.endpoints[k].Udp? && forall j :: 0 <= j < k ==> !sender.endpoints[j].Udp?
    ensures ChooseAckEndpoint(sender, Some(receivedOn), parses) == Some(sender.endpoints[k])
  {
    var eps := sender.endpoints;
    var found := FindEndpoint(eps, e => SameFamily(e, receivedOn));
    assert SameFamily(eps[k], receivedOn) && eps[k] in eps;
    var i :| 0 <= i < |eps| && eps[i] == found.value && forall j :: 0 <= j < i ==> !SameFamily(eps[j], receivedOn);
    assert i == k;
  }

  // ---- Addresses ----

  lemma {:induction false} ContainsExact(s: seq<byte>, part: seq<byte>)
    ensures Contains(s, part) <==> exists pre, post :: s == pre + part + post
    decreases |s|
  {
    if part <= s {
      assert s == [] + part + s[|part|..];
    } else if s != [] {
      ContainsExact(s[1..], part);
      if pre, post :| s[1..] == pre + part + post {
        assert s == [s[0]] + pre + part + post;
      }
      if pre, post :| s == pre + part + post {
        NotAtStart(s, pre, part, post);
        assert s[1..] == pre[1..] + part + post;
      }
    } else {
      assert part != [];
    }
  }

  lemma NotAtStart(s: seq<byte>, pre: seq<byte>, part: seq<byte>, post: seq<byte>)
    requires s == pre + part + post && !(part <= s)
    ensures pre != []
  {
    assert pre + part == s[..|pre| + |part|];
  }

  // What makes an address fit for use, byte by byte: of an ipn address, two numerals the parser accepts,
  // joined by a dot; of an IP address, that it parses.
  lemma UsableExact(ep: Endpoint, parses: AddressParser)
    ensures ep.Bp? ==> (IsUsable(ep, parses) <==>
              exists p, q :: ep.address == [105, 112, 110, 58] + p + [46] + q && Eid.ParseU32(p).Some? && Eid.ParseU32(q).Some?)
    ensures !ep.Bp? ==> (IsUsable(ep, parses) <==> parses(ep.address))
  {
    if ep.Bp? {
      Eid.SockaddrExact(ep.address);
    }
  }

  lemma ValidExact(ep: Endpoint, parses: AddressParser, mark: seq<byte>)
    requires mark == [80, 76, 65, 67, 69, 72, 79, 76, 68, 69, 82] // PLACEHOLDER
    ensures ep.Bp? ==> (IsValid(ep, parses) <==>
              && ([105, 112, 110, 58] <= ep.address || [100, 116, 110, 58] <= ep.address)
              && !exists pre, post :: ep.address == pre + mark + post)
    ensures !ep.Bp? ==> (IsValid(ep, parses) <==> parses(ep.address))
  {
    hide Ascii, Contains, ValidUtf8;
    PlaceholderBytes();
    SchemeBytes();
    if ep.Bp? {
      ContainsExact(ep.address, mark);
    }
  }

  lemma PlaceholderBytes()
    ensures PLACEHOLDER == [80, 76, 65, 67, 69, 72, 79, 76, 68, 69, 82]
  {
    hide ValidUtf8;
  }

  lemma AckMarkBytes()
    ensures ACK_MARK == [91, 65, 67, 75, 93]
  {
    hide ValidUtf8;
  }

  lemma SchemeBytes()
    ensures Eid.IPN == [105, 112, 110, 58] && Eid.DTN == [100, 116, 110, 58]
  {
    hide ValidUtf8;
  }

  lemma HasCapital(s: seq<byte>, pre: seq<byte>, post: seq<byte>)
    requires s == pre + [80, 76, 65, 67, 69, 72, 79, 76, 68, 69, 82] + post
    ensures 80 in s
  {
    assert s[|pre|] == 80;
  }

  // Every decimal ipn address is valid and usable.
  lemma DecimalIsUsable(node: u32, service: u32, parses: AddressParser)
    ensures ValidUtf8([105, 112, 110, 58] + Eid.PrintDec(node) + [46] + Eid.PrintDec(service))
    ensures var ep := Bp([105, 112, 110, 58] + Eid.PrintDec(node) + [46] + Eid.PrintDec(service));
            IsUsable(ep, parses) && IsValid(ep, parses)
  {
    hide ValidUtf8, Eid.PrintDec, IsUsable, IsValid, Contains, Eid.ParseU32;
    var p, q := Eid.PrintDec(node), Eid.PrintDec(service);
    var address := [105, 112, 110, 58] + p + [46] + q;
    AsciiIsUtf8(address);
    Eid.ParseOfPrint(node);
    Eid.ParseOfPrint(service);
    UsableExact(Bp(address), parses);
    var mark := [80, 76, 65, 67, 69, 72, 79, 76, 68, 69, 82];
    ValidExact(Bp(address), parses, mark);
    assert 80 !in address;
    forall pre, post ensures address != pre + mark + post {
      if address == pre + mark + post {
        HasCapital(address, pre, post);
        assert false;
      }
    }
  }

  // A listed sender with such an endpoint gets an ACK for every unmarked message, however it came in.
  lemma DecimalIsAcked(peers: seq<Peer>, message: ChatMessage, receivedOn: Option<Endpoint>, parses: AddressParser, node: u32, service: u32)
    requires ValidUtf8([105, 112, 110, 58] + Eid.PrintDec(node) + [46] + Eid.PrintDec(service))
    requires FindPeer(peers, message.sender.uuid).Some?
    requires FindPeer(peers, message.sender.uuid).value.endpoints
          == [Bp([105, 112, 110, 58] + Eid.PrintDec(node) + [46] + Eid.PrintDec(service))]
    requires !([91, 65, 67, 75, 93] <= message.text)
    ensures AckTarget(peers, message, receivedOn, parses) == FindPeer(peers, message.sender.uuid)
  {
    hide ValidUtf8, Eid.PrintDec, IsUsable, IsValid, Ascii;
    AckMarkBytes();
    DecimalIsUsable(node, service, parses);
    AckedUnlessMarked(peers, message, receivedOn, parses);
  }

  // Whether an ACK goes out at all.
  lemma AckTargetExact(peers: seq<Peer>, message: ChatMessage, receivedOn: Option<Endpoint>, parses: AddressParser)
    ensures AckTarget(peers, message, receivedOn, parses).None? <==>
              || [91, 65, 67, 75, 93] <= message.text
              || (forall p :: p in peers ==> p.uuid != message.sender.uuid)
              || var ep := ChooseAckEndpoint(FindPeer(peers, message.sender.uuid).value, receivedOn, parses);
                 ep.None? || !IsUsable(ep.value, parses)
    ensures var to := AckTarget(peers, message, receivedOn, parses);
            to.Some? ==> to == FindPeer(peers, message.sender.uuid) && to.value.uuid == message.sender.uuid
  {
    hide ChooseAckEndpoint, IsUsable, Ascii, ValidUtf8;
    AckMarkBytes();
  }

  // The peer an ACK for a received message goes to, if one goes out at all.
  function AckTarget(peers: seq<Peer>, message: ChatMessage, receivedOn: Option<Endpoint>, parses: AddressParser): Option<Peer> {
    if StartsWith(message.text, ACK_MARK) then None
    else match FindPeer(peers, message.sender.uuid)
      case None => None
      case Some(sender) =>
        match ChooseAckEndpoint(sender, receivedOn, parses)
        case None => None
        case Some(ep) => if IsUsable(ep, parses) then Some(sender) else None
  }

  // A peer that can be reached: it has endpoints and all of them are in order.
  predicate IsReachable(peer: Peer, parses: AddressParser) {
    peer.endpoints != [] && forall i :: 0 <= i < |peer.endpoints| ==>
      IsValid(peer.endpoints[i], parses) && IsUsable(peer.endpoints[i], parses)
  }

  // With a reachable sender in the peer list, exactly the messages not marked [ACK] are acknowledged.
  lemma AckedUnlessMarked(peers: seq<Peer>, message: ChatMessage, receivedOn: Option<Endpoint>, parses: AddressParser)
    requires FindPeer(peers, message.sender.uuid).Some?
    requires IsReachable(FindPeer(peers, message.sender.uuid).value, parses)
    ensures AckTarget(peers, message, receivedOn, parses)
         == if StartsWith(message.text, ACK_MARK) then None else FindPeer(peers, message.sender.uuid)
  {
    var sender := FindPeer(peers, message.sender.uuid).value;
    AckEndpointIsBest(sender, receivedOn, parses);
    assert sender.endpoints[0] in sender.endpoints;
  }
}
