/** The AF_BP socket family: the kernel's list of bound sockets with their queues
    (bp-socket/bp_socket/af_bp.c and bp_genl.c), and the daemon that answers each request for a bundle
    with at most one delivery (bp-socket/daemon/bp_genl_handlers.c). */
module AfBp {
  import opened Bytes
  import opened Eid

  const AF_BP: int := 28
  const SCHEME_IPN: int := 1
  const SCHEME_DTN: int := 2
  const SOCKADDR_SIZE: nat := 16

  type Payload = seq<byte>

  // EINTR stands for the kernel's restart codes.
  datatype Errno = EINVAL | EAFNOSUPPORT | EADDRINUSE | EMSGSIZE | EAGAIN | ECONNRESET | EINTR | EFAULT

  datatype Address = Address(length: nat, family: int, scheme: int, node: u32, service: u32)

  // ---- The table as a value ----

  datatype Key = Key(node: u32, service: byte)
  datatype Sock = Sock(key: Key, queue: seq<Payload>)

  // The bound sockets in list order, and how many requests for each service the daemon is serving.
  datatype Table = Table(socks: seq<Sock>, pending: multiset<int>)

  // How a wait in recvmsg ends.
  datatype Wake = Interrupted | Awake(copies: bool)

  datatype Op =
    | Bind(address: Address)
    | Release(index: nat)
    | Request(index: nat, reached: bool) // recvmsg asks first; the netlink message may not get through
    | RequestUnbound(reached: bool)
    | Take(index: nat, size: nat, wake: Wake) // the rest of recvmsg
    | Serve(service: int, got: Option<Payload>) // a daemon thread ends, with a payload or without

  datatype Event =
    | Bound(key: Key)
    | Refused(errno: Errno)
    | Released(key: Key, purged: seq<Payload>)
    | Requested(service: int, reached: bool)
    | Queued(key: Key, payload: Payload)
    | Unclaimed(service: int, payload: Payload)
    | Unserved(service: int)
    | Returned(key: Key, payload: Payload)
    | Discarded(key: Key, payload: Payload, errno: Errno)
    | NotTaken(key: Key, errno: Errno)

  // The checks of bp_bind on the address.
  function CheckAddress(a: Address): Option<Errno> {
    if a.length < SOCKADDR_SIZE then Some(EINVAL)
    else if a.family != AF_BP then Some(EAFNOSUPPORT)
    else if a.scheme == SCHEME_IPN then (if KernelAccepts(a.node, a.service) then None else Some(EINVAL))
    else if a.scheme == SCHEME_DTN then Some(EAFNOSUPPORT)
    else Some(EINVAL)
  }

  function KeyOf(a: Address): Key
    requires CheckAddress(a).None?
  {
    Key(a.node, a.service)
  }

  predicate Has(socks: seq<Sock>, k: Key) {
    exists i :: 0 <= i < |socks| && socks[i].key == k
  }

  // The list scan of deliver_bundle_doit: the first socket with the service id, whatever its node.
  function Scan(socks: seq<Sock>, service: int): (i: nat)
    ensures i <= |socks| && (forall j :: 0 <= j < i ==> socks[j].key.service != service)
    ensures i < |socks| ==> socks[i].key.service == service
  {
    if socks == [] || socks[0].key.service == service then 0 else 1 + Scan(socks[1..], service)
  }

  predicate Enabled(t: Table, op: Op) {
    match op
    case Release(i) => i < |t.socks|
    case Request(i, _) => i < |t.socks|
    case Take(i, _, _) => i < |t.socks|
    case Serve(s, _) => s in t.pending
    case _ => true
  }

  function StepBind(t: Table, a: Address): (Table, Event) {
    match CheckAddress(a)
    case Some(e) => (t, Refused(e))
    case None =>
      var k := KeyOf(a);
      if Has(t.socks, k) then (t, Refused(EADDRINUSE)) else (t.(socks := [Sock(k, [])] + t.socks), Bound(k))
  }

  // Who gets an address: against the numbers of the interface, in the order of the checks.
  lemma BindExact(t: Table, a: Address)
    ensures var (t', e) := StepBind(t, a);
            var free := forall i :: 0 <= i < |t.socks| ==> !(t.socks[i].key.node == a.node && t.socks[i].key.service == a.service);
            var inRange := 1 <= a.service <= 255 && 1 <= a.node < 0x8000_0000;
            && (a.length < 16 ==> e == Refused(EINVAL))
            && (a.length >= 16 && a.family != 28 ==> e == Refused(EAFNOSUPPORT))
            && (a.length >= 16 && a.family == 28 && a.scheme == 2 ==> e == Refused(EAFNOSUPPORT))
            && (a.length >= 16 && a.family == 28 && a.scheme != 1 && a.scheme != 2 ==> e == Refused(EINVAL))
            && (a.length >= 16 && a.family == 28 && a.scheme == 1 && !inRange ==> e == Refused(EINVAL))
            && (a.length >= 16 && a.family == 28 && a.scheme == 1 && inRange && !free ==> e == Refused(EADDRINUSE))
            && (a.length >= 16 && a.family == 28 && a.scheme == 1 && inRange && free ==>
                  e == Bound(Key(a.node, a.service)) && t'.socks == [Sock(Key(a.node, a.service), [])] + t.socks)
            && (e.Refused? ==> t' == t)
  {
    if CheckAddress(a).None? && Has(t.socks, KeyOf(a)) {
      var i :| 0 <= i < |t.socks| && t.socks[i].key == KeyOf(a);
    }
  }

  function StepRequest(t: Table, service: int, reached: bool): (Table, Event) {
    (if reached then t.(pending := t.pending + multiset{service}) else t, Requested(service, reached))
  }

  // The end of recvmsg on one socket. SOCK_DEAD is set by bp_release.
  function TakeFrom(s: Sock, dead: bool, size: nat, wake: Wake): (Sock, Event) {
    match wake
    case Interrupted => (s, NotTaken(s.key, EINTR))
    case Awake(copies) =>
      if dead then (s, NotTaken(s.key, ECONNRESET))
      else if s.queue == [] then (s, NotTaken(s.key, EAGAIN))
      else
        var head := s.queue[0];
        (s.(queue := s.queue[1..]),
         if |head| > size then Discarded(s.key, head, EMSGSIZE)
         else if !copies then Discarded(s.key, head, EFAULT)
         else Returned(s.key, head))
  }

  // A listed socket is not dead.
  function StepTake(t: Table, i: nat, size: nat, wake: Wake): (Table, Event)
    requires i < |t.socks|
  {
    var (s, e) := TakeFrom(t.socks[i], false, size, wake);
    (t.(socks := t.socks[i := s]), e)
  }

  // What a socket gives up, and why nothing comes out when nothing does.
  lemma TakeExact(s: Sock, dead: bool, size: nat, wake: Wake)
    ensures var (s', e) := TakeFrom(s, dead, size, wake);
            var takes := wake.Awake? && !dead && s.queue != [];
            && s' == (if takes then s.(queue := s.queue[1..]) else s)
            && (takes && |s.queue[0]| <= size && wake.copies ==> e == Returned(s.key, s.queue[0]))
            && (takes && |s.queue[0]| <= size && !wake.copies ==> e == Discarded(s.key, s.queue[0], EFAULT))
            && (takes && |s.queue[0]| > size ==> e == Discarded(s.key, s.queue[0], EMSGSIZE))
            && (wake.Interrupted? ==> e == NotTaken(s.key, EINTR))
            && (wake.Awake? && dead ==> e == NotTaken(s.key, ECONNRESET))
            && (wake.Awake? && !dead && s.queue == [] ==> e == NotTaken(s.key, EAGAIN))
  {
  }

  // A request is for the service of the socket that asks; one that gets through is one more to serve.
  lemma RequestExact(t: Table, i: nat, reached: bool)
    requires i < |t.socks|
    ensures var (t', e) := Step(t, Request(i, reached));
            && t'.socks == t.socks && e == Requested(t.socks[i].key.service, reached)
            && forall s :: t'.pending[s] == t.pending[s] + if reached && s == t.socks[i].key.service then 1 else 0
    ensures var (t', e) := Step(t, RequestUnbound(reached));
            && t'.socks == t.socks && e == Requested(0, reached)
            && forall s :: t'.pending[s] == t.pending[s] + if reached && s == 0 then 1 else 0
  {
  }

  function StepDeliver(t: Table, service: int, payload: Payload): (Table, Event) {
    var i := Scan(t.socks, service);
    if i == |t.socks| then (t, Unclaimed(service, payload))
    else
      var s := t.socks[i];
      (t.(socks := t.socks[i := s.(queue := s.queue + [payload])]), Queued(s.key, payload))
  }

  function Step(t: Table, op: Op): (Table, Event)
    requires Enabled(t, op)
  {
    match op
    case Bind(a) => StepBind(t, a)
    case Release(i) => (t.(socks := t.socks[..i] + t.socks[i + 1..]), Released(t.socks[i].key, t.socks[i].queue))
    case Request(i, reached) => StepRequest(t, t.socks[i].key.service, reached)
    case RequestUnbound(reached) => StepRequest(t, 0, reached)
    case Take(i, size, wake) => StepTake(t, i, size, wake)
    case Serve(s, got) =>
      var t' := t.(pending := t.pending - multiset{s});
      match got
      case None => (t', Unserved(s))
      case Some(payload) => StepDeliver(t', s, payload)
  }

  // ---- The kernel's objects ----

  // struct bp_sock; an unbound one has both ids zero.
  class BpSock {
    var nodeId: u32
    var serviceId: byte
    var queue: seq<Payload>
    var dead: bool

    constructor ()
      ensures nodeId == 0 && serviceId == 0 && queue == [] && !dead
    {
      nodeId, serviceId, queue, dead := 0, 0, [], false;
    }

    ghost function View(): Sock
      reads this
    {
      Sock(Key(nodeId, serviceId), queue)
    }
  }

  class Kernel {
    var bpList: seq<BpSock>
    var pending: multiset<int> // requests the daemon has taken up

    ghost predicate Valid()
      reads this, bpList
    {
      && (forall i, j :: 0 <= i < j < |bpList| ==> bpList[i] != bpList[j])
      && (forall i :: 0 <= i < |bpList| ==> !bpList[i].dead)
    }

    ghost function State(): Table
      reads this, bpList
    {
      Table(seq(|bpList|, i requires 0 <= i < |bpList| reads this, bpList => bpList[i].View()), pending)
    }

    constructor ()
      ensures Valid() && State() == Table([], multiset{})
    {
      bpList, pending := [], multiset{};
    }

    // Zero or an error. What is put in the list must not be in it yet.
    method Bind(sk: BpSock, a: Address) returns (error: Option<Errno>)
      requires Valid()
      requires StepBind(State(), a).1.Bound? ==> sk !in bpList && sk.queue == [] && !sk.dead
      modifies `bpList, sk
      ensures Valid()
      ensures var (t, e) := StepBind(old(State()), a);
              State() == t && error == if e.Refused? then Some(e.errno) else None
      ensures error.Some? ==> bpList == old(bpList) && unchanged(sk)
      ensures error.None? ==> bpList == [sk] + old(bpList)
    {
      error := CheckAddress(a);
      if error.Some? {
        return;
      }
      var nodeId, serviceId := AsInt(a.node), AsInt(a.service);
      for i := 0 to |bpList|
        invariant forall j :: 0 <= j < i ==> bpList[j].View().key != KeyOf(a)
      {
        if bpList[i].serviceId == serviceId && bpList[i].nodeId == nodeId {
          assert State().socks[i].key == KeyOf(a);
          return Some(EADDRINUSE);
        }
      }
      assert !Has(State().socks, KeyOf(a));
      sk.serviceId, sk.nodeId := serviceId, nodeId;
      bpList := [sk] + bpList;
      assert State().socks == [Sock(KeyOf(a), [])] + old(State()).socks;
      return None;
    }

    method Release(sk: BpSock, ghost i: nat)
      requires Valid()
      requires if i < |bpList| then sk == bpList[i] else sk !in bpList
      modifies `bpList, sk`queue, sk`dead
      ensures Valid() && sk.queue == [] && sk.dead
      ensures State() == if i < old(|bpList|) then Step(old(State()), Op.Release(i)).0 else old(State())
    {
      var k := 0;
      while k < |bpList| && bpList[k] != sk
        invariant k <= |bpList| && forall j :: 0 <= j < k ==> bpList[j] != sk
      {
        k := k + 1;
      }
      if k < |bpList| {
        bpList := bpList[..k] + bpList[k + 1..];
      }
      sk.queue := [];
      sk.dead := true;
    }

    // request_bundle_doit, from bp_recvmsg before it waits.
    method RequestBundle(sk: BpSock, reached: bool)
      requires Valid()
      modifies `pending
      ensures Valid() && State() == StepRequest(old(State()), sk.serviceId, reached).0
      ensures pending == if reached then old(pending) + multiset{sk.serviceId as int} else old(pending)
    {
      if reached {
        pending := pending + multiset{sk.serviceId as int};
      }
    }

    // The rest of bp_recvmsg, once the wait has ended: a payload or an error. The socket may have been
    // released meanwhile, or never have been bound.
    method FinishReceive(sk: BpSock, size: nat, wake: Wake) returns (r: Option<Payload>, error: Option<Errno>)
      requires Valid()
      modifies sk`queue
      ensures Valid()
      ensures var (s, e) := TakeFrom(old(sk.View()), sk.dead, size, wake);
              && sk.View() == s
              && r == (if e.Returned? then Some(e.payload) else None)
              && error == if e.Returned? then None else Some(e.errno)
      ensures r.Some? <==> wake == Awake(true) && !sk.dead && old(sk.queue) != [] && |old(sk.queue)[0]| <= size
      ensures r.Some? ==> r == Some(old(sk.queue)[0])
      ensures error == Some(EINTR) <==> wake == Interrupted
      ensures error == Some(ECONNRESET) <==> wake.Awake? && sk.dead
      ensures error == Some(EAGAIN) <==> wake.Awake? && !sk.dead && old(sk.queue) == []
      ensures error == Some(EMSGSIZE) <==> wake.Awake? && !sk.dead && old(sk.queue) != [] && |old(sk.queue)[0]| > size
      ensures error == Some(EFAULT) <==>
                wake == Awake(false) && !sk.dead && old(sk.queue) != [] && |old(sk.queue)[0]| <= size
      ensures error.None? <==> r.Some?
      ensures sk.queue == if wake.Awake? && !sk.dead && old(sk.queue) != [] then old(sk.queue)[1..] else old(sk.queue)
      ensures forall i :: 0 <= i < |bpList| && bpList[i] == sk ==> State() == StepTake(old(State()), i, size, wake).0
      ensures sk !in bpList ==> State() == old(State())
    {
      r := None;
      match wake
      case Interrupted => error := Some(EINTR);
      case Awake(copies) =>
        if sk.dead {
          return None, Some(ECONNRESET);
        }
        if sk.queue == [] {
          return None, Some(EAGAIN);
        }
        var head := sk.queue[0];
        sk.queue := sk.queue[1..];
        if |head| > size {
          error := Some(EMSGSIZE);
        } else if !copies {
          error := Some(EFAULT);
        } else {
          r, error := Some(head), None;
        }
    }

    // deliver_bundle_doit.
    method DeliverBundle(service: u32, payload: Payload) returns (ghost event: Event)
      requires Valid()
      modifies bpList
      ensures Valid() && (State(), event) == StepDeliver(old(State()), service, payload)
    {
      for i := 0 to |bpList|
        invariant State() == old(State())
        invariant forall j :: 0 <= j < i ==> bpList[j].serviceId != service
      {
        if bpList[i].serviceId == service {
          assert Scan(State().socks, service) == i by { ScanIs(State().socks, service, i); }
          event := Queued(bpList[i].View().key, payload);
          bpList[i].queue := bpList[i].queue + [payload];
          assert State().socks == old(State()).socks[i := bpList[i].View()];
          return;
        }
      }
      ScanIs(State().socks, service, |bpList|);
      event := Unclaimed(service, payload);
    }

    // handle_deliver_bundle: the daemon's thread for one request, with what bp_recv_once gave it.
    method HandleDeliverBundle(service: u32, got: Option<Payload>) returns (ghost event: Event)
      requires Valid() && service in pending
      modifies `pending, bpList
      ensures Valid() && (State(), event) == Step(old(State()), Serve(service, got))
    {
      pending := pending - multiset{service as int};
      assert State().socks == old(State()).socks;
      if got.None? {
        return Unserved(service);
      }
      event := DeliverBundle(service, got.value);
    }
  }

  lemma ScanIs(socks: seq<Sock>, service: int, i: nat)
    requires i <= |socks| && (forall j :: 0 <= j < i ==> socks[j].key.service != service)
    requires i < |socks| ==> socks[i].key.service == service
    ensures Scan(socks, service) == i
  {
  }
}
