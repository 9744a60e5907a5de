/** What holds in every run of the AF_BP table: addresses are unique, a delivery goes to the socket
    most recently bound to its service, queues are first in first out and lose nothing, and no more is
    queued than was asked for. */
module AfBpRuns {
  import opened Bytes
  import opened AfBp

  const EMPTY: Table := Table([], multiset{})

  // ---- Runs from the empty table, with their trace ----

  ghost predicate Legal(ops: seq<Op>)
    decreases |ops|, 0
  {
    ops == [] || (Legal(ops[..|ops| - 1]) && Enabled(After(ops[..|ops| - 1]).0, ops[|ops| - 1]))
  }

  ghost function After(ops: seq<Op>): (Table, seq<Event>)
    requires Legal(ops)
    decreases |ops|, 1
  {
    if ops == [] then (EMPTY, [])
    else
      var (t, trace) := After(ops[..|ops| - 1]);
      var (t', e) := Step(t, ops[|ops| - 1]);
      (t', trace + [e])
  }

  // ---- Addresses are unique ----

  predicate Distinct(socks: seq<Sock>) {
    forall i, j :: 0 <= i < j < |socks| ==> socks[i].key != socks[j].key
  }

  lemma {:induction false} AddressesAreUnique(ops: seq<Op>)
    requires Legal(ops)
    ensures Distinct(After(ops).0.socks)
    decreases |ops|
  {
    if ops != [] {
      AddressesAreUnique(ops[..|ops| - 1]);
    }
  }

  // ---- First in, first out ----

  function Entered(trace: seq<Event>, k: Key): seq<Payload> {
    if trace == [] then []
    else
      var e := trace[|trace| - 1];
      Entered(trace[..|trace| - 1], k) + if e.Queued? && e.key == k then [e.payload] else []
  }

  // What left an address's queue: returned, discarded, or purged when its socket was released.
  function Left(trace: seq<Event>, k: Key): seq<Payload> {
    if trace == [] then []
    else
      var e := trace[|trace| - 1];
      Left(trace[..|trace| - 1], k)
      + if (e.Returned? || e.Discarded?) && e.key == k then [e.payload]
        else if e.Released? && e.key == k then e.purged
        else []
  }

  function QueueAt(socks: seq<Sock>, k: Key): seq<Payload> {
    if socks == [] then [] else if socks[0].key == k then socks[0].queue else QueueAt(socks[1..], k)
  }

  lemma {:induction false} QueueAtIndex(socks: seq<Sock>, i: nat)
    requires i < |socks| && Distinct(socks)
    ensures QueueAt(socks, socks[i].key) == socks[i].queue
  {
    if i > 0 {
      QueueAtIndex(socks[1..], i - 1);
    }
  }

  lemma {:induction false} QueueAtNowhere(socks: seq<Sock>, k: Key)
    requires !Has(socks, k)
    ensures QueueAt(socks, k) == []
  {
    if socks != [] {
      assert !Has(socks[1..], k) by {
        assert forall i :: 0 <= i < |socks[1..]| ==> socks[1..][i] == socks[i + 1];
      }
      QueueAtNowhere(socks[1..], k);
    }
  }

  // Sockets that differ at one position only, and there only in the queue.
  lemma {:induction false} QueueAtOther(socks: seq<Sock>, i: nat, queue: seq<Payload>, k: Key)
    requires i < |socks| && socks[i].key != k
    ensures QueueAt(socks[i := socks[i].(queue := queue)], k) == QueueAt(socks, k)
  {
    if i > 0 {
      var socks' := socks[i := socks[i].(queue := queue)];
      assert socks'[1..] == socks[1..][i - 1 := socks[i].(queue := queue)];
      QueueAtOther(socks[1..], i - 1, queue, k);
    }
  }

  lemma {:induction false} QueueAtRemoved(socks: seq<Sock>, i: nat, k: Key)
    requires i < |socks| && socks[i].key != k
    ensures QueueAt(socks[..i] + socks[i + 1..], k) == QueueAt(socks, k)
  {
    if i > 0 {
      assert (socks[..i] + socks[i + 1..])[1..] == socks[1..][..i - 1] + socks[1..][i..];
      QueueAtRemoved(socks[1..], i - 1, k);
    } else {
      assert socks[..0] + socks[1..] == socks[1..];
    }
  }

  lemma EmptiedOnRelease(socks: seq<Sock>, i: nat)
    requires i < |socks| && Distinct(socks)
    ensures QueueAt(socks[..i] + socks[i + 1..], socks[i].key) == []
  {
    QueueAtNowhere(socks[..i] + socks[i + 1..], socks[i].key);
  }

  lemma EventAlone(e: Event, k: Key)
    ensures Entered([e], k) == if e.Queued? && e.key == k then [e.payload] else []
    ensures Left([e], k) == if (e.Returned? || e.Discarded?) && e.key == k then [e.payload]
                            else if e.Released? && e.key == k then e.purged
                            else []
  {
    assert [e][..0] == [];
  }

  // What a step does to the queue at an address, in terms of its event.
  lemma StepQueue(t: Table, op: Op, k: Key)
    requires Enabled(t, op) && Distinct(t.socks)
    ensures var (t', e) := Step(t, op);
            QueueAt(t.socks, k) + Entered([e], k) == Left([e], k) + QueueAt(t'.socks, k)
  {
    hide QueueAt, Entered, Left, Distinct, StepTake, StepBind, CheckAddress, Has;
    EventAlone(Step(t, op).1, k);
    match op
    case Bind(a) => BindQueue(t, a, k);
    case Release(i) => ReleaseQueue(t.socks, i, k);
    case Take(i, size, wake) => TakeQueue(t, i, size, wake, k);
    case Serve(s, got) =>
      if got.Some? {
        DeliverQueue(t.(pending := t.pending - multiset{s}), s, got.value, k);
      }
    case _ =>
  }

  lemma BindQueue(t: Table, a: Address, k: Key)
    ensures var (t', e) := StepBind(t, a);
            QueueAt(t.socks, k) == QueueAt(t'.socks, k) && (e.Bound? || e.Refused?)
  {
    hide QueueAt, Has, CheckAddress;
    var (t', e) := StepBind(t, a);
    if e.Bound? {
      BoundQueue(t.socks, e.key, k);
    }
  }

  lemma ReleaseQueue(socks: seq<Sock>, i: nat, k: Key)
    requires i < |socks| && Distinct(socks)
    ensures QueueAt(socks, k) == (if socks[i].key == k then socks[i].queue else []) + QueueAt(socks[..i] + socks[i + 1..], k)
  {
    hide QueueAt;
    QueueAtIndex(socks, i);
    if socks[i].key == k {
      EmptiedOnRelease(socks, i);
    } else {
      QueueAtRemoved(socks, i, k);
    }
  }

  lemma TakeQueue(t: Table, i: nat, size: nat, wake: Wake, k: Key)
    requires i < |t.socks| && Distinct(t.socks)
    ensures var (t', e) := StepTake(t, i, size, wake);
            QueueAt(t.socks, k) == (if (e.Returned? || e.Discarded?) && e.key == k then [e.payload] else []) + QueueAt(t'.socks, k)
            && !e.Queued? && !e.Released?
  {
    hide QueueAt, Distinct;
    ChangedQueue(t.socks, i, StepTake(t, i, size, wake).0.socks, k);
  }

  lemma DeliverQueue(t: Table, service: int, payload: Payload, k: Key)
    requires Distinct(t.socks)
    ensures var (t', e) := StepDeliver(t, service, payload);
            QueueAt(t.socks, k) + (if e.Queued? && e.key == k then [e.payload] else []) == QueueAt(t'.socks, k)
            && (e.Queued? || e.Unclaimed?)
  {
    hide QueueAt, Distinct;
    var i := Scan(t.socks, service);
    if i < |t.socks| {
      ChangedQueue(t.socks, i, StepDeliver(t, service, payload).0.socks, k);
    }
  }

  lemma BoundQueue(socks: seq<Sock>, bound: Key, k: Key)
    requires !Has(socks, bound)
    ensures QueueAt([Sock(bound, [])] + socks, k) == QueueAt(socks, k)
  {
    assert ([Sock(bound, [])] + socks)[1..] == socks;
    if k == bound {
      QueueAtNowhere(socks, k);
    }
  }

  lemma ChangedQueue(socks: seq<Sock>, i: nat, socks': seq<Sock>, k: Key)
    requires i < |socks| == |socks'| && Distinct(socks)
    requires socks' == socks[i := socks[i].(queue := socks'[i].queue)]
    ensures QueueAt(socks', k) == if k == socks[i].key then socks'[i].queue else QueueAt(socks, k)
    ensures QueueAt(socks, socks[i].key) == socks[i].queue
  {
    QueueAtIndex(socks, i);
    if k == socks[i].key {
      QueueAtIndex(socks', i);
    } else {
      QueueAtOther(socks, i, socks'[i].queue, k);
    }
  }

  lemma TraceGrows(trace: seq<Event>, e: Event, k: Key)
    ensures Entered(trace + [e], k) == Entered(trace, k) + Entered([e], k)
    ensures Left(trace + [e], k) == Left(trace, k) + Left([e], k)
  {
    assert (trace + [e])[..|trace|] == trace && [e][..0] == [];
  }

  // At every address, whatever sockets have come and gone there: everything queued, in order, is
  // what was returned, discarded or purged, followed by what is queued now.
  lemma {:induction false} QueuesAreFifo(ops: seq<Op>, k: Key)
    requires Legal(ops)
    ensures var (t, trace) := After(ops); Entered(trace, k) == Left(trace, k) + QueueAt(t.socks, k)
    decreases |ops|
  {
    hide Step, Entered, Left, Enabled;
    if ops == [] {
      assert Entered([], k) == [] && Left([], k) == [] by { NothingYet(k); }
    } else {
      var front := ops[..|ops| - 1];
      var (t, trace) := After(front);
      var (t', e) := Step(t, ops[|ops| - 1]);
      QueuesAreFifo(front, k);
      AddressesAreUnique(front);
      StepQueue(t, ops[|ops| - 1], k);
      TraceGrows(trace, e, k);
      assert Entered(trace, k) + Entered([e], k) == Left(trace, k) + (QueueAt(t.socks, k) + Entered([e], k));
      assert Left(trace, k) + (Left([e], k) + QueueAt(t'.socks, k)) == Left(trace, k) + Left([e], k) + QueueAt(t'.socks, k);
    }
  }

  lemma NothingYet(k: Key)
    ensures Entered([], k) == [] && Left([], k) == []
  {
  }

  // ---- No more is queued than was asked for ----

  predicate Asks(e: Event, service: int) {
    e.Requested? && e.reached && e.service == service
  }

  predicate Answers(e: Event, service: int) {
    match e
    case Queued(k, _) => k.service == service
    case Unclaimed(s, _) => s == service
    case Unserved(s) => s == service
    case _ => false
  }

  function Asked(trace: seq<Event>, service: int): nat {
    if trace == [] then 0
    else Asked(trace[..|trace| - 1], service) + if Asks(trace[|trace| - 1], service) then 1 else 0
  }

  function Answered(trace: seq<Event>, service: int): nat {
    if trace == [] then 0
    else Answered(trace[..|trace| - 1], service) + if Answers(trace[|trace| - 1], service) then 1 else 0
  }

  // Every request the daemon took up is being served or was answered once: queued, delivered to
  // nobody, or given up.
  lemma {:induction false} EachRequestIsAnsweredOnce(ops: seq<Op>, service: int)
    requires Legal(ops)
    ensures var (t, trace) := After(ops); Asked(trace, service) == Answered(trace, service) + t.pending[service]
    decreases |ops|
  {
    if ops != [] {
      EachRequestIsAnsweredOnce(ops[..|ops| - 1], service);
      var (t, trace) := After(ops[..|ops| - 1]);
      StepRequests(t, ops[|ops| - 1], service);
      var e := Step(t, ops[|ops| - 1]).1;
      assert (trace + [e])[..|trace|] == trace;
    }
  }

  lemma StepRequests(t: Table, op: Op, service: int)
    requires Enabled(t, op)
    ensures var (t', e) := Step(t, op);
            t.pending[service] + (if Asks(e, service) then 1 else 0)
            == (if Answers(e, service) then 1 else 0) + t'.pending[service]
  {
  }

  // So at each address no more was ever queued than recvmsg calls asked for its service.
  lemma {:induction false} QueuedAtMostAnswered(trace: seq<Event>, k: Key)
    ensures |Entered(trace, k)| <= Answered(trace, k.service)
    decreases |trace|
  {
    if trace != [] {
      QueuedAtMostAnswered(trace[..|trace| - 1], k);
    }
  }

  lemma QueuedAtMostAsked(ops: seq<Op>, k: Key)
    requires Legal(ops)
    ensures |Entered(After(ops).1, k)| <= Asked(After(ops).1, k.service)
  {
    QueuedAtMostAnswered(After(ops).1, k);
    EachRequestIsAnsweredOnce(ops, k.service);
  }

  // ---- A delivery goes to the most recently bound live socket of its service ----

  // k was bound at moment i of the trace and has not been released since.
  predicate LiveSince(trace: seq<Event>, i: nat, k: Key) {
    i < |trace| && trace[i] == Bound(k) && forall j :: i < j < |trace| ==> !(trace[j].Released? && trace[j].key == k)
  }

  ghost predicate MostRecentlyBound(trace: seq<Event>, service: int, k: Key) {
    exists i: nat :: LiveSince(trace, i, k) && k.service == service
      && forall j: nat, k' :: LiveSince(trace, j, k') && k'.service == service ==> j <= i
  }

  // The moment of the last binding of k, or -1.
  function BoundAt(trace: seq<Event>, k: Key): (i: int)
    ensures -1 <= i < |trace| && (i >= 0 ==> trace[i] == Bound(k))
    ensures forall j :: i < j < |trace| ==> trace[j] != Bound(k)
  {
    if trace == [] then -1
    else if trace[|trace| - 1] == Bound(k) then |trace| - 1
    else BoundAt(trace[..|trace| - 1], k)
  }

  // The list holds the live sockets, latest first.
  ghost predicate ListsLive(socks: seq<Sock>, trace: seq<Event>) {
    && (forall p :: 0 <= p < |socks| ==> BoundAt(trace, socks[p].key) >= 0 && LiveSince(trace, BoundAt(trace, socks[p].key), socks[p].key))
    && (forall p, q :: 0 <= p < q < |socks| ==> BoundAt(trace, socks[p].key) > BoundAt(trace, socks[q].key))
    && (forall i: nat, k :: LiveSince(trace, i, k) ==> Has(socks, k) && i == BoundAt(trace, k))
  }

  lemma LiveGrows(trace: seq<Event>, e: Event, i: nat, k: Key)
    ensures LiveSince(trace + [e], i, k)
       <==> if i == |trace| then e == Bound(k) else LiveSince(trace, i, k) && !(e.Released? && e.key == k)
  {
    var trace' := trace + [e];
    assert trace'[|trace|] == e;
    if i < |trace| && LiveSince(trace', i, k) {
      assert forall j :: i < j < |trace| ==> trace'[j] == trace[j];
      assert trace'[i] == trace[i];
    }
  }

  lemma BoundAtGrows(trace: seq<Event>, e: Event, k: Key)
    ensures BoundAt(trace + [e], k) == if e == Bound(k) then |trace| else BoundAt(trace, k)
  {
    assert (trace + [e])[..|trace|] == trace;
  }

  predicate SameKeys(a: seq<Sock>, b: seq<Sock>) {
    |a| == |b| && forall p :: 0 <= p < |a| ==> a[p].key == b[p].key
  }

  // Steps that neither bind nor release.
  lemma ListsLiveQuiet(socks: seq<Sock>, socks': seq<Sock>, trace: seq<Event>, e: Event)
    requires ListsLive(socks, trace) && SameKeys(socks, socks') && !e.Bound? && !e.Released?
    ensures ListsLive(socks', trace + [e])
  {
    hide LiveSince, BoundAt;
    forall k ensures BoundAt(trace + [e], k) == BoundAt(trace, k) { BoundAtGrows(trace, e, k); }
    forall i: nat, k ensures LiveSince(trace + [e], i, k) <==> LiveSince(trace, i, k) {
      LiveGrows(trace, e, i, k);
      LiveIsWithin(trace, i, k);
    }
    forall k | Has(socks, k) ensures Has(socks', k) {
      var p :| 0 <= p < |socks| && socks[p].key == k;
      assert socks'[p].key == k;
    }
  }

  lemma LiveIsWithin(trace: seq<Event>, i: nat, k: Key)
    ensures LiveSince(trace, i, k) ==> i < |trace|
  {
  }

  lemma ListsLiveBound(socks: seq<Sock>, trace: seq<Event>, k: Key)
    requires ListsLive(socks, trace) && !Has(socks, k)
    ensures ListsLive([Sock(k, [])] + socks, trace + [Bound(k)])
  {
    hide LiveSince, BoundAt, Has;
    var socks', trace' := [Sock(k, [])] + socks, trace + [Bound(k)];
    forall h ensures BoundAt(trace', h) == if h == k then |trace| else BoundAt(trace, h) { BoundAtGrows(trace, Bound(k), h); }
    forall i: nat, h ensures LiveSince(trace', i, h) <==> if i == |trace| then h == k else LiveSince(trace, i, h) {
      LiveGrows(trace, Bound(k), i, h);
    }
    HasAfterBind(socks, k);
    forall i: nat, h | LiveSince(trace', i, h) ensures Has(socks', h) && i == BoundAt(trace', h) {
      if i == |trace| {
        assert h == k;
      } else {
        assert LiveSince(trace, i, h);
      }
    }
    forall p | 0 < p < |socks'|
      ensures 0 <= BoundAt(trace', socks'[p].key) < |trace| && LiveSince(trace', BoundAt(trace', socks'[p].key), socks'[p].key)
    {
      OldBinding(socks, trace, k, p - 1);
    }
    forall p, q | 0 < p < q < |socks'| ensures BoundAt(trace', socks'[p].key) > BoundAt(trace', socks'[q].key) {
      assert socks'[p] == socks[p - 1] && socks'[q] == socks[q - 1];
      HasEach(socks, p - 1);
      HasEach(socks, q - 1);
    }
  }

  lemma OldBinding(socks: seq<Sock>, trace: seq<Event>, k: Key, p: nat)
    requires ListsLive(socks, trace) && !Has(socks, k) && p < |socks|
    ensures var h, trace' := ([Sock(k, [])] + socks)[p + 1].key, trace + [Bound(k)];
            h == socks[p].key && 0 <= BoundAt(trace', h) < |trace| && LiveSince(trace', BoundAt(trace', h), h)
  {
    hide LiveSince, BoundAt, Has;
    var h := socks[p].key;
    HasEach(socks, p);
    BoundAtGrows(trace, Bound(k), h);
    LiveGrows(trace, Bound(k), BoundAt(trace, h), h);
    LiveIsWithin(trace, BoundAt(trace, h), h);
  }

  lemma HasEach(socks: seq<Sock>, p: nat)
    requires p < |socks|
    ensures Has(socks, socks[p].key)
  {
  }

  lemma HasAfterBind(socks: seq<Sock>, k: Key)
    ensures forall h :: Has([Sock(k, [])] + socks, h) <==> h == k || Has(socks, h)
  {
    var socks' := [Sock(k, [])] + socks;
    assert socks'[0].key == k;
    forall h | Has(socks, h) ensures Has(socks', h) {
      var p :| 0 <= p < |socks| && socks[p].key == h;
      assert socks'[p + 1].key == h;
    }
  }

  lemma ListsLiveReleased(socks: seq<Sock>, trace: seq<Event>, r: nat)
    requires ListsLive(socks, trace) && r < |socks| && Distinct(socks)
    ensures ListsLive(socks[..r] + socks[r + 1..], trace + [Released(socks[r].key, socks[r].queue)])
  {
    hide LiveSince, BoundAt, Has;
    var k, e := socks[r].key, Released(socks[r].key, socks[r].queue);
    var socks', trace' := socks[..r] + socks[r + 1..], trace + [e];
    forall h ensures BoundAt(trace', h) == BoundAt(trace, h) { BoundAtGrows(trace, e, h); }
    forall i: nat, h ensures LiveSince(trace', i, h) <==> LiveSince(trace, i, h) && h != k {
      LiveGrows(trace, e, i, h);
      LiveIsWithin(trace, i, h);
    }
    HasAfterRelease(socks, r);
    forall p | 0 <= p < |socks'| ensures socks'[p] == socks[if p < r then p else p + 1] && socks'[p].key != k {
    }
  }

  lemma HasAfterRelease(socks: seq<Sock>, r: nat)
    requires r < |socks|
    ensures forall h :: Has(socks, h) && h != socks[r].key ==> Has(socks[..r] + socks[r + 1..], h)
  {
    var socks' := socks[..r] + socks[r + 1..];
    forall h | Has(socks, h) && h != socks[r].key ensures Has(socks', h) {
      var p :| 0 <= p < |socks| && socks[p].key == h;
      assert socks'[if p < r then p else p - 1] == socks[p];
    }
  }

  lemma QuietStep(t: Table, op: Op)
    requires Enabled(t, op)
    ensures var (t', e) := Step(t, op);
            && (!e.Bound? && !e.Released? ==> SameKeys(t.socks, t'.socks))
            && (e.Bound? ==> !Has(t.socks, e.key) && t'.socks == [Sock(e.key, [])] + t.socks)
            && (e.Released? ==> op.Release? && e == Released(t.socks[op.index].key, t.socks[op.index].queue)
                                && t'.socks == t.socks[..op.index] + t.socks[op.index + 1..])
  {
  }

  lemma {:induction false} ListIsLive(ops: seq<Op>)
    requires Legal(ops)
    ensures ListsLive(After(ops).0.socks, After(ops).1)
    decreases |ops|
  {
    hide ListsLive, Step;
    if ops == [] {
      assert ListsLive([], []) by { NobodyLive(); }
    } else {
      var front, op := ops[..|ops| - 1], ops[|ops| - 1];
      var (t, trace) := After(front);
      var (t', e) := Step(t, op);
      ListIsLive(front);
      AddressesAreUnique(front);
      QuietStep(t, op);
      if e.Bound? {
        ListsLiveBound(t.socks, trace, e.key);
      } else if e.Released? {
        ListsLiveReleased(t.socks, trace, op.index);
      } else {
        ListsLiveQuiet(t.socks, t'.socks, trace, e);
      }
    }
  }

  lemma NobodyLive()
    ensures ListsLive([], [])
  {
  }

  // The scan's answer, in terms of the history of bindings and releases alone.
  lemma ScanFindsMostRecent(ops: seq<Op>, service: int, k: Key)
    requires Legal(ops)
    ensures var (t, trace) := After(ops);
            var i := Scan(t.socks, service);
            && (MostRecentlyBound(trace, service, k) <==> i < |t.socks| && t.socks[i].key == k)
            && (i == |t.socks| <==> forall j: nat, h :: LiveSince(trace, j, h) ==> h.service != service)
  {
    hide LiveSince, BoundAt, Legal, After;
    ListIsLive(ops);
    var (t, trace) := After(ops);
    var i := Scan(t.socks, service);
    forall j: nat, h | LiveSince(trace, j, h) && h.service == service
      ensures i < |t.socks| && j <= BoundAt(trace, t.socks[i].key)
    {
      var p :| 0 <= p < |t.socks| && t.socks[p].key == h;
      assert i <= p;
    }
    if i < |t.socks| {
      var newest := t.socks[i].key;
      assert LiveSince(trace, BoundAt(trace, newest), newest);
      assert MostRecentlyBound(trace, service, newest);
      if MostRecentlyBound(trace, service, k) {
        var j: nat :| LiveSince(trace, j, k) && forall j': nat, h :: LiveSince(trace, j', h) && h.service == service ==> j' <= j;
        assert j == BoundAt(trace, newest);
        BoundOnce(trace, j, k, newest);
      }
    }
  }

  lemma BoundOnce(trace: seq<Event>, i: nat, k: Key, h: Key)
    requires LiveSince(trace, i, k) && LiveSince(trace, i, h)
    ensures k == h
  {
  }

  // A bundle for a service is queued at an address exactly when that address is the most recently
  // bound live one of the service; with none live it is dropped. The node id plays no part.
  lemma DeliveryGoesToMostRecent(ops: seq<Op>, service: int, payload: Payload, k: Key)
    requires Legal(ops) && service in After(ops).0.pending
    ensures var (t, trace) := After(ops);
            var e := Step(t, Serve(service, Some(payload))).1;
            && (e == Queued(k, payload) <==> MostRecentlyBound(trace, service, k))
            && (e == Unclaimed(service, payload) <==> forall j: nat, h :: LiveSince(trace, j, h) ==> h.service != service)
  {
    hide MostRecentlyBound, LiveSince, Legal, After;
    ScanFindsMostRecent(ops, service, k);
  }
}
