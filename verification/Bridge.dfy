/** The inbound half of the AAP2 bridge (scripts/aap2_bridge/aap2_bridge.py:144-240): bundles taken from
    uD3TN are handed to DTChat over TCP, and uD3TN is told the outcome. Every call the bridge makes into
    its environment is in the trace, with what the environment answered. */
module Bridge {
  import opened Bytes

  type Payload = seq<byte>

  const DELIVER_ATTEMPTS: nat := 12

  // What receive_msg returns: nothing once the session is closed, an ADU, or something else.
  datatype Message = Nothing | Adu(payload: Payload) | Other

  datatype Call =
    | IsSet                        // stop.is_set()
    | Wait                         // stop.wait(..)
    | Setup                        // make_client, connect and configure
    | ReceiveMsg
    | ReceiveAdu                   // reads the announced ADU
    | Connect                      // create_connection to DTChat
    | SendAll(payload: Payload)
    | Shutdown
    | SendStatus(success: bool)
    | Disconnect

  // What a call finds: whether the stop event is set by now, whether the call returns (and does not
  // raise), and the message it returns.
  datatype Answer = Answer(stop: bool, ok: bool, message: Message)

  datatype Event = Event(call: Call, answer: Answer)

  // ---- The protocol, as a monitor of the trace ----

  datatype Phase =
    | Outer | Setting | Retrying   // between sessions
    | Idle | Receiving             // between ADUs
    | Taking(payload: Payload)     // an announced ADU is to be read
    | Holding(payload: Payload, tried: nat) // an ADU is in hand, before an attempt
    | Connecting(payload: Payload, tried: nat)
    | Sending(payload: Payload, tried: nat)
    | Finishing(payload: Payload, tried: nat)
    | Waiting(payload: Payload, tried: nat)
    | Answering(payload: Payload, delivered: bool) // a status is due
    | Closing | Pausing | Resting  // the session is over
    | Stopped

  datatype State = State(phase: Phase, stop: bool)

  function AfterFailure(payload: Payload, tried: nat): Phase {
    if tried + 1 == DELIVER_ATTEMPTS then Answering(payload, false) else Waiting(payload, tried + 1)
  }

  // Where a call leads; the stop event stays set.
  function NextPhase(p: Phase, c: Call, a: Answer, stop: bool): Option<Phase> {
    match (p, c)
    case (Outer, IsSet) => Some(if stop then Stopped else Setting)
    case (Setting, Setup) => Some(if a.ok then Idle else Retrying)
    case (Retrying, Wait) => Some(Outer)
    case (Idle, IsSet) => Some(if stop then Closing else Receiving)
    case (Receiving, ReceiveMsg) =>
      Some(if !a.ok then Closing
           else match a.message case Nothing => Closing case Other => Idle case Adu(payload) => Taking(payload))
    case (Taking(payload), ReceiveAdu) => Some(if a.ok then Holding(payload, 0) else Closing)
    case (Holding(payload, n), IsSet) => Some(if stop then Answering(payload, false) else Connecting(payload, n))
    case (Connecting(payload, n), Connect) => Some(if a.ok then Sending(payload, n) else AfterFailure(payload, n))
    case (Sending(payload, n), SendAll(sent)) =>
      if sent != payload then None else Some(if a.ok then Finishing(payload, n) else AfterFailure(payload, n))
    case (Finishing(payload, n), Shutdown) => Some(if a.ok then Answering(payload, true) else AfterFailure(payload, n))
    case (Waiting(payload, n), Wait) => Some(Holding(payload, n))
    case (Answering(_, delivered), SendStatus(success)) =>
      if success != delivered then None else Some(if a.ok then Idle else Closing)
    case (Closing, Disconnect) => Some(Pausing)
    case (Pausing, IsSet) => Some(if stop then Outer else Resting)
    case (Resting, Wait) => Some(Outer)
    case _ => None
  }

  function Next(s: State, e: Event): Option<State> {
    var stop := s.stop || e.answer.stop;
    match NextPhase(s.phase, e.call, e.answer, stop)
    case None => None
    case Some(p) => Some(State(p, stop))
  }

  function Monitor(trace: seq<Event>): Option<State> {
    if trace == [] then Some(State(Outer, false))
    else match Monitor(trace[..|trace| - 1])
      case None => None
      case Some(s) => Next(s, trace[|trace| - 1])
  }

  lemma MonitorGrows(trace: seq<Event>, e: Event)
    ensures Monitor(trace + [e]) == if Monitor(trace).None? then None else Next(Monitor(trace).value, e)
  {
    assert (trace + [e])[..|trace|] == trace;
  }

  // ---- The bridge ----

  // The environment answers finitely often and then has the stop event set and every call raise.
  const SILENCE: Answer := Answer(true, false, Nothing)

  function Nth(answers: seq<Answer>, i: nat): Answer {
    if i < |answers| then answers[i] else SILENCE
  }

  predicate StopSeen(trace: seq<Event>) {
    exists j :: 0 <= j < |trace| && trace[j].answer.stop
  }

  class World {
    const answers: seq<Answer>
    var stop: bool
    var trace: seq<Event>

    // The trace records the environment's answers one by one, and the stop event is set once one of
    // them has set it.
    ghost predicate Valid()
      reads this
    {
      (forall i :: 0 <= i < |trace| ==> trace[i].answer == Nth(answers, i)) && (stop <==> StopSeen(trace))
    }

    ghost predicate In(p: Phase)
      reads this
    {
      Valid() && Monitor(trace) == Some(State(p, stop))
    }

    // How much the environment has left to say.
    ghost function Left(): nat
      reads this
    {
      if |trace| < |answers| then |answers| - |trace| else 0
    }

    constructor (answers: seq<Answer>)
      ensures this.answers == answers && trace == [] && In(Outer) && !stop
    {
      this.answers, stop, trace := answers, false, [];
    }

    method Do(c: Call) returns (a: Answer)
      requires Valid()
      modifies this
      ensures Valid() && a == Nth(answers, |old(trace)|) && trace == old(trace) + [Event(c, a)]
      ensures stop <==> old(stop) || a.stop
      ensures old(Monitor(trace)).Some? ==> Monitor(trace) == Next(old(Monitor(trace)).value, Event(c, a))
      ensures Left() <= old(Left()) && (Left() == old(Left()) ==> a == SILENCE)
    {
      a := if |trace| < |answers| then answers[|trace|] else SILENCE;
      MonitorGrows(trace, Event(c, a));
      StopGrows(trace, Event(c, a));
      trace := trace + [Event(c, a)];
      stop := stop || a.stop;
    }
  }

  lemma StopGrows(trace: seq<Event>, e: Event)
    ensures StopSeen(trace + [e]) <==> StopSeen(trace) || e.answer.stop
  {
    if StopSeen(trace) {
      var j :| 0 <= j < |trace| && trace[j].answer.stop;
      assert (trace + [e])[j].answer.stop;
    }
    assert (trace + [e])[|trace|] == e;
  }

  // One attempt, from create_connection on.
  method TryOnce(w: World, payload: Payload, ghost tried: nat) returns (ok: bool)
    requires w.In(Connecting(payload, tried))
    modifies w
    ensures w.In(if ok then Answering(payload, true) else AfterFailure(payload, tried))
    ensures old(w.trace) <= w.trace && OnlyForwarding(w.trace[|old(w.trace)|..])
    ensures ok <==> Handed(w.trace[|old(w.trace)|..], payload)
    ensures w.Left() <= old(w.Left())
  {
    hide Monitor, StopSeen, Nth, HandedAt;
    var connected := w.Do(Connect);
    if !connected.ok {
      assert w.trace[|old(w.trace)|..] == [Event(Connect, connected)];
      return false;
    }
    var sent := w.Do(SendAll(payload));
    if !sent.ok {
      assert w.trace[|old(w.trace)|..] == [Event(Connect, connected), Event(SendAll(payload), sent)];
      return false;
    }
    var closed := w.Do(Shutdown);
    assert w.trace[|old(w.trace)|..] == [Event(Connect, connected), Event(SendAll(payload), sent), Event(Shutdown, closed)];
    ThreeCalls(connected, sent, closed, payload);
    return closed.ok;
  }

  lemma ThreeCalls(connected: Answer, sent: Answer, closed: Answer, payload: Payload)
    requires connected.ok && sent.ok
    ensures Handed([Event(Connect, connected), Event(SendAll(payload), sent), Event(Shutdown, closed)], payload) <==> closed.ok
  {
    var tail := [Event(Connect, connected), Event(SendAll(payload), sent), Event(Shutdown, closed)];
    assert HandedAt(tail, 0, payload) <==> closed.ok;
  }

  // With the ADU in hand: true exactly when some attempt's connection, sending and shutdown all returned;
  // false only after twelve attempts or with the stop event set.
  method ForwardInbound(w: World, payload: Payload) returns (delivered: bool)
    requires w.In(Holding(payload, 0)) && w.trace != [] && Done(w.trace[|w.trace| - 1], ReceiveAdu)
    modifies w
    ensures w.In(Answering(payload, delivered)) && old(w.trace) <= w.trace
    ensures var tail := w.trace[|old(w.trace)|..];
            && OnlyForwarding(tail) && Connects(tail) <= 12
            && (delivered <==> Handed(tail, payload))
            && (!delivered ==> Connects(tail) == 12 || w.stop)
    ensures w.Left() <= old(w.Left())
  {
    hide Monitor, StopSeen, Nth, Handed, Count, Connects, OnlyForwarding;
    ForwardingGrows([], Event(Wait, SILENCE));
    assert w.trace[|w.trace|..] == [];
    for attempt := 0 to DELIVER_ATTEMPTS
      invariant w.In(if attempt < DELIVER_ATTEMPTS then Holding(payload, attempt) else Answering(payload, false))
      invariant old(w.trace) <= w.trace && OnlyForwarding(w.trace[|old(w.trace)|..])
      invariant w.Left() <= old(w.Left())
    {
      ghost var top := w.trace;
      var seen := w.Do(IsSet);
      ForwardingOn(old(w.trace), top, Event(IsSet, seen));
      if w.stop {
        Forwarded(w.trace, |old(w.trace)| - 1, payload);
        return false;
      }
      ghost var before := w.trace;
      var ok := TryOnce(w, payload, attempt);
      ForwardingConcat(old(w.trace), before, w.trace);
      if ok {
        Forwarded(w.trace, |old(w.trace)| - 1, payload);
        return true;
      }
      if attempt + 1 < DELIVER_ATTEMPTS {
        ghost var failed := w.trace;
        var waited := w.Do(Wait);
        ForwardingOn(old(w.trace), failed, Event(Wait, waited));
      }
    }
    Forwarded(w.trace, |old(w.trace)| - 1, payload);
    return false;
  }

  // One session's loop, until the session closes, a call raises or the bridge stops.
  method Drain(w: World)
    requires w.In(Idle)
    modifies w
    ensures w.In(Closing) && old(w.trace) <= w.trace
    ensures w.Left() <= old(w.Left())
  {
    hide Monitor, StopSeen, Nth, Handed, Count, Connects, OnlyForwarding, World.Valid;
    while true
      invariant w.In(Idle) && old(w.trace) <= w.trace
      invariant w.Left() <= old(w.Left())
      decreases w.Left()
    {
      var _ := w.Do(IsSet);
      if w.stop {
        return;
      }
      var received := w.Do(ReceiveMsg);
      if !received.ok || received.message == Nothing {
        return;
      }
      if received.message == Other {
        continue;
      }
      var read := w.Do(ReceiveAdu);
      if !read.ok {
        return;
      }
      var delivered := ForwardInbound(w, received.message.payload);
      var answered := w.Do(SendStatus(delivered));
      if !answered.ok {
        return;
      }
    }
  }

  // Sessions one after another until the bridge stops.
  method RunReceiver(w: World)
    requires w.In(Outer)
    modifies w
    ensures w.In(Stopped) && w.stop && old(w.trace) <= w.trace
  {
    hide Monitor, StopSeen, Nth, World.Valid;
    while true
      invariant w.In(Outer) && old(w.trace) <= w.trace
      decreases w.Left()
    {
      var _ := w.Do(IsSet);
      if w.stop {
        return;
      }
      var connected := w.Do(Setup);
      if !connected.ok {
        var _ := w.Do(Wait);
        continue;
      }
      Drain(w);
      EndSession(w);
    }
  }

  method EndSession(w: World)
    requires w.In(Closing)
    modifies w
    ensures w.In(Outer) && old(w.trace) <= w.trace && w.Left() <= old(w.Left())
  {
    hide Monitor, StopSeen, Nth, World.Valid;
    var _ := w.Do(Disconnect);
    var _ := w.Do(IsSet);
    if !w.stop {
      var _ := w.Do(Wait);
    }
  }

  // ---- Handing over, in terms of the calls alone ----

  predicate Done(e: Event, c: Call) {
    e.call == c && e.answer.ok
  }

  // A connection was made, all bytes were sent and the write side was closed, without one of them raising.
  predicate Handed(tail: seq<Event>, payload: Payload) {
    exists j :: 0 <= j && j + 2 < |tail| && HandedAt(tail, j, payload)
  }

  predicate HandedAt(tail: seq<Event>, j: nat, payload: Payload)
    requires j + 2 < |tail|
  {
    Done(tail[j], Connect) && Done(tail[j + 1], SendAll(payload)) && Done(tail[j + 2], Shutdown)
  }

  lemma HandedGrows(tail: seq<Event>, e: Event, payload: Payload)
    ensures Handed(tail + [e], payload)
       <==> Handed(tail, payload)
            || (|tail| >= 2 && Done(tail[|tail| - 2], Connect) && Done(tail[|tail| - 1], SendAll(payload)) && Done(e, Shutdown))
  {
    var t := tail + [e];
    if Handed(tail, payload) {
      var j :| 0 <= j && j + 2 < |tail| && HandedAt(tail, j, payload);
      assert HandedAt(t, j, payload);
    }
    if |tail| >= 2 {
      assert t[|tail| - 2] == tail[|tail| - 2] && t[|tail| - 1] == tail[|tail| - 1];
      assert HandedAt(t, |tail| - 2, payload)
        <==> Done(tail[|tail| - 2], Connect) && Done(tail[|tail| - 1], SendAll(payload)) && Done(e, Shutdown);
    }
    if Handed(t, payload) {
      var j :| 0 <= j && j + 2 < |t| && HandedAt(t, j, payload);
      assert j + 2 < |tail| ==> HandedAt(tail, j, payload);
    }
  }

  function Count(trace: seq<Event>, which: Event -> bool): nat {
    if trace == [] then 0 else Count(trace[..|trace| - 1], which) + if which(trace[|trace| - 1]) then 1 else 0
  }

  function Connects(trace: seq<Event>): nat {
    Count(trace, (e: Event) => e.call == Connect)
  }

  lemma CountGrows(trace: seq<Event>, e: Event, which: Event -> bool)
    ensures Count(trace + [e], which) == Count(trace, which) + if which(e) then 1 else 0
  {
    assert (trace + [e])[..|trace|] == trace;
  }

  predicate IsForwarding(c: Call) {
    c.IsSet? || c.Wait? || c.Connect? || c.SendAll? || c.Shutdown?
  }

  predicate OnlyForwarding(tail: seq<Event>) {
    forall j :: 0 <= j < |tail| ==> IsForwarding(tail[j].call)
  }

  lemma ForwardingOn(start: seq<Event>, trace: seq<Event>, e: Event)
    requires start <= trace && OnlyForwarding(trace[|start|..]) && IsForwarding(e.call)
    ensures start <= trace + [e] && OnlyForwarding((trace + [e])[|start|..])
  {
    hide OnlyForwarding;
    assert (trace + [e])[|start|..] == trace[|start|..] + [e];
    ForwardingGrows(trace[|start|..], e);
  }

  lemma ForwardingConcat(a: seq<Event>, b: seq<Event>, c: seq<Event>)
    requires a <= b <= c && OnlyForwarding(b[|a|..]) && OnlyForwarding(c[|b|..])
    ensures OnlyForwarding(c[|a|..])
  {
    assert c[|a|..] == b[|a|..] + c[|b|..];
  }

  // What the phase says of the calls since the ADU was read.
  predicate Carries(s: State, tail: seq<Event>, payload: Payload) {
    match s.phase
    case Holding(q, n) => q == payload && n < 12 && Connects(tail) == n && !Handed(tail, payload)
    case Connecting(q, n) => q == payload && n < 12 && Connects(tail) == n && !Handed(tail, payload)
    case Waiting(q, n) => q == payload && n < 12 && Connects(tail) == n && !Handed(tail, payload)
    case Sending(q, n) =>
      && q == payload && n < 12 && Connects(tail) == n + 1 && !Handed(tail, payload)
      && tail != [] && Done(tail[|tail| - 1], Connect)
    case Finishing(q, n) =>
      && q == payload && n < 12 && Connects(tail) == n + 1 && !Handed(tail, payload)
      && |tail| >= 2 && Done(tail[|tail| - 2], Connect) && Done(tail[|tail| - 1], SendAll(payload))
    case Answering(q, d) =>
      q == payload && Connects(tail) <= 12 && (Handed(tail, payload) <==> d) && (!d ==> Connects(tail) == 12 || s.stop)
    case _ => false
  }

  lemma CarriesOn(s: State, tail: seq<Event>, payload: Payload, e: Event)
    requires Carries(s, tail, payload) && IsForwarding(e.call) && Next(s, e).Some?
    ensures Carries(Next(s, e).value, tail + [e], payload)
  {
    hide Handed, Count;
    HandedGrows(tail, e, payload);
    CountGrows(tail, e, (x: Event) => x.call == Connect);
    var t := tail + [e];
    assert t[|t| - 1] == e && (tail != [] ==> t[|t| - 2] == tail[|tail| - 1]);
  }

  // Since a was the reading of an ADU and everything after it belongs to forwarding.
  lemma {:induction false} InHand(trace: seq<Event>, a: nat, payload: Payload)
    requires Monitor(trace).Some? && a < |trace| && Done(trace[a], ReceiveAdu) && OnlyForwarding(trace[a + 1..])
    requires Monitor(trace[..a]).Some? && Monitor(trace[..a]).value.phase == Taking(payload)
    ensures Carries(Monitor(trace).value, trace[a + 1..], payload)
    decreases |trace|
  {
    hide Carries;
    var front, e := trace[..|trace| - 1], trace[|trace| - 1];
    if a == |trace| - 1 {
      assert trace[..a] == front && trace[a + 1..] == [];
      NothingCarried(Monitor(trace).value, payload);
    } else {
      assert front[a + 1..] + [e] == trace[a + 1..];
      assert front[..a] == trace[..a];
      ForwardingGrows(front[a + 1..], e);
      InHand(front, a, payload);
      CarriesOn(Monitor(front).value, front[a + 1..], payload, e);
    }
  }

  lemma NothingCarried(s: State, payload: Payload)
    requires s.phase == Holding(payload, 0)
    ensures Carries(s, [], payload)
  {
  }

  lemma Forwarded(trace: seq<Event>, a: nat, payload: Payload)
    requires Monitor(trace).Some? && a < |trace| && Done(trace[a], ReceiveAdu) && OnlyForwarding(trace[a + 1..])
    requires Monitor(trace).value.phase.Answering? && Monitor(trace).value.phase.payload == payload
    ensures var d := Monitor(trace).value.phase.delivered;
            var tail := trace[a + 1..];
            Connects(tail) <= 12 && (Handed(tail, payload) <==> d) && (!d ==> Connects(tail) == 12 || Monitor(trace).value.stop)
  {
    hide Handed, Count;
    PrefixFollows(trace, a);
    PrefixFollows(trace, a + 1);
    assert trace[..a + 1][..a] == trace[..a];
    InHand(trace, a, Monitor(trace[..a]).value.phase.payload);
  }

  // ---- What every trace of the protocol is like ----

  predicate Follows(trace: seq<Event>) {
    Monitor(trace).Some?
  }

  lemma {:induction false} PrefixFollows(trace: seq<Event>, n: nat)
    requires Follows(trace) && n <= |trace|
    ensures Follows(trace[..n])
    decreases |trace|
  {
    if n < |trace| {
      PrefixFollows(trace[..|trace| - 1], n);
      assert trace[..|trace| - 1][..n] == trace[..n];
    } else {
      assert trace[..n] == trace;
    }
  }

  // The state before and after one event.
  lemma StepAt(trace: seq<Event>, i: nat) returns (s: State, s': State)
    requires Follows(trace) && i < |trace|
    ensures Monitor(trace[..i]) == Some(s) && Monitor(trace[..i + 1]) == Some(s') && Next(s, trace[i]) == Some(s')
  {
    PrefixFollows(trace, i);
    PrefixFollows(trace, i + 1);
    assert trace[..i + 1][..i] == trace[..i];
    s, s' := Monitor(trace[..i]).value, Monitor(trace[..i + 1]).value;
  }

  predicate HasAdu(p: Phase) {
    p.Holding? || p.Connecting? || p.Sending? || p.Finishing? || p.Waiting? || p.Answering?
  }

  // An ADU is in hand by being read, or was in hand already.
  lemma AduStays(s: State, e: Event)
    requires Next(s, e).Some? && HasAdu(Next(s, e).value.phase)
    ensures var p := Next(s, e).value.phase;
            if e.call.ReceiveAdu? then e.answer.ok && s.phase == Taking(p.payload)
            else HasAdu(s.phase) && s.phase.payload == p.payload && IsForwarding(e.call)
  {
  }

  // The ADU in hand: announced, read next, and only forwarding since.
  lemma {:induction false} Arrival(trace: seq<Event>) returns (a: nat)
    requires Follows(trace) && HasAdu(Monitor(trace).value.phase)
    ensures 1 <= a < |trace| && Done(trace[a], ReceiveAdu) && OnlyForwarding(trace[a + 1..])
    ensures trace[a - 1].call == ReceiveMsg && trace[a - 1].answer.ok
         && trace[a - 1].answer.message == Adu(Monitor(trace).value.phase.payload)
    decreases |trace|
  {
    hide OnlyForwarding, NextPhase;
    var front, e := trace[..|trace| - 1], trace[|trace| - 1];
    AduStays(Monitor(front).value, e);
    if e.call.ReceiveAdu? {
      a := |trace| - 1;
      LastIsAnnounced(front);
      assert trace[a + 1..] == [];
      ForwardingGrows([], e);
    } else {
      a := Arrival(front);
      assert trace[a + 1..] == front[a + 1..] + [e];
      ForwardingGrows(front[a + 1..], e);
    }
  }

  lemma LastIsAnnounced(trace: seq<Event>)
    requires Follows(trace) && Monitor(trace).value.phase.Taking?
    ensures trace != [] && Done(trace[|trace| - 1], ReceiveMsg)
    ensures trace[|trace| - 1].answer.message == Adu(Monitor(trace).value.phase.payload)
  {
  }

  lemma ForwardingGrows(tail: seq<Event>, e: Event)
    ensures OnlyForwarding(tail + [e]) <==> OnlyForwarding(tail) && IsForwarding(e.call)
    ensures OnlyForwarding([])
  {
    if OnlyForwarding(tail + [e]) {
      assert (tail + [e])[|tail|] == e;
      assert forall j :: 0 <= j < |tail| ==> (tail + [e])[j] == tail[j];
    }
  }

  // SUCCESS is reported if and only if the ADU that arrived last was handed over, by calls that all
  // returned; FAILURE only after twelve attempts or with the stop event set. Between its arrival and its
  // status nothing but its forwarding happens, so statuses and ADUs keep the same order.
  lemma StatusTellsTheTruth(trace: seq<Event>, i: nat) returns (a: nat, payload: Payload)
    requires Follows(trace) && i < |trace| && trace[i].call.SendStatus?
    ensures 1 <= a < i && Done(trace[a], ReceiveAdu) && OnlyForwarding(trace[a + 1..i])
    ensures Done(trace[a - 1], ReceiveMsg) && trace[a - 1].answer.message == Adu(payload)
    ensures trace[i].call.success <==> Handed(trace[a + 1..i], payload)
    ensures !trace[i].call.success ==> Connects(trace[a + 1..i]) == 12 || StopSeen(trace[..i])
    ensures Connects(trace[a + 1..i]) <= 12
  {
    hide Handed, Count;
    var s, s' := StepAt(trace, i);
    a := Arrival(trace[..i]);
    payload := s.phase.payload;
    Forwarded(trace[..i], a, payload);
    assert trace[..i][a + 1..] == trace[a + 1..i];
    StopIsSeen(trace[..i]);
  }

  lemma NothingSeen()
    ensures !StopSeen([])
  {
  }

  lemma {:induction false} StopIsSeen(trace: seq<Event>)
    requires Follows(trace)
    ensures Monitor(trace).value.stop <==> StopSeen(trace)
    decreases |trace|
  {
    hide StopSeen, NextPhase;
    if trace == [] {
      NothingSeen();
    } else {
      StopIsSeen(trace[..|trace| - 1]);
      StopGrows(trace[..|trace| - 1], trace[|trace| - 1]);
      assert trace[..|trace| - 1] + [trace[|trace| - 1]] == trace;
    }
  }

  // Whatever is announced is read next, whatever is read is dealt with, and a keepalive only leads back
  // to the top of the loop.
  lemma WhatFollows(trace: seq<Event>, i: nat)
    requires Follows(trace) && i + 1 < |trace|
    ensures Done(trace[i], ReceiveMsg) && trace[i].answer.message.Adu? ==> trace[i + 1].call == ReceiveAdu
    ensures Done(trace[i], ReceiveMsg) && trace[i].answer.message.Other? ==> trace[i + 1].call == IsSet
    ensures Done(trace[i], ReceiveAdu) ==> trace[i + 1].call == IsSet
    ensures Done(trace[i], Shutdown) ==> trace[i + 1].call == SendStatus(true)
    ensures trace[i].call.SendStatus? && trace[i].answer.ok ==> trace[i + 1].call == IsSet
  {
    hide Monitor;
    var s0, s1 := StepAt(trace, i);
    var s1', s2 := StepAt(trace, i + 1);
  }

  predicate Attempting(c: Call) {
    c == Connect || c.SendAll? || c == Shutdown
  }

  // After a failed attempt the bridge waits, unless it was the last; after a failed setup it waits too.
  lemma WaitsAfterFailure(trace: seq<Event>, i: nat)
    requires Follows(trace) && i + 1 < |trace| && !trace[i].answer.ok
    ensures Attempting(trace[i].call) ==> trace[i + 1].call == Wait || trace[i + 1].call == SendStatus(false)
    ensures trace[i].call == Setup ==> trace[i + 1].call == Wait
  {
    hide Monitor;
    var s0, s1 := StepAt(trace, i);
    var s1', s2 := StepAt(trace, i + 1);
  }

  // Between sessions it looks at the stop event and, if that is not set, waits.
  lemma WaitsBetweenSessions(trace: seq<Event>, i: nat)
    requires Follows(trace) && i + 2 < |trace| && trace[i].call == Disconnect
    ensures trace[i + 1].call == IsSet && (!StopSeen(trace[..i + 2]) ==> trace[i + 2].call == Wait)
  {
    hide Monitor, StopSeen;
    var s0, s1 := StepAt(trace, i);
    var s1', s2 := StepAt(trace, i + 1);
    PrefixFollows(trace, i + 2);
    StopIsSeen(trace[..i + 2]);
    var s2', s3 := StepAt(trace, i + 2);
  }

  // No connection is tried without a look at the stop event right before, which finds it not set.
  lemma LooksBeforeConnecting(trace: seq<Event>, i: nat)
    requires Follows(trace) && i < |trace| && trace[i].call == Connect
    ensures i > 0 && trace[i - 1].call == IsSet && !StopSeen(trace[..i])
  {
    hide StopSeen;
    var s0, s1 := StepAt(trace, i);
    CheckedBefore(trace[..i]);
  }

  lemma CheckedBefore(trace: seq<Event>)
    requires Follows(trace) && Monitor(trace).value.phase.Connecting?
    ensures trace != [] && trace[|trace| - 1].call == IsSet && !StopSeen(trace)
  {
    hide StopSeen;
    StopIsSeen(trace);
  }

  // A session ends only because the stop event is set, uD3TN closed it, or a call raised.
  lemma SessionEnds(trace: seq<Event>, i: nat)
    requires Follows(trace) && i < |trace| && trace[i].call == Disconnect
    ensures i > 0
    ensures var last := trace[i - 1];
            || (last.call == IsSet && StopSeen(trace[..i]))
            || (last.call == ReceiveMsg && (!last.answer.ok || last.answer.message == Nothing))
            || ((last.call == ReceiveAdu || last.call.SendStatus?) && !last.answer.ok)
  {
    var s1, s2 := StepAt(trace, i);
    if i > 0 {
      var s0, s1' := StepAt(trace, i - 1);
      StopIsSeen(trace[..i]);
    }
  }

  // ---- Counting over whole traces ----

  predicate Announces(e: Event) { Done(e, ReceiveMsg) && e.answer.message.Adu? }

  predicate Arrives(e: Event) { Done(e, ReceiveAdu) }

  predicate Answers(e: Event) { e.call.SendStatus? && e.answer.ok }

  // A raised call that leaves an announced ADU without a status.
  predicate Fails(e: Event) { (e.call == ReceiveAdu || e.call.SendStatus?) && !e.answer.ok }

  predicate Begins(e: Event) { Done(e, Setup) }

  function Owed(p: Phase): nat {
    if p.Taking? || HasAdu(p) then 1 else 0
  }

  lemma StepAccounts(s: State, e: Event)
    requires Next(s, e).Some?
    ensures Owed(s.phase) + (if Announces(e) then 1 else 0)
         == Owed(Next(s, e).value.phase) + (if Answers(e) then 1 else 0) + if Fails(e) then 1 else 0
  {
  }

  // Every announced ADU was given its own status, or was cut off by a call that raised, or is being dealt
  // with.
  lemma {:induction false} EachAduIsAccountedFor(trace: seq<Event>)
    requires Follows(trace)
    ensures Count(trace, Announces) == Count(trace, Answers) + Count(trace, Fails) + Owed(Monitor(trace).value.phase)
    decreases |trace|
  {
    hide Count, NextPhase, Announces, Answers, Fails;
    if trace == [] {
      CountNothing(Announces);
      CountNothing(Answers);
      CountNothing(Fails);
    } else {
      var front, e := trace[..|trace| - 1], trace[|trace| - 1];
      EachAduIsAccountedFor(front);
      StepAccounts(Monitor(front).value, e);
      CountGrows(front, e, Announces);
      CountGrows(front, e, Answers);
      CountGrows(front, e, Fails);
      assert front + [e] == trace;
    }
  }

  // And a session is cut off at most once.
  lemma {:induction false} AtMostOneCutOffPerSession(trace: seq<Event>)
    requires Follows(trace)
    ensures var p := Monitor(trace).value.phase;
            Count(trace, Fails) + (if p.Idle? || p.Receiving? || p.Taking? || HasAdu(p) then 1 else 0) <= Count(trace, Begins)
    decreases |trace|
  {
    if trace != [] {
      AtMostOneCutOffPerSession(trace[..|trace| - 1]);
    }
  }

  // Over all sessions, at most twelve connections for each ADU that arrived.
  lemma {:induction false} ConnectionsAreBounded(trace: seq<Event>)
    requires Follows(trace)
    ensures Connects(trace) <= 12 * Count(trace, Arrives)
    ensures Tried(Monitor(trace).value.phase).Some? ==>
              Count(trace, Arrives) > 0
              && Connects(trace) <= 12 * (Count(trace, Arrives) - 1) + Tried(Monitor(trace).value.phase).value
    decreases |trace|
  {
    hide Count, NextPhase, Arrives;
    if trace == [] {
      CountNothing(Arrives);
      CountNothing((e: Event) => e.call == Connect);
    } else {
      var front, e := trace[..|trace| - 1], trace[|trace| - 1];
      ConnectionsAreBounded(front);
      TriesAreBounded(front);
      StepTries(Monitor(front).value, e);
      CountGrows(front, e, Arrives);
      CountGrows(front, e, (x: Event) => x.call == Connect);
      assert front + [e] == trace;
    }
  }

  lemma StepTries(s: State, e: Event)
    requires Next(s, e).Some? && (Tried(s.phase).Some? ==> Tried(s.phase).value <= 12)
    requires s.phase.Connecting? ==> s.phase.tried < 12
    ensures var before, after := Tried(s.phase), Tried(Next(s, e).value.phase);
            && (after.Some? ==> Arrives(e) || before.Some?)
            && (e.call == Connect ==> before.Some? && before.value < 12)
            && (Arrives(e) ==> after == Some(0) && e.call != Connect)
            && (after.Some? && before.Some? && !Arrives(e) ==> after.value == before.value + if e.call == Connect then 1 else 0)
  {
  }

  lemma CountNothing(which: Event -> bool)
    ensures Count([], which) == 0
  {
  }

  lemma {:induction false} TriesAreBounded(trace: seq<Event>)
    requires Follows(trace)
    ensures var p := Monitor(trace).value.phase;
            && (p.Holding? || p.Connecting? || p.Waiting? || p.Sending? || p.Finishing? ==> p.tried < 12)
            && (Tried(p).Some? ==> Tried(p).value <= 12)
    decreases |trace|
  {
    if trace != [] {
      TriesAreBounded(trace[..|trace| - 1]);
    }
  }

  // The attempts made for the ADU in hand.
  function Tried(p: Phase): Option<nat> {
    match p
    case Holding(_, n) => Some(n)
    case Connecting(_, n) => Some(n)
    case Waiting(_, n) => Some(n)
    case Sending(_, n) => Some(n + 1)
    case Finishing(_, n) => Some(n + 1)
    case _ => None
  }
}
