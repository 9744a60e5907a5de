/** The ordered message list of `ChatModel` in src/app.rs. */
module ChatModels {
  import opened Bytes
  import opened Messages

  datatype Ordering = Less | Equal | Greater

  datatype SortStrategy = Standard | Relative(peer: Peer)

  // AppEvent, with the text the observers get.
  datatype Event = ErrorEvent(text: seq<byte>) | SentEvent(text: seq<byte>) | ReceivedEvent(text: seq<byte>)

  datatype Direction = Outbound | Inbound

  function Compare(a: int, b: int): Ordering {
    if a < b then Less else if a == b then Equal else Greater
  }

  // When the local node learned of a message.
  function ArrivalTime(m: ChatMessage): Time {
    match m.status case Sent(tx, _) => tx case Received(_, rx) => rx
  }

  function StandardCmp(a: ChatMessage, b: ChatMessage): Ordering {
    var first := Compare(ArrivalTime(a), ArrivalTime(b));
    if first == Equal then Compare(a.status.tx, b.status.tx) else first
  }

  // When a message happened from one peer's point of view.
  function Anchor(m: ChatMessage, ctx: Str): Time {
    match m.status
    case Sent(tx, _) => tx
    case Received(tx, rx) => if m.sender.uuid == ctx then tx else rx
  }

  function RelativeCmp(a: ChatMessage, b: ChatMessage, ctx: Str): Ordering {
    Compare(Anchor(a, ctx), Anchor(b, ctx))
  }

  function Cmp(s: SortStrategy, a: ChatMessage, b: ChatMessage): Ordering {
    match s
    case Standard => StandardCmp(a, b)
    case Relative(peer) => RelativeCmp(a, b, peer.uuid)
  }

  predicate Sorted(s: SortStrategy, ms: seq<ChatMessage>) {
    forall i, j :: 0 <= i < j < |ms| ==> Cmp(s, ms[i], ms[j]) != Greater
  }

  // Both comparators are total preorders.
  lemma CmpIsTotalPreorder(s: SortStrategy, a: ChatMessage, b: ChatMessage, c: ChatMessage)
    ensures Cmp(s, a, a) == Equal
    ensures Cmp(s, a, b) == Less <==> Cmp(s, b, a) == Greater
    ensures Cmp(s, a, b) != Greater && Cmp(s, b, c) != Greater ==> Cmp(s, a, c) != Greater
    ensures Cmp(s, a, b) == Equal ==> Cmp(s, a, c) == Cmp(s, b, c) && Cmp(s, c, a) == Cmp(s, c, b)
  {
  }

  // ---- Binary search ----

  // ---- What the orders are ----

  // In arrival order: a received message counts from when it was received, one of ours from when it was
  // sent; ties are broken by the sending times.
  ghost predicate InArrivalOrder(a: ChatMessage, b: ChatMessage) {
    match (a.status, b.status)
    case (Sent(tx, _), Sent(tx', _)) => tx <= tx'
    case (Sent(tx, _), Received(tx', rx')) => tx < rx' || (tx == rx' && tx <= tx')
    case (Received(tx, rx), Sent(tx', _)) => rx < tx' || (rx == tx' && tx <= tx')
    case (Received(tx, rx), Received(tx', rx')) => rx < rx' || (rx == rx' && tx <= tx')
  }

  // As p saw it: what p sent counts from when it was sent, what else was received from when it was
  // received, what we sent from when it was sent.
  ghost predicate InOrderOf(p: Str, a: ChatMessage, b: ChatMessage) {
    match (a.status, b.status)
    case (Sent(tx, _), Sent(tx', _)) => tx <= tx'
    case (Sent(tx, _), Received(tx', rx')) => if b.sender.uuid == p then tx <= tx' else tx <= rx'
    case (Received(tx, rx), Sent(tx', _)) => if a.sender.uuid == p then tx <= tx' else rx <= tx'
    case (Received(tx, rx), Received(tx', rx')) =>
      if a.sender.uuid == p && b.sender.uuid == p then tx <= tx'
      else if a.sender.uuid == p then tx <= rx'
      else if b.sender.uuid == p then rx <= tx'
      else rx <= rx'
  }

  // A list is in Standard order exactly when it is in arrival order, and in Relative(p) order exactly
  // when it is as p saw it.
  lemma SortedExact(ms: seq<ChatMessage>, p: Peer)
    ensures Sorted(Standard, ms) <==> forall i, j :: 0 <= i < j < |ms| ==> InArrivalOrder(ms[i], ms[j])
    ensures Sorted(Relative(p), ms) <==> forall i, j :: 0 <= i < j < |ms| ==> InOrderOf(p.uuid, ms[i], ms[j])
  {
    hide Cmp;
    forall a, b ensures (Cmp(Standard, a, b) != Greater <==> InArrivalOrder(a, b))
                     && (Cmp(Relative(p), a, b) != Greater <==> InOrderOf(p.uuid, a, b)) {
      CmpExact(a, b, p);
    }
  }

  lemma CmpExact(a: ChatMessage, b: ChatMessage, p: Peer)
    ensures Cmp(Standard, a, b) != Greater <==> InArrivalOrder(a, b)
    ensures Cmp(Relative(p), a, b) != Greater <==> InOrderOf(p.uuid, a, b)
  {
  }

  // The standard library's search: halve [base, base + size) until one candidate is left. Returns
  // the position the new message is inserted at, for a hit as well as for a miss.
  function SearchFrom(s: SortStrategy, ms: seq<ChatMessage>, x: ChatMessage, base: nat, size: nat): (idx: nat)
    requires 0 < size && base + size <= |ms|
    ensures base <= idx <= base + size
    decreases size
  {
    if size == 1 then
      if Cmp(s, ms[base], x) == Less then base + 1 else base
    else
      var half := size / 2;
      var mid := base + half;
      SearchFrom(s, ms, x, if Cmp(s, ms[mid], x) == Greater then base else mid, size - half)
  }

  function InsertionPoint(s: SortStrategy, ms: seq<ChatMessage>, x: ChatMessage): (idx: nat)
    ensures idx <= |ms|
  {
    if ms == [] then 0 else SearchFrom(s, ms, x, 0, |ms|)
  }

  method BinarySearch(s: SortStrategy, ms: seq<ChatMessage>, x: ChatMessage) returns (idx: nat)
    ensures idx == InsertionPoint(s, ms, x)
  {
    hide Cmp;
    var size := |ms|;
    if size == 0 {
      return 0;
    }
    var base := 0;
    while size > 1
      invariant 0 < size && base + size <= |ms|
      invariant SearchFrom(s, ms, x, base, size) == InsertionPoint(s, ms, x)
      decreases size
    {
      var half := size / 2;
      var mid := base + half;
      if Cmp(s, ms[mid], x) != Greater {
        base := mid;
      }
      size := size - half;
    }
    if Cmp(s, ms[base], x) == Less {
      return base + 1;
    }
    return base;
  }

  // Everything before the position is not greater, everything from it on is not less.
  ghost predicate Splits(s: SortStrategy, ms: seq<ChatMessage>, x: ChatMessage, idx: nat) {
    && idx <= |ms|
    && (forall i :: 0 <= i < idx ==> Cmp(s, ms[i], x) != Greater)
    && (forall i :: idx <= i < |ms| ==> Cmp(s, ms[i], x) != Less)
  }

  lemma GreaterFrom(s: SortStrategy, ms: seq<ChatMessage>, x: ChatMessage, mid: nat)
    requires mid < |ms| && Sorted(s, ms) && Cmp(s, ms[mid], x) == Greater
    ensures forall i :: mid <= i < |ms| ==> Cmp(s, ms[i], x) == Greater
  {
    hide Cmp;
    forall i | mid <= i < |ms| ensures Cmp(s, ms[i], x) == Greater {
      if i > mid { CmpIsTotalPreorder(s, ms[mid], ms[i], x); }
    }
  }

  lemma NotGreaterUpTo(s: SortStrategy, ms: seq<ChatMessage>, x: ChatMessage, mid: nat)
    requires mid < |ms| && Sorted(s, ms) && Cmp(s, ms[mid], x) != Greater
    ensures forall i :: 0 <= i <= mid ==> Cmp(s, ms[i], x) != Greater
  {
    hide Cmp;
    forall i | 0 <= i < mid ensures Cmp(s, ms[i], x) != Greater {
      CmpIsTotalPreorder(s, ms[i], ms[mid], x);
    }
  }

  lemma {:induction false} SearchFromSplits(s: SortStrategy, ms: seq<ChatMessage>, x: ChatMessage, base: nat, size: nat)
    requires 0 < size && base + size <= |ms| && Sorted(s, ms)
    requires forall i :: 0 <= i < base ==> Cmp(s, ms[i], x) != Greater
    requires base > 0 ==> Cmp(s, ms[base], x) != Greater
    requires forall i :: base + size <= i < |ms| ==> Cmp(s, ms[i], x) == Greater
    ensures Splits(s, ms, x, SearchFrom(s, ms, x, base, size))
    decreases size
  {
    hide Cmp, Sorted, Splits;
    if size > 1 {
      var half := size / 2;
      var mid := base + half;
      if Cmp(s, ms[mid], x) == Greater {
        GreaterFrom(s, ms, x, mid);
        SearchFromSplits(s, ms, x, base, size - half);
      } else {
        NotGreaterUpTo(s, ms, x, mid);
        SearchFromSplits(s, ms, x, mid, size - half);
      }
    } else {
      OneLeft(s, ms, x, base);
    }
  }

  lemma OneLeft(s: SortStrategy, ms: seq<ChatMessage>, x: ChatMessage, base: nat)
    requires base < |ms|
    requires forall i :: 0 <= i < base ==> Cmp(s, ms[i], x) != Greater
    requires forall i :: base < i < |ms| ==> Cmp(s, ms[i], x) == Greater
    ensures Splits(s, ms, x, if Cmp(s, ms[base], x) == Less then base + 1 else base)
  {
    hide Cmp;
  }

  function InsertAt(ms: seq<ChatMessage>, idx: nat, x: ChatMessage): seq<ChatMessage>
    requires idx <= |ms|
  {
    ms[..idx] + [x] + ms[idx..]
  }

  function AddTo(s: SortStrategy, ms: seq<ChatMessage>, x: ChatMessage): seq<ChatMessage> {
    InsertAt(ms, InsertionPoint(s, ms, x), x)
  }

  lemma InsertAtSplitKeepsOrder(s: SortStrategy, ms: seq<ChatMessage>, x: ChatMessage, idx: nat)
    requires Sorted(s, ms) && Splits(s, ms, x, idx)
    ensures Sorted(s, InsertAt(ms, idx, x))
  {
    var r := InsertAt(ms, idx, x);
    forall i, j | 0 <= i < j < |r| ensures Cmp(s, r[i], r[j]) != Greater {
      if i == idx {
        assert Cmp(s, ms[j - 1], x) != Less;
      }
    }
  }

  lemma InsertAtContents(ms: seq<ChatMessage>, idx: nat, x: ChatMessage)
    requires idx <= |ms|
    ensures multiset(InsertAt(ms, idx, x)) == multiset(ms) + multiset{x}
  {
    assert ms == ms[..idx] + ms[idx..];
  }

  // Adding keeps the list sorted, and adds exactly the one message.
  lemma AddKeepsOrder(s: SortStrategy, ms: seq<ChatMessage>, x: ChatMessage)
    requires Sorted(s, ms)
    ensures Sorted(s, AddTo(s, ms, x))
    ensures multiset(AddTo(s, ms, x)) == multiset(ms) + multiset{x}
  {
    if ms != [] {
      SearchFromSplits(s, ms, x, 0, |ms|);
    }
    InsertAtSplitKeepsOrder(s, ms, x, InsertionPoint(s, ms, x));
    InsertAtContents(ms, InsertionPoint(s, ms, x), x);
  }

  // ---- Stable sorting ----

  function InsertStable(s: SortStrategy, x: ChatMessage, ms: seq<ChatMessage>): seq<ChatMessage> {
    if ms == [] || Cmp(s, x, ms[0]) != Greater then [x] + ms
    else [ms[0]] + InsertStable(s, x, ms[1..])
  }

  // The one stable sort there is (see StableSortIsUnique): `slice::sort_by`.
  function StableSort(s: SortStrategy, ms: seq<ChatMessage>): seq<ChatMessage> {
    if ms == [] then [] else InsertStable(s, ms[0], StableSort(s, ms[1..]))
  }

  // The messages that compare equal to k, in list order.
  function EqualTo(s: SortStrategy, k: ChatMessage, ms: seq<ChatMessage>): seq<ChatMessage> {
    if ms == [] then []
    else (if Cmp(s, ms[0], k) == Equal then [ms[0]] else []) + EqualTo(s, k, ms[1..])
  }

  ghost predicate SameWithinTies(s: SortStrategy, a: seq<ChatMessage>, b: seq<ChatMessage>) {
    forall k :: EqualTo(s, k, a) == EqualTo(s, k, b)
  }

  lemma {:induction false} InsertStableContents(s: SortStrategy, x: ChatMessage, ms: seq<ChatMessage>)
    ensures multiset(InsertStable(s, x, ms)) == multiset(ms) + multiset{x}
    decreases |ms|
  {
    hide Cmp;
    if ms != [] {
      InsertStableContents(s, x, ms[1..]);
      assert ms == [ms[0]] + ms[1..];
    }
  }

  lemma {:induction false} InsertStableSorts(s: SortStrategy, x: ChatMessage, ms: seq<ChatMessage>)
    requires Sorted(s, ms)
    ensures Sorted(s, InsertStable(s, x, ms))
    decreases |ms|
  {
    hide Cmp, Sorted;
    if ms == [] {
      NothingYet(s);
      NothingBelow(s, x, []);
    } else if Cmp(s, x, ms[0]) != Greater {
      FirstIsLeast(s, x, ms);
      NothingBelow(s, x, ms);
    } else {
      var tail := InsertStable(s, x, ms[1..]);
      TailSorted(s, ms);
      InsertStableSorts(s, x, ms[1..]);
      InsertStableContents(s, x, ms[1..]);
      CmpIsTotalPreorder(s, x, ms[0], x);
      forall j | 0 <= j < |tail| ensures Cmp(s, ms[0], tail[j]) != Greater {
        assert tail[j] in multiset(tail);
        assert tail[j] == x || tail[j] in ms[1..];
      }
      NothingBelow(s, ms[0], tail);
    }
  }

  lemma NothingYet(s: SortStrategy)
    ensures Sorted(s, [])
  {
  }

  lemma NothingBelow(s: SortStrategy, x: ChatMessage, ms: seq<ChatMessage>)
    requires Sorted(s, ms) && forall j :: 0 <= j < |ms| ==> Cmp(s, x, ms[j]) != Greater
    ensures Sorted(s, [x] + ms)
  {
    hide Cmp;
  }

  lemma TailSorted(s: SortStrategy, ms: seq<ChatMessage>)
    requires ms != [] && Sorted(s, ms)
    ensures Sorted(s, ms[1..]) && forall m :: m in ms[1..] ==> Cmp(s, ms[0], m) != Greater
  {
    hide Cmp;
  }

  lemma FirstIsLeast(s: SortStrategy, x: ChatMessage, ms: seq<ChatMessage>)
    requires ms != [] && Sorted(s, ms) && Cmp(s, x, ms[0]) != Greater
    ensures forall j :: 0 <= j < |ms| ==> Cmp(s, x, ms[j]) != Greater
  {
    hide Cmp;
    forall j | 0 <= j < |ms| ensures Cmp(s, x, ms[j]) != Greater {
      if j > 0 { CmpIsTotalPreorder(s, x, ms[0], ms[j]); }
    }
  }

  lemma {:induction false} InsertStableTies(s: SortStrategy, k: ChatMessage, x: ChatMessage, ms: seq<ChatMessage>)
    ensures EqualTo(s, k, InsertStable(s, x, ms)) == EqualTo(s, k, [x] + ms)
    decreases |ms|
  {
    hide Cmp;
    assert ([x] + ms)[1..] == ms;
    if ms != [] && Cmp(s, x, ms[0]) == Greater {
      var tail := InsertStable(s, x, ms[1..]);
      InsertStableTies(s, k, x, ms[1..]);
      assert ([x] + ms[1..])[1..] == ms[1..];
      assert ([ms[0]] + tail)[1..] == tail;
      if Cmp(s, x, k) == Equal && Cmp(s, ms[0], k) == Equal { TiesAreTied(s, k, x, ms[0]); }
    }
  }

  lemma TiesAreTied(s: SortStrategy, k: ChatMessage, x: ChatMessage, y: ChatMessage)
    requires Cmp(s, x, k) == Equal && Cmp(s, y, k) == Equal
    ensures Cmp(s, x, y) == Equal
  {
  }

  lemma {:induction false} StableSortCorrect(s: SortStrategy, ms: seq<ChatMessage>)
    ensures Sorted(s, StableSort(s, ms)) && multiset(StableSort(s, ms)) == multiset(ms)
    ensures SameWithinTies(s, StableSort(s, ms), ms)
    decreases |ms|
  {
    hide Cmp;
    if ms != [] {
      var tail := StableSort(s, ms[1..]);
      StableSortCorrect(s, ms[1..]);
      InsertStableSorts(s, ms[0], tail);
      InsertStableContents(s, ms[0], tail);
      assert ms == [ms[0]] + ms[1..];
      forall k ensures EqualTo(s, k, StableSort(s, ms)) == EqualTo(s, k, ms) {
        InsertStableTies(s, k, ms[0], tail);
        assert ([ms[0]] + tail)[1..] == tail;
        assert EqualTo(s, k, tail) == EqualTo(s, k, ms[1..]);
      }
    }
  }

  lemma {:induction false} EqualToMembers(s: SortStrategy, k: ChatMessage, ms: seq<ChatMessage>)
    ensures forall m :: m in EqualTo(s, k, ms) <==> m in ms && Cmp(s, m, k) == Equal
    decreases |ms|
  {
    if ms != [] {
      EqualToMembers(s, k, ms[1..]);
      assert ms == [ms[0]] + ms[1..];
    }
  }

  // A sorted list is determined by what it holds of every tie, in order.
  lemma {:induction false} SortedByTies(s: SortStrategy, a: seq<ChatMessage>, b: seq<ChatMessage>)
    requires Sorted(s, a) && Sorted(s, b) && SameWithinTies(s, a, b)
    ensures a == b
    decreases |a|
  {
    if a == [] {
      if b != [] {
        EqualToMembers(s, b[0], b);
        CmpIsTotalPreorder(s, b[0], b[0], b[0]);
        var none := EqualTo(s, b[0], a);
        assert false;
      }
    } else {
      HeadsTie(s, a, b);
      var k := a[0];
      assert EqualTo(s, k, a) == EqualTo(s, k, b);
      assert EqualTo(s, k, a)[0] == a[0] && EqualTo(s, k, b)[0] == b[0];
      forall c ensures EqualTo(s, c, a[1..]) == EqualTo(s, c, b[1..]) {
        assert EqualTo(s, c, a) == EqualTo(s, c, b);
        var head := if Cmp(s, a[0], c) == Equal then [a[0]] else [];
        assert EqualTo(s, c, a) == head + EqualTo(s, c, a[1..]);
        assert EqualTo(s, c, b) == head + EqualTo(s, c, b[1..]);
        assert EqualTo(s, c, a)[|head|..] == EqualTo(s, c, b)[|head|..];
        assert (head + EqualTo(s, c, a[1..]))[|head|..] == EqualTo(s, c, a[1..]);
        assert (head + EqualTo(s, c, b[1..]))[|head|..] == EqualTo(s, c, b[1..]);
      }
      SortedByTies(s, a[1..], b[1..]);
      assert a == [a[0]] + a[1..] && b == [b[0]] + b[1..];
    }
  }

  lemma HeadsTie(s: SortStrategy, a: seq<ChatMessage>, b: seq<ChatMessage>)
    requires Sorted(s, a) && Sorted(s, b) && SameWithinTies(s, a, b) && a != []
    ensures b != [] && Cmp(s, a[0], a[0]) == Equal && Cmp(s, b[0], a[0]) == Equal
  {
    CmpIsTotalPreorder(s, a[0], a[0], a[0]);
    EqualToMembers(s, a[0], a);
    EqualToMembers(s, a[0], b);
    assert EqualTo(s, a[0], a) == EqualTo(s, a[0], b);
    assert a[0] in b;
    CmpIsTotalPreorder(s, b[0], b[0], b[0]);
    EqualToMembers(s, b[0], a);
    EqualToMembers(s, b[0], b);
    assert EqualTo(s, b[0], a) == EqualTo(s, b[0], b);
    assert b[0] in a;
    CmpIsTotalPreorder(s, a[0], b[0], a[0]);
  }

  // Any sorted rearrangement that keeps ties in order is the result of StableSort.
  lemma StableSortIsUnique(s: SortStrategy, ms: seq<ChatMessage>, r: seq<ChatMessage>)
    ensures r == StableSort(s, ms) <==> Sorted(s, r) && SameWithinTies(s, r, ms)
  {
    StableSortCorrect(s, ms);
    if Sorted(s, r) && SameWithinTies(s, r, ms) {
      forall k ensures EqualTo(s, k, r) == EqualTo(s, k, StableSort(s, ms)) {
        assert EqualTo(s, k, r) == EqualTo(s, k, ms);
      }
      SortedByTies(s, r, StableSort(s, ms));
    }
  }

  lemma SortingSortedIsIdentity(s: SortStrategy, ms: seq<ChatMessage>)
    requires Sorted(s, ms)
    ensures StableSort(s, ms) == ms
  {
    StableSortIsUnique(s, ms, ms);
  }

  // ---- Switching the strategy ----

  lemma {:induction false} TiesKeepOrder(s: SortStrategy, t: SortStrategy, k: ChatMessage, ms: seq<ChatMessage>)
    requires Sorted(t, ms)
    ensures Sorted(t, EqualTo(s, k, ms))
    decreases |ms|
  {
    hide Cmp, Sorted;
    if ms == [] {
      NothingYet(t);
    } else {
      var tail := EqualTo(s, k, ms[1..]);
      TailSorted(t, ms);
      TiesKeepOrder(s, t, k, ms[1..]);
      EqualToMembers(s, k, ms[1..]);
      NothingBelow(t, ms[0], tail);
      assert [] + tail == tail;
    }
  }

  // Two tied messages lie among their ties in the same order as in the list.
  lemma {:induction false} PairAmongTies(s: SortStrategy, k: ChatMessage, ms: seq<ChatMessage>, i: nat, j: nat)
      returns (i': nat, j': nat)
    requires i < j < |ms| && Cmp(s, ms[i], k) == Equal && Cmp(s, ms[j], k) == Equal
    ensures i' < j' < |EqualTo(s, k, ms)|
    ensures EqualTo(s, k, ms)[i'] == ms[i] && EqualTo(s, k, ms)[j'] == ms[j]
    decreases |ms|
  {
    hide Cmp;
    if i == 0 {
      EqualToMembers(s, k, ms[1..]);
      assert ms[1..][j - 1] == ms[j] && ms[j] in EqualTo(s, k, ms[1..]);
      var n :| 0 <= n < |EqualTo(s, k, ms[1..])| && EqualTo(s, k, ms[1..])[n] == ms[j];
      i', j' := 0, n + 1;
    } else {
      i', j' := PairAmongTies(s, k, ms[1..], i - 1, j - 1);
      if Cmp(s, ms[0], k) == Equal {
        i', j' := i' + 1, j' + 1;
      }
    }
  }

  // From Standard to Relative(p): ordered by p's anchor, then by arrival, then by sending time.
  lemma StandardThenRelative(ms: seq<ChatMessage>, p: Peer, i: nat, j: nat)
    requires Sorted(Standard, ms) && i < j < |ms|
    ensures var r := StableSort(Relative(p), ms);
            && |r| == |ms|
            && (RelativeCmp(r[i], r[j], p.uuid) == Less
                || (RelativeCmp(r[i], r[j], p.uuid) == Equal && StandardCmp(r[i], r[j]) != Greater))
  {
    var s := Relative(p);
    var r := StableSort(s, ms);
    StableSortCorrect(s, ms);
    assert |r| == |multiset(r)| == |ms|;
    assert Cmp(s, r[i], r[j]) != Greater;
    if Cmp(s, r[i], r[j]) == Equal {
      CmpIsTotalPreorder(s, r[i], r[j], r[i]);
      var k := r[i];
      var i', j' := PairAmongTies(s, k, r, i, j);
      TiesKeepOrder(s, Standard, k, ms);
      assert EqualTo(s, k, r) == EqualTo(s, k, ms);
      assert Cmp(Standard, EqualTo(s, k, ms)[i'], EqualTo(s, k, ms)[j']) != Greater;
    }
  }

  // What the user sees after choosing p: every two messages stand in the order of the times p had for
  // them. Those of p count from p's sending, others received from their arrival here, ours from our
  // sending.
  lemma RelativeOrder(ms: seq<ChatMessage>, p: Peer, i: nat, j: nat)
    requires i < |ms| && j < |ms|
    ensures var r := StableSort(Relative(p), ms);
            && |r| == |ms|
            && var (a, b) := (r[i], r[j]);
               && (a.status.Received? && a.sender.uuid == p.uuid ==>
                    && (b.status.Received? && b.sender.uuid != p.uuid ==>
                          (a.status.tx < b.status.rx ==> i < j) && (b.status.rx < a.status.tx ==> j < i))
                    && (b.status.Received? && b.sender.uuid == p.uuid && a.status.tx < b.status.tx ==> i < j)
                    && (b.status.Sent? ==>
                          (a.status.tx < b.status.tx ==> i < j) && (b.status.tx < a.status.tx ==> j < i)))
               && (a.status.Received? && a.sender.uuid != p.uuid ==>
                    && (b.status.Received? && b.sender.uuid != p.uuid && a.status.rx < b.status.rx ==> i < j)
                    && (b.status.Sent? ==>
                          (a.status.rx < b.status.tx ==> i < j) && (b.status.tx < a.status.rx ==> j < i)))
               && (a.status.Sent? && b.status.Sent? && a.status.tx < b.status.tx ==> i < j)
  {
    hide Cmp, Sorted, StableSort;
    var r := StableSort(Relative(p), ms);
    StableSortCorrect(Relative(p), ms);
    assert |r| == |multiset(r)| == |ms|;
    SortedExact(r, p);
    assert i < j ==> InOrderOf(p.uuid, r[i], r[j]);
    assert j < i ==> InOrderOf(p.uuid, r[j], r[i]);
  }

  // And in Standard order: by arrival here for what was received, by sending for what is ours, then by
  // sending.
  lemma ArrivalOrder(ms: seq<ChatMessage>, i: nat, j: nat)
    requires i < |ms| && j < |ms|
    ensures var r := StableSort(Standard, ms);
            && |r| == |ms|
            && var (a, b) := (r[i], r[j]);
               && (a.status.Received? && b.status.Received? ==>
                    && (a.status.rx < b.status.rx ==> i < j)
                    && (a.status.rx == b.status.rx && a.status.tx < b.status.tx ==> i < j))
               && (a.status.Received? && b.status.Sent? ==>
                    && (a.status.rx < b.status.tx ==> i < j) && (b.status.tx < a.status.rx ==> j < i)
                    && (a.status.rx == b.status.tx && a.status.tx < b.status.tx ==> i < j)
                    && (a.status.rx == b.status.tx && b.status.tx < a.status.tx ==> j < i))
               && (a.status.Sent? && b.status.Sent? && a.status.tx < b.status.tx ==> i < j)
  {
    hide Cmp, Sorted, StableSort;
    var r := StableSort(Standard, ms);
    StableSortCorrect(Standard, ms);
    assert |r| == |multiset(r)| == |ms|;
    SortedExact(r, r[i].sender);
    assert i < j ==> InArrivalOrder(r[i], r[j]);
    assert j < i ==> InArrivalOrder(r[j], r[i]);
  }

  // Switching to a peer that authored no received message changes nothing.
  lemma SwitchToSilentPeer(ms: seq<ChatMessage>, p: Peer)
    requires Sorted(Standard, ms)
    requires forall m :: m in ms && m.status.Received? ==> m.sender.uuid != p.uuid
    ensures StableSort(Relative(p), ms) == ms
  {
    forall i, j | 0 <= i < j < |ms| ensures Cmp(Relative(p), ms[i], ms[j]) != Greater {
      assert Cmp(Standard, ms[i], ms[j]) != Greater;
      assert ms[i] in ms && ms[j] in ms;
    }
    SortingSortedIsIdentity(Relative(p), ms);
  }

  // Two sorted lists of the same messages tie position by position.
  lemma {:induction false} SortedPermutationsTie(s: SortStrategy, a: seq<ChatMessage>, b: seq<ChatMessage>, i: nat)
    requires Sorted(s, a) && Sorted(s, b) && multiset(a) == multiset(b) && i < |a|
    ensures |a| == |b| && Cmp(s, a[i], b[i]) == Equal
  {
    assert |a| == |multiset(a)| == |multiset(b)| == |b|;
    if Cmp(s, a[i], b[i]) == Less {
      FewerBelow(s, a, b, i);
    } else if Cmp(s, a[i], b[i]) == Greater {
      CmpIsTotalPreorder(s, a[i], b[i], a[i]);
      FewerBelow(s, b, a, i);
    }
  }

  // If a[i] were below b[i], a would hold i + 1 messages below b[i] and b at most i.
  lemma FewerBelow(s: SortStrategy, a: seq<ChatMessage>, b: seq<ChatMessage>, i: nat)
    requires Sorted(s, a) && Sorted(s, b) && multiset(a) == multiset(b) && i < |a| == |b|
    ensures Cmp(s, a[i], b[i]) != Less
  {
    if Cmp(s, a[i], b[i]) == Less {
      var k := b[i];
      forall j | 0 <= j <= i ensures Cmp(s, a[j], k) == Less {
        CmpIsTotalPreorder(s, a[j], a[i], k);
        CmpIsTotalPreorder(s, a[i], a[j], k);
        CmpIsTotalPreorder(s, a[j], k, a[i]);
      }
      forall j | i <= j < |b| ensures Cmp(s, b[j], k) != Less {
        CmpIsTotalPreorder(s, k, b[j], k);
      }
      CountBelowPrefix(s, k, a, i + 1);
      CountBelowSuffix(s, k, b, i);
      CountBelowOfPermutation(s, k, a, b);
      assert false;
    }
  }

  function CountBelow(s: SortStrategy, k: ChatMessage, ms: seq<ChatMessage>): nat {
    if ms == [] then 0 else (if Cmp(s, ms[0], k) == Less then 1 else 0) + CountBelow(s, k, ms[1..])
  }

  lemma {:induction false} CountBelowPrefix(s: SortStrategy, k: ChatMessage, ms: seq<ChatMessage>, n: nat)
    requires n <= |ms| && forall j :: 0 <= j < n ==> Cmp(s, ms[j], k) == Less
    ensures CountBelow(s, k, ms) >= n
    decreases |ms|
  {
    hide Cmp;
    if n > 0 {
      CountBelowPrefix(s, k, ms[1..], n - 1);
    }
  }

  lemma {:induction false} CountBelowSuffix(s: SortStrategy, k: ChatMessage, ms: seq<ChatMessage>, n: nat)
    requires n <= |ms| && forall j :: n <= j < |ms| ==> Cmp(s, ms[j], k) != Less
    ensures CountBelow(s, k, ms) <= n
    decreases |ms|
  {
    hide Cmp;
    if ms != [] {
      CountBelowSuffix(s, k, ms[1..], if n == 0 then 0 else n - 1);
    }
  }

  lemma {:induction false} CountBelowConcat(s: SortStrategy, k: ChatMessage, a: seq<ChatMessage>, b: seq<ChatMessage>)
    ensures CountBelow(s, k, a + b) == CountBelow(s, k, a) + CountBelow(s, k, b)
    decreases |a|
  {
    hide Cmp;
    if a == [] {
      assert a + b == b;
    } else {
      assert (a + b)[1..] == a[1..] + b;
      CountBelowConcat(s, k, a[1..], b);
    }
  }

  lemma {:induction false} CountBelowOfPermutation(s: SortStrategy, k: ChatMessage, a: seq<ChatMessage>, b: seq<ChatMessage>)
    requires multiset(a) == multiset(b)
    ensures CountBelow(s, k, a) == CountBelow(s, k, b)
    decreases |a|
  {
    hide Cmp;
    if a == [] {
      assert |b| == |multiset(b)| == 0;
    } else {
      var n, rest := Without(a, b);
      CountBelowOfPermutation(s, k, a[1..], rest);
      CountBelowConcat(s, k, b[..n], b[n..]);
      CountBelowConcat(s, k, b[..n], b[n + 1..]);
      assert b[..n] + b[n..] == b && b[n..][1..] == b[n + 1..];
    }
  }

  // Take a's first message out of its rearrangement b.
  lemma Without<T>(a: seq<T>, b: seq<T>) returns (n: nat, rest: seq<T>)
    requires multiset(a) == multiset(b) && a != []
    ensures n < |b| && b[n] == a[0] && rest == b[..n] + b[n + 1..] && multiset(rest) == multiset(a[1..])
  {
    assert a[0] in multiset(b);
    n :| 0 <= n < |b| && b[n] == a[0];
    rest := b[..n] + b[n + 1..];
    assert b == b[..n] + ([b[n]] + b[n + 1..]);
    assert a == [a[0]] + a[1..];
    assert multiset(b) == multiset(rest) + multiset{a[0]};
    assert multiset(a) == multiset(a[1..]) + multiset{a[0]};
    assert multiset(rest) == multiset(b) - multiset{a[0]};
    assert multiset(a[1..]) == multiset(a) - multiset{a[0]};
  }

  // Back from Relative(p) to Standard: the same arrival and sending times, position by position.
  lemma BackToStandard(ms: seq<ChatMessage>, p: Peer, i: nat)
    requires Sorted(Standard, ms) && i < |ms|
    ensures var r := StableSort(Standard, StableSort(Relative(p), ms));
            |r| == |ms| && ArrivalTime(r[i]) == ArrivalTime(ms[i]) && r[i].status.tx == ms[i].status.tx
  {
    var mid := StableSort(Relative(p), ms);
    StableSortCorrect(Relative(p), ms);
    StableSortCorrect(Standard, mid);
    SortedPermutationsTie(Standard, ms, StableSort(Standard, mid), i);
  }

  // ---- Acknowledging within the list ----

  // Stamp the first message with that uuid.
  function AckIn(ms: seq<ChatMessage>, uuid: Str, acker: Str, at: Time): (r: (seq<ChatMessage>, bool))
    ensures |r.0| == |ms|
  {
    if ms == [] then ([], false)
    else if ms[0].uuid == uuid then
      var (m, found) := MarkAck(ms[0], acker, at); ([m] + ms[1..], found)
    else var (rest, found) := AckIn(ms[1..], uuid, acker, at); ([ms[0]] + rest, found)
  }

  // Whether a delivery was stamped.
  lemma AckInAnswer(ms: seq<ChatMessage>, uuid: Str, acker: Str, at: Time, k: nat)
    requires k <= |ms| && (forall i :: 0 <= i < k ==> ms[i].uuid != uuid)
    requires k < |ms| ==> ms[k].uuid == uuid
    ensures AckIn(ms, uuid, acker, at).1 <==>
              k < |ms| && ms[k].status.Sent? && exists i :: 0 <= i < |ms[k].status.deliveries| && ms[k].status.deliveries[i].peerUuid == acker
  {
    AckInExact(ms, uuid, acker, at, k);
    if k < |ms| {
      MarkAckAnswer(ms[k], acker, at);
    }
  }

  lemma {:induction false} AckInExact(ms: seq<ChatMessage>, uuid: Str, acker: Str, at: Time, k: nat)
    requires k <= |ms| && (forall i :: 0 <= i < k ==> ms[i].uuid != uuid)
    requires k < |ms| ==> ms[k].uuid == uuid
    ensures AckIn(ms, uuid, acker, at)
         == if k < |ms| then (ms[k := MarkAck(ms[k], acker, at).0], MarkAck(ms[k], acker, at).1) else (ms, false)
    decreases |ms|
  {
    hide MarkAck;
    if ms != [] && k > 0 {
      AckInExact(ms[1..], uuid, acker, at, k - 1);
      assert ms == [ms[0]] + ms[1..];
      if k < |ms| {
        var m := MarkAck(ms[k], acker, at).0;
        assert ms[k := m] == [ms[0]] + ms[1..][k - 1 := m];
      }
    } else if ms != [] {
      var m := MarkAck(ms[0], acker, at).0;
      assert ms[0 := m] == [m] + ms[1..];
    }
  }

  function FirstWith(ms: seq<ChatMessage>, uuid: Str): (k: nat)
    ensures k <= |ms| && (forall i :: 0 <= i < k ==> ms[i].uuid != uuid)
    ensures k < |ms| ==> ms[k].uuid == uuid
  {
    if ms == [] || ms[0].uuid == uuid then 0 else 1 + FirstWith(ms[1..], uuid)
  }

  // An ACK leaves every message where it is, and only ever adds a stamp.
  lemma AckInAdvances(ms: seq<ChatMessage>, uuid: Str, acker: Str, at: Time)
    ensures var r := AckIn(ms, uuid, acker, at).0;
            forall i :: 0 <= i < |ms| ==> Advances(ms[i], r[i])
  {
    hide MarkAck;
    var k := FirstWith(ms, uuid);
    AckInExact(ms, uuid, acker, at, k);
    if k < |ms| {
      MarkAckAdvances(ms[k], acker, at);
    }
  }

  lemma AdvancesKeepsOrder(s: SortStrategy, a: ChatMessage, a': ChatMessage, b: ChatMessage, b': ChatMessage)
    requires Advances(a, a') && Advances(b, b')
    ensures Cmp(s, a, b) == Cmp(s, a', b')
  {
    assert Erase(a).status.tx == Erase(a').status.tx && Erase(b).status.tx == Erase(b').status.tx;
    assert Erase(a).sender == Erase(a').sender && Erase(b).sender == Erase(b').sender;
  }

  // ---- Whole runs ----

  datatype MessageList = MessageList(strategy: SortStrategy, messages: seq<ChatMessage>)

  datatype Op = Add(message: ChatMessage) | Sort(strategy: SortStrategy) | Ack(uuid: Str, acker: Str, at: Time)

  function Step(l: MessageList, op: Op): MessageList {
    match op
    case Add(m) => l.(messages := AddTo(l.strategy, l.messages, m))
    case Sort(s) => MessageList(s, StableSort(s, l.messages))
    case Ack(u, a, at) => l.(messages := AckIn(l.messages, u, a, at).0)
  }

  function Run(l: MessageList, ops: seq<Op>): MessageList
    decreases |ops|
  {
    if ops == [] then l else Run(Step(l, ops[0]), ops[1..])
  }

  function EraseAll(ms: seq<ChatMessage>): (r: seq<ChatMessage>)
    ensures |r| == |ms| && forall i :: 0 <= i < |ms| ==> r[i] == Erase(ms[i])
  {
    seq(|ms|, i requires 0 <= i < |ms| => Erase(ms[i]))
  }

  function Added(ops: seq<Op>): seq<ChatMessage> {
    if ops == [] then []
    else (if ops[0].Add? then [ops[0].message] else []) + Added(ops[1..])
  }

  lemma EraseAllConcat(a: seq<ChatMessage>, b: seq<ChatMessage>)
    ensures EraseAll(a + b) == EraseAll(a) + EraseAll(b)
  {
    hide Erase;
  }

  lemma {:induction false} EraseAllOfPermutation(a: seq<ChatMessage>, b: seq<ChatMessage>)
    requires multiset(a) == multiset(b)
    ensures multiset(EraseAll(a)) == multiset(EraseAll(b))
    decreases |a|
  {
    hide Erase;
    if a == [] {
      assert |b| == |multiset(b)| == 0;
    } else {
      var n, rest := Without(a, b);
      EraseAllOfPermutation(a[1..], rest);
      assert b == b[..n] + ([a[0]] + b[n + 1..]);
      EraseAllConcat(b[..n], [a[0]] + b[n + 1..]);
      EraseAllConcat([a[0]], b[n + 1..]);
      EraseAllConcat(b[..n], b[n + 1..]);
      assert a == [a[0]] + a[1..];
      EraseAllConcat([a[0]], a[1..]);
    }
  }

  lemma StepKeepsSorted(l: MessageList, op: Op)
    requires Sorted(l.strategy, l.messages)
    ensures var l' := Step(l, op); Sorted(l'.strategy, l'.messages)
  {
    match op
    case Add(m) => AddKeepsOrder(l.strategy, l.messages, m);
    case Sort(s) => StableSortCorrect(s, l.messages);
    case Ack(u, a, at) =>
      AckInAdvances(l.messages, u, a, at);
      var r := AckIn(l.messages, u, a, at).0;
      forall i, j | 0 <= i < j < |r| ensures Cmp(l.strategy, r[i], r[j]) != Greater {
        AdvancesKeepsOrder(l.strategy, l.messages[i], r[i], l.messages[j], r[j]);
      }
  }

  lemma StepContents(l: MessageList, op: Op)
    requires Sorted(l.strategy, l.messages)
    ensures multiset(EraseAll(Step(l, op).messages))
         == multiset(EraseAll(l.messages)) + multiset(EraseAll(Added([op])))
  {
    hide Erase, Cmp, MarkAck;
    assert [op][1..] == [];
    match op
    case Add(m) =>
      AddKeepsOrder(l.strategy, l.messages, m);
      EraseAllOfPermutation(AddTo(l.strategy, l.messages, m), l.messages + [m]);
      EraseAllConcat(l.messages, [m]);
    case Sort(s) =>
      StableSortCorrect(s, l.messages);
      EraseAllOfPermutation(StableSort(s, l.messages), l.messages);
    case Ack(u, a, at) =>
      AckInAdvances(l.messages, u, a, at);
      assert EraseAll(AckIn(l.messages, u, a, at).0) == EraseAll(l.messages);
  }

  // After any sequence of adds, switches and ACKs the list is sorted under the strategy in force, and
  // it holds exactly the messages it started with and those added, ack stamps aside.
  lemma {:induction false} RunKeepsList(l: MessageList, ops: seq<Op>)
    requires Sorted(l.strategy, l.messages)
    ensures var l' := Run(l, ops);
            && Sorted(l'.strategy, l'.messages)
            && multiset(EraseAll(l'.messages)) == multiset(EraseAll(l.messages)) + multiset(EraseAll(Added(ops)))
    decreases |ops|
  {
    hide Erase, Step;
    if ops != [] {
      StepKeepsSorted(l, ops[0]);
      StepContents(l, ops[0]);
      RunKeepsList(Step(l, ops[0]), ops[1..]);
      assert Added([ops[0]]) + Added(ops[1..]) == Added(ops) by { assert [ops[0]][1..] == []; }
      EraseAllConcat(Added([ops[0]]), Added(ops[1..]));
    }
  }

  lemma StepAdvances(l: MessageList, op: Op, m: ChatMessage) returns (m': ChatMessage)
    requires Sorted(l.strategy, l.messages) && m in l.messages
    ensures m' in Step(l, op).messages && Advances(m, m')
  {
    match op
    case Add(x) =>
      AddKeepsOrder(l.strategy, l.messages, x);
      assert m in multiset(Step(l, op).messages);
      m' := m;
    case Sort(s) =>
      StableSortCorrect(s, l.messages);
      assert m in multiset(Step(l, op).messages);
      m' := m;
    case Ack(u, a, at) =>
      AckInAdvances(l.messages, u, a, at);
      var i :| 0 <= i < |l.messages| && l.messages[i] == m;
      m' := AckIn(l.messages, u, a, at).0[i];
  }

  // No message is lost and no delivery ever goes from acked back to un-acked.
  lemma {:induction false} RunAdvances(l: MessageList, ops: seq<Op>, m: ChatMessage) returns (m': ChatMessage)
    requires Sorted(l.strategy, l.messages) && m in l.messages
    ensures m' in Run(l, ops).messages && Advances(m, m')
    decreases |ops|
  {
    hide Step;
    if ops == [] {
      m' := m;
    } else {
      var x := StepAdvances(l, ops[0], m);
      StepKeepsSorted(l, ops[0]);
      m' := RunAdvances(Step(l, ops[0]), ops[1..], x);
    }
  }

  // ---- The model object ----

  const MESSAGE_SENT: Event := SentEvent(Ascii("Message sent."))
  const STATUS_UPDATED: Event := SentEvent(Ascii("Message status updated"))
  const NEW_MESSAGE_FROM: Str := Ascii("New message from ")

  function ReceivedFrom(m: ChatMessage): Event {
    ReceivedEvent(NEW_MESSAGE_FROM + m.sender.name)
  }

  class ChatModel {
    var sortStrategy: SortStrategy
    var localpeer: Peer
    var peers: seq<Peer>
    var messages: seq<ChatMessage>
    var events: seq<Event> // what the registered observers were told, oldest first

    ghost predicate Valid()
      reads this
    {
      Sorted(sortStrategy, messages)
    }

    ghost function List(): MessageList
      reads this
    {
      MessageList(sortStrategy, messages)
    }

    constructor (peers: seq<Peer>, localpeer: Peer)
      ensures Valid() && List() == MessageList(Standard, []) && events == []
      ensures this.peers == peers && this.localpeer == localpeer
    {
      this.sortStrategy := Standard;
      this.localpeer := localpeer;
      this.peers := peers;
      this.messages := [];
      this.events := [];
    }

    method AddMessage(m: ChatMessage, direction: Direction)
      requires Valid()
      modifies `messages, `events
      ensures Valid() && List() == Step(old(List()), Add(m))
      ensures events == old(events) + [if direction == Outbound then MESSAGE_SENT else ReceivedFrom(m)]
    {
      hide Sorted, InsertionPoint;
      AddKeepsOrder(sortStrategy, messages, m);
      var idx := BinarySearch(sortStrategy, messages, m);
      messages := messages[..idx] + [m] + messages[idx..];
      events := events + [if direction == Outbound then MESSAGE_SENT else ReceivedFrom(m)];
    }

    method NotifyObservers(e: Event)
      modifies `events
      ensures events == old(events) + [e]
    {
      events := events + [e];
    }

    method SortMessages(s: SortStrategy)
      modifies `sortStrategy, `messages
      ensures Valid() && List() == Step(old(List()), Sort(s))
    {
      StableSortCorrect(s, messages);
      sortStrategy := s;
      messages := StableSort(s, messages);
    }

    method UpdateMessageWithAck(uuid: Str, acker: Str, at: Time) returns (found: bool)
      requires Valid()
      modifies `messages
      ensures Valid() && List() == Step(old(List()), Ack(uuid, acker, at))
      ensures found == AckIn(old(messages), uuid, acker, at).1
    {
      StepKeepsSorted(List(), Ack(uuid, acker, at));
      for i := 0 to |messages|
        invariant messages == old(messages)
        invariant forall j :: 0 <= j < i ==> messages[j].uuid != uuid
      {
        if messages[i].uuid == uuid {
          AckInExact(messages, uuid, acker, at, i);
          var (m, stamped) := MarkAck(messages[i], acker, at);
          messages := messages[i := m];
          return stamped;
        }
      }
      AckInExact(messages, uuid, acker, at, |messages|);
      return false;
    }

    // The socket layer's callbacks.
    method OnSocketEvent(m: ChatMessage)
      requires Valid()
      modifies `messages, `events
      ensures Valid() && List() == Step(old(List()), Add(m))
      ensures events == old(events) + [ReceivedFrom(m)]
    {
      AddMessage(m, Inbound);
    }

    method OnAckReceived(uuid: Str, acker: Str, at: Time)
      requires Valid()
      modifies `messages, `events
      ensures Valid() && List() == Step(old(List()), Ack(uuid, acker, at))
      ensures events == old(events)
              + if AckIn(old(messages), uuid, acker, at).1 then [STATUS_UPDATED] else []
    {
      var found := UpdateMessageWithAck(uuid, acker, at);
      if found {
        events := events + [STATUS_UPDATED];
      }
    }
  }
}
