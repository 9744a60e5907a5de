/** The wire layer of Protocol Buffers as the generated codec (prost) reads and writes it:
    "Base 128 Varints", "Message Structure" and "Length-Delimited Records" of the encoding guide. */
module Protobuf {
  import opened Bytes

  // ---- Varints ----

  // A varint of at most k bytes stays below Limit(k); ten bytes reach exactly 2^64, the tenth
  // contributing one bit.
  function Limit(k: nat): (n: nat)
    ensures k >= 2 ==> n >= 128
  {
    if k == 0 then 0 else if k == 1 then 2 else 128 * Limit(k - 1)
  }

  const VARINT_MAX: nat := 10

  lemma LimitIs64Bits()
    ensures Limit(VARINT_MAX) == TWO_64
  {
    assert Limit(5) == 0x2000_0000;
    assert Limit(8) == 0x400_0000_0000_00;
  }

  function Varint(n: nat): (s: seq<byte>)
    ensures |s| >= 1 && s[0] % 8 == n % 8
  {
    if n < 128 then [n] else [n % 128 + 128] + Varint(n / 128)
  }

  // Read a varint of at most k bytes.
  function ReadVarintWithin(buf: seq<byte>, k: nat): (r: Option<(nat, seq<byte>)>)
    ensures r.Some? ==> r.value.0 < Limit(k) && |r.value.1| < |buf|
    ensures r.Some? ==> r.value.0 % 8 == buf[0] % 8
    ensures r.Some? ==> r.value.1 == buf[|buf| - |r.value.1|..]
  {
    if buf == [] || k == 0 then None
    else if buf[0] < 128 then
      if k == 1 && buf[0] >= 2 then None
      else Some((buf[0], buf[1..]))
    else
      match ReadVarintWithin(buf[1..], k - 1)
      case None => None
      case Some((high, rest)) => Some((buf[0] - 128 + 128 * high, rest))
  }

  function ReadVarint(buf: seq<byte>): (r: Option<(u64, seq<byte>)>)
    ensures r.Some? ==> |r.value.1| < |buf| && r.value.0 % 8 == buf[0] % 8
  {
    LimitIs64Bits();
    match ReadVarintWithin(buf, VARINT_MAX)
    case None => None
    case Some((n, rest)) => Some((n, rest))
  }

  lemma {:induction false} ReadVarintWithinOf(n: nat, rest: seq<byte>, k: nat)
    requires n < Limit(k)
    ensures ReadVarintWithin(Varint(n) + rest, k) == Some((n, rest))
  {
    var s := Varint(n) + rest;
    if n < 128 {
      assert s[1..] == rest;
    } else {
      assert s[1..] == Varint(n / 128) + rest;
      ReadVarintWithinOf(n / 128, rest, k - 1);
    }
  }

  lemma {:induction false} ReadVarintWithinCut(n: nat, p: seq<byte>, k: nat)
    requires p < Varint(n)
    ensures ReadVarintWithin(p, k) == None
  {
    if p != [] && k > 0 {
      assert n >= 128;
      assert p[1..] < Varint(n / 128);
      ReadVarintWithinCut(n / 128, p[1..], k - 1);
    }
  }

  lemma ReadVarintOf(n: u64, rest: seq<byte>)
    ensures ReadVarint(Varint(n) + rest) == Some((n, rest))
  {
    LimitIs64Bits();
    ReadVarintWithinOf(n, rest, VARINT_MAX);
  }

  lemma ReadVarintCut(n: u64, p: seq<byte>)
    requires p < Varint(n)
    ensures ReadVarint(p) == None
  {
    ReadVarintWithinCut(n, p, VARINT_MAX);
  }

  // ---- Records ----

  // One field as it lies on the wire. A field nobody knows is skipped whole, so the payload of
  // the other wire types (32-bit, 64-bit, group) is not kept.
  datatype Record =
    | Num(tag: nat, number: u64)
    | Len(tag: nat, payload: seq<byte>)
    | Other(tag: nat)

  // Field key: (field number, wire type). Zero field numbers and wire types 6, 7 are errors.
  function ReadKey(buf: seq<byte>): (r: Option<(nat, nat, seq<byte>)>)
    ensures r.Some? ==> |r.value.2| < |buf| && r.value.1 == buf[0] % 8 && r.value.0 >= 1
  {
    match ReadVarint(buf)
    case None => None
    case Some((key, rest)) =>
      if key >= TWO_32 || key % 8 > 5 || key / 8 == 0 then None
      else Some((key / 8, key % 8, rest))
  }

  function Advance(buf: seq<byte>, n: nat): (r: Option<seq<byte>>)
    ensures r.Some? ==> |r.value| <= |buf|
  {
    if n > |buf| then None else Some(buf[n..])
  }

  // The nesting depth up to which unknown groups are skipped.
  const RECURSION_LIMIT: nat := 100

  // Skip the body of an unknown field.
  function Skip(tag: nat, wire: nat, buf: seq<byte>, depth: nat): (r: Option<seq<byte>>)
    ensures r.Some? ==> |r.value| <= |buf|
    decreases |buf|, 1
  {
    if depth == 0 then None
    else match wire
      case 0 => (match ReadVarint(buf) case None => None case Some((n, rest)) => Some(rest))
      case 1 => Advance(buf, 8)
      case 2 => (match ReadVarint(buf) case None => None case Some((n, rest)) => Advance(rest, n))
      case 3 => SkipGroup(tag, buf, depth)
      case 5 => Advance(buf, 4)
      case _ => None
  }

  // Skip fields up to the end-group key of the same field number.
  function SkipGroup(tag: nat, buf: seq<byte>, depth: nat): (r: Option<seq<byte>>)
    requires depth > 0
    ensures r.Some? ==> |r.value| <= |buf|
    decreases |buf|, 0
  {
    match ReadKey(buf)
    case None => None
    case Some((innerTag, wire, rest)) =>
      if wire == 4 then if innerTag == tag then Some(rest) else None
      else match Skip(innerTag, wire, rest, depth - 1)
        case None => None
        case Some(rest') => SkipGroup(tag, rest', depth)
  }

  function ReadRecord(buf: seq<byte>, depth: nat): (r: Option<(Record, seq<byte>)>)
    ensures r.Some? ==> |r.value.1| < |buf|
  {
    match ReadKey(buf)
    case None => None
    case Some((tag, wire, rest)) =>
      if wire == 0 then
        match ReadVarint(rest)
        case None => None
        case Some((n, rest')) => Some((Num(tag, n), rest'))
      else if wire == 2 then
        match ReadVarint(rest)
        case None => None
        case Some((n, rest')) => if n > |rest'| then None else Some((Len(tag, rest'[..n]), rest'[n..]))
      else
        match Skip(tag, wire, rest, depth)
        case None => None
        case Some(rest') => Some((Other(tag), rest'))
  }

  // The field loop of every message: read a record, merge it, until the buffer is used up.
  function Merge<M>(m: M, buf: seq<byte>, apply: (M, Record) -> Option<M>, depth: nat): Option<M>
    decreases |buf|
  {
    if buf == [] then Some(m)
    else match ReadRecord(buf, depth)
      case None => None
      case Some((rec, rest)) =>
        match apply(m, rec)
        case None => None
        case Some(m') => Merge(m', rest, apply, depth)
  }

  // ---- Writing ----

  type FieldNumber = t: nat | 1 <= t < 0x2000_0000 witness 1

  function NumField(tag: FieldNumber, n: u64): seq<byte> {
    Varint(tag * 8) + Varint(n)
  }

  function LenField(tag: FieldNumber, payload: seq<byte>): seq<byte> {
    Varint(tag * 8 + 2) + Varint(|payload|) + payload
  }

  // The records a writer produces.
  predicate Writable(rec: Record) {
    1 <= rec.tag < 0x2000_0000 && (rec.Num? || (rec.Len? && |rec.payload| < TWO_64))
  }

  predicate AllWritable(recs: seq<Record>) {
    forall i :: 0 <= i < |recs| ==> Writable(recs[i])
  }

  function FieldBytes(rec: Record): (f: seq<byte>)
    requires Writable(rec)
    ensures f != []
  {
    if rec.Num? then NumField(rec.tag, rec.number) else LenField(rec.tag, rec.payload)
  }

  // A message is written as its records one after the other.
  function Written(recs: seq<Record>): seq<byte>
    requires AllWritable(recs)
  {
    if recs == [] then [] else FieldBytes(recs[0]) + Written(recs[1..])
  }

  // Merge records that were already read.
  function Fold<M>(m: M, recs: seq<Record>, apply: (M, Record) -> Option<M>): Option<M> {
    if recs == [] then Some(m)
    else match apply(m, recs[0])
      case None => None
      case Some(m') => Fold(m', recs[1..], apply)
  }

  lemma ReadKeyOf(tag: FieldNumber, wire: nat, rest: seq<byte>)
    requires wire <= 5
    ensures ReadKey(Varint(tag * 8 + wire) + rest) == Some((tag, wire, rest))
  {
    ReadVarintOf(tag * 8 + wire, rest);
  }

  lemma ReadNumOf(tag: FieldNumber, n: u64, rest: seq<byte>, depth: nat)
    ensures ReadRecord(NumField(tag, n) + rest, depth) == Some((Num(tag, n), rest))
  {
    assert NumField(tag, n) + rest == Varint(tag * 8) + (Varint(n) + rest);
    ReadKeyOf(tag, 0, Varint(n) + rest);
    ReadVarintOf(n, rest);
  }

  lemma ReadLenOf(tag: FieldNumber, payload: seq<byte>, rest: seq<byte>, depth: nat)
    requires |payload| < TWO_64
    ensures ReadRecord(LenField(tag, payload) + rest, depth) == Some((Len(tag, payload), rest))
  {
    hide ReadVarintWithin;
    var tail := payload + rest;
    var body := Varint(|payload|) + tail;
    assert LenField(tag, payload) + rest == Varint(tag * 8 + 2) + body;
    ReadKeyOf(tag, 2, body);
    ReadVarintOf(|payload|, tail);
    assert tail[..|payload|] == payload && tail[|payload|..] == rest;
  }

  lemma ReadFieldOf(rec: Record, rest: seq<byte>, depth: nat)
    requires Writable(rec)
    ensures ReadRecord(FieldBytes(rec) + rest, depth) == Some((rec, rest))
  {
    match rec
    case Num(tag, n) => ReadNumOf(tag, n, rest, depth);
    case Len(tag, payload) => ReadLenOf(tag, payload, rest, depth);
  }

  // A field cut short is not read as anything.
  lemma ReadFieldCut(rec: Record, p: seq<byte>, depth: nat)
    requires Writable(rec) && p < FieldBytes(rec) && p != []
    ensures ReadRecord(p, depth) == None
  {
    var tag := rec.tag;
    var wire := if rec.Num? then 0 else 2;
    var key := Varint(tag * 8 + wire);
    var body := if rec.Num? then Varint(rec.number) else Varint(|rec.payload|) + rec.payload;
    assert FieldBytes(rec) == key + body;
    PrefixOfConcat(p, key, body);
    if |p| < |key| {
      ReadVarintCut(tag * 8 + wire, p);
    } else {
      var q := p[|key|..];
      ReadKeyOf(tag, wire, q);
      if rec.Num? {
        ReadVarintCut(rec.number, q);
      } else {
        var size := Varint(|rec.payload|);
        PrefixOfConcat(q, size, rec.payload);
        if |q| < |size| {
          ReadVarintCut(|rec.payload|, q);
        } else {
          ReadVarintOf(|rec.payload|, q[|size|..]);
        }
      }
    }
  }

  // Reading back what was written merges exactly the records written, in order.
  lemma {:induction false} MergeWritten<M>(m: M, recs: seq<Record>, apply: (M, Record) -> Option<M>, depth: nat)
    requires AllWritable(recs)
    ensures Merge(m, Written(recs), apply, depth) == Fold(m, recs, apply)
    decreases |recs|
  {
    if recs != [] {
      ReadFieldOf(recs[0], Written(recs[1..]), depth);
      match apply(m, recs[0]) {
        case None =>
        case Some(m') => MergeWritten(m', recs[1..], apply, depth);
      }
    }
  }

  // Reading a cut copy fails or merges only the first few records, never the last one.
  lemma {:induction false} MergeCut<M>(m: M, recs: seq<Record>, p: seq<byte>,
                                       apply: (M, Record) -> Option<M>, depth: nat) returns (k: nat)
    requires AllWritable(recs) && p < Written(recs)
    ensures k < |recs|
    ensures Merge(m, p, apply, depth) == None || Merge(m, p, apply, depth) == Fold(m, recs[..k], apply)
    decreases |recs|
  {
    hide FieldBytes, ReadRecord, Writable;
    var f, rest := FieldBytes(recs[0]), Written(recs[1..]);
    PrefixOfConcat(p, f, rest);
    k := 0;
    if |p| < |f| {
      if p != [] { ReadFieldCut(recs[0], p, depth); }
    } else {
      ReadFieldOf(recs[0], p[|f|..], depth);
      match apply(m, recs[0]) {
        case None =>
        case Some(m') =>
          k := MergeCut(m', recs[1..], p[|f|..], apply, depth);
          assert recs[..k + 1][1..] == recs[1..][..k];
          k := k + 1;
      }
    }
  }

  lemma {:induction false} FoldConcat<M>(m: M, a: seq<Record>, b: seq<Record>, apply: (M, Record) -> Option<M>)
    ensures Fold(m, a + b, apply)
         == match Fold(m, a, apply) case None => None case Some(m') => Fold(m', b, apply)
    decreases |a|
  {
    if a == [] {
      assert a + b == b;
    } else {
      assert (a + b)[1..] == a[1..] + b;
      match apply(m, a[0]) {
        case None =>
        case Some(m') => FoldConcat(m', a[1..], b, apply);
      }
    }
  }

  // Wire type 4 in the first byte is a stray end-group key: the loop always fails on it,
  // whatever message it reads and whatever follows.
  lemma StrayEndGroup<M>(m: M, buf: seq<byte>, apply: (M, Record) -> Option<M>, depth: nat)
    requires buf != [] && buf[0] % 8 == 4
    ensures Merge(m, buf, apply, depth) == None
  {
  }
}
