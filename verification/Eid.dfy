/** ipn endpoint ids through the stack: the application's parser (src/utils/socket.rs:49-127), the
    kernel's address checks (bp-socket/bp_socket/af_bp.c), the daemon's printing
    (bp-socket/daemon/bp_genl_handlers.c:25-33) and the prediction key (message_prompt.rs:14-41).
    The scheme is that of section 4.2.5.1.2 of RFC 9171. */
module Eid {
  import opened Bytes
  import opened Messages

  const DOT: byte := 46
  const PLUS: byte := 43
  const ZERO: byte := 48
  const IPN: Str := Ascii("ipn:")
  const DTN: Str := Ascii("dtn:")

  // ---- Decimal numbers ----

  predicate IsDigit(c: byte) { 48 <= c <= 57 }

  predicate AllDigits(s: seq<byte>) {
    forall i :: 0 <= i < |s| ==> IsDigit(s[i])
  }

  function Value(s: seq<byte>): nat
    requires AllDigits(s)
  {
    if s == [] then 0 else Value(s[..|s| - 1]) * 10 + (s[|s| - 1] - ZERO)
  }

  // printf's %u.
  function PrintDec(n: nat): (s: seq<byte>)
    ensures s != [] && AllDigits(s)
  {
    if n < 10 then [ZERO + n] else PrintDec(n / 10) + [ZERO + n % 10]
  }

  // Rust's `str::parse::<u32>`: an optional plus sign, then one or more digits, below 2^32.
  function ParseU32(s: seq<byte>): Option<u32> {
    var digits := if s != [] && s[0] == PLUS then s[1..] else s;
    if digits == [] || !AllDigits(digits) || Value(digits) >= TWO_32 then None
    else Some(Value(digits))
  }

  lemma {:induction false} ValueOfPrint(n: nat)
    ensures Value(PrintDec(n)) == n
  {
    if n >= 10 {
      ValueOfPrint(n / 10);
      assert PrintDec(n)[..|PrintDec(n)| - 1] == PrintDec(n / 10);
    }
  }

  lemma ParseOfPrint(n: u32)
    ensures ParseU32(PrintDec(n)) == Some(n)
  {
    ValueOfPrint(n);
  }

  // Written the way printf writes it: no sign, no leading zero.
  predicate Canonical(s: seq<byte>) {
    s != [] && AllDigits(s) && (s[0] == ZERO ==> |s| == 1)
  }

  lemma {:induction false} CanonicalIsPrinted(s: seq<byte>)
    requires Canonical(s)
    ensures s == PrintDec(Value(s))
    ensures s[0] != ZERO ==> Value(s) > 0
    decreases |s|
  {
    var front := s[..|s| - 1];
    if front != [] {
      CanonicalIsPrinted(front);
      PrintGrows(Value(front), s[|s| - 1]);
      assert s == front + [s[|s| - 1]];
    } else {
      assert Value(front) == 0;
    }
  }

  lemma PrintGrows(n: nat, digit: byte)
    requires n > 0 && IsDigit(digit)
    ensures PrintDec(n * 10 + (digit - ZERO)) == PrintDec(n) + [digit]
  {
    var m := n * 10 + (digit - ZERO);
    assert m / 10 == n && m % 10 == digit - ZERO;
  }

  lemma {:induction false} PrintIsCanonical(n: nat)
    ensures Canonical(PrintDec(n)) && (n > 0 ==> PrintDec(n)[0] != ZERO)
  {
    if n >= 10 {
      PrintIsCanonical(n / 10);
    }
  }

  // A numeral is the printed form of its own value exactly when it is canonical.
  lemma ParsedIsPrintedIff(s: seq<byte>)
    requires ParseU32(s).Some?
    ensures s == PrintDec(ParseU32(s).value) <==> Canonical(s)
  {
    if s[0] == PLUS {
      PrintIsCanonical(ParseU32(s).value);
    } else if Canonical(s) {
      CanonicalIsPrinted(s);
    } else {
      PrintIsCanonical(ParseU32(s).value);
    }
  }

  lemma {:induction false} PrintLength(n: nat, k: nat)
    requires k >= 1 && n < Pow10(k)
    ensures |PrintDec(n)| <= k
    decreases k
  {
    if n >= 10 {
      PrintLength(n / 10, k - 1);
    }
  }

  function Pow10(k: nat): nat {
    if k == 0 then 1 else 10 * Pow10(k - 1)
  }

  // ---- The application's parser ----

  datatype Sockaddr = Ipn(node: u32, service: u32) | InvalidInput | Unsupported

  // `split(sep)`: the pieces between separators, at least one.
  function Split(s: seq<byte>, sep: byte): (parts: seq<seq<byte>>)
    ensures |parts| >= 1
  {
    if s == [] then [[]]
    else
      var parts := Split(s[1..], sep);
      if s[0] == sep then [[]] + parts else [[s[0]] + parts[0]] + parts[1..]
  }

  function CreateSockaddr(eid: seq<byte>): Sockaddr {
    if eid == [] then InvalidInput
    else if IPN <= eid then
      var parts := Split(eid[|IPN|..], DOT);
      if |parts| != 2 then InvalidInput
      else match (ParseU32(parts[0]), ParseU32(parts[1]))
        case (Some(node), Some(service)) => Ipn(node, service)
        case _ => InvalidInput
    else if DTN <= eid then Unsupported
    else InvalidInput
  }

  // Which texts are numbers: digits, at least one and with any leading zeros, of a value below 2^32, with
  // or without a plus sign in front.
  lemma NumberExact(s: seq<byte>, n: nat)
    ensures (ParseU32(s).Some? && ParseU32(s).value == n) <==>
              exists digits :: (s == digits || s == [43] + digits) && digits != [] && AllDigits(digits)
                               && Value(digits) == n && n < 0x1_0000_0000
  {
    var mine := if s != [] && s[0] == PLUS then s[1..] else s;
    if s != [] && s[0] == PLUS {
      assert s == [43] + mine;
    }
    if digits :| (s == digits || s == [43] + digits) && digits != [] && AllDigits(digits) && Value(digits) == n && n < 0x1_0000_0000 {
      assert digits == mine by {
        if s == [43] + digits {
          assert s[0] == 43 && s[1..] == digits;
        } else {
          assert IsDigit(s[0]);
        }
      }
    }
  }

  lemma NoDotInNumber(s: seq<byte>)
    requires ParseU32(s).Some?
    ensures DOT !in s
  {
    var digits := if s != [] && s[0] == PLUS then s[1..] else s;
    NoDotInDigits(digits);
    if s[0] == PLUS {
      assert s == [PLUS] + digits;
    }
  }

  // Which addresses the parser accepts, and as what.
  lemma SockaddrExact(address: seq<byte>)
    ensures CreateSockaddr(address).Ipn? <==>
              exists p, q :: address == [105, 112, 110, 58] + p + [46] + q && ParseU32(p).Some? && ParseU32(q).Some?
    ensures forall p, q :: address == [105, 112, 110, 58] + p + [46] + q && ParseU32(p).Some? && ParseU32(q).Some? ==>
              CreateSockaddr(address) == Ipn(ParseU32(p).value, ParseU32(q).value)
  {
    hide ParseU32, Split;
    assert IPN == [105, 112, 110, 58] && DTN[0] == 100;
    if CreateSockaddr(address).Ipn? {
      var body := address[|IPN|..];
      SplitJoin(body, DOT);
      var p, q := Split(body, DOT)[0], Split(body, DOT)[1];
      assert address == IPN + body;
      assert address == [105, 112, 110, 58] + p + [46] + q;
    }
    forall p, q | address == [105, 112, 110, 58] + p + [46] + q && ParseU32(p).Some? && ParseU32(q).Some?
      ensures CreateSockaddr(address) == Ipn(ParseU32(p).value, ParseU32(q).value)
    {
      NoDotInNumber(p);
      NoDotInNumber(q);
      SplitTwo(p, q, DOT);
      assert address[|IPN|..] == p + [DOT] + q;
    }
  }

  // ---- Kernel and daemon ----

  // A u32 stored in a C int.
  function AsInt(x: u32): i32 {
    if x >= TWO_31 then x - TWO_32 else x
  }

  // The address checks shared by bp_bind and bp_sendmsg.
  predicate KernelAccepts(node: u32, service: u32) {
    1 <= AsInt(service) <= 255 && AsInt(node) >= 1
  }

  const EID_BUFFER: nat := 64

  // snprintf(eid, sizeof(eid), "ipn:%u.%u", node, service).
  function PrintEid(node: u32, service: u32): seq<byte> {
    IPN + PrintDec(node) + [DOT] + PrintDec(service)
  }

  // ---- The prediction key ----

  function FindByte(s: seq<byte>, c: byte): (k: nat)
    ensures k <= |s| && (forall i :: 0 <= i < k ==> s[i] != c) && (k < |s| ==> s[k] == c)
  {
    if s == [] || s[0] == c then 0 else 1 + FindByte(s[1..], c)
  }

  function ExtractIonId(address: seq<byte>): seq<byte> {
    if IPN <= address then
      var body := address[|IPN|..];
      var dot := FindByte(body, DOT);
      if dot < |body| then body[..dot] else address
    else address
  }

  // The node id of the peer's first Bp endpoint, or else its uuid.
  function IonIdOf(peer: Peer, endpoints: seq<Endpoint>): seq<byte> {
    if endpoints == [] then peer.uuid
    else if endpoints[0].Bp? then ExtractIonId(endpoints[0].address)
    else IonIdOf(peer, endpoints[1..])
  }

  // ---- Round trips ----

  lemma {:induction false} SplitTwo(a: seq<byte>, b: seq<byte>, sep: byte)
    requires sep !in a && sep !in b
    ensures Split(a + [sep] + b, sep) == [a, b]
    decreases |a|
  {
    var s := a + [sep] + b;
    if a == [] {
      assert s[1..] == b;
      SplitOne(b, sep);
    } else {
      assert s[1..] == a[1..] + [sep] + b;
      SplitTwo(a[1..], b, sep);
      assert [a[0]] + a[1..] == a;
    }
  }

  lemma {:induction false} SplitOne(s: seq<byte>, sep: byte)
    requires sep !in s
    ensures Split(s, sep) == [s]
    decreases |s|
  {
    if s != [] {
      SplitOne(s[1..], sep);
      assert [s[0]] + s[1..] == s;
    }
  }

  lemma {:induction false} SplitJoin(s: seq<byte>, sep: byte)
    requires |Split(s, sep)| == 2
    ensures s == Split(s, sep)[0] + [sep] + Split(s, sep)[1]
    ensures sep !in Split(s, sep)[0]
    decreases |s|
  {
    var parts := Split(s[1..], sep);
    if s[0] == sep {
      SplitSingle(s[1..], sep);
      assert s == [] + [sep] + s[1..];
    } else {
      SplitJoin(s[1..], sep);
      assert s == [s[0]] + s[1..];
    }
  }

  lemma {:induction false} SplitSingle(s: seq<byte>, sep: byte)
    requires |Split(s, sep)| == 1
    ensures Split(s, sep) == [s]
    decreases |s|
  {
    if s != [] {
      SplitSingle(s[1..], sep);
      assert [s[0]] + s[1..] == s;
    }
  }

  lemma NoDotInDigits(s: seq<byte>)
    requires AllDigits(s)
    ensures DOT !in s
  {
  }

  lemma EidBody(node: u32, service: u32)
    ensures var e, body := PrintEid(node, service), PrintDec(node) + [DOT] + PrintDec(service);
            IPN <= e && e[|IPN|..] == body && e != [] && |e| == 5 + |PrintDec(node)| + |PrintDec(service)|
  {
    hide ValidUtf8, PrintDec;
    assert PrintEid(node, service) == IPN + (PrintDec(node) + [DOT] + PrintDec(service));
  }

  lemma BodyParts(node: u32, service: u32)
    ensures var body := PrintDec(node) + [DOT] + PrintDec(service);
            && Split(body, DOT) == [PrintDec(node), PrintDec(service)]
            && FindByte(body, DOT) == |PrintDec(node)| && body[..|PrintDec(node)|] == PrintDec(node)
  {
    NoDotInDigits(PrintDec(node));
    NoDotInDigits(PrintDec(service));
    SplitTwo(PrintDec(node), PrintDec(service), DOT);
    FirstDot(PrintDec(node), PrintDec(service));
  }

  // Printing then parsing is the identity on all pairs of 32-bit numbers, and the printed form always
  // fits the daemon's buffer.
  lemma ParseOfPrintEid(node: u32, service: u32)
    ensures CreateSockaddr(PrintEid(node, service)) == Ipn(node, service)
    ensures |PrintEid(node, service)| < EID_BUFFER
    ensures ExtractIonId(PrintEid(node, service)) == PrintDec(node)
  {
    hide ValidUtf8, PrintDec, PrintEid, ParseU32, Split, FindByte;
    EidBody(node, service);
    BodyParts(node, service);
    ParseOfPrint(node);
    ParseOfPrint(service);
    assert Pow10(10) == 10_000_000_000;
    PrintLength(node, 10);
    PrintLength(service, 10);
  }

  lemma FirstDot(a: seq<byte>, b: seq<byte>)
    requires DOT !in a
    ensures FindByte(a + [DOT] + b, DOT) == |a| && (a + [DOT] + b)[..|a|] == a
  {
    var s := a + [DOT] + b;
    var k := FindByte(s, DOT);
    assert s[|a|] == DOT;
    assert forall i :: 0 <= i < |a| ==> s[i] == a[i] && a[i] in a;
  }

  // What leaves the daemon for an address the application was given: nothing if the application's
  // parser or the kernel's checks refuse it.
  function SentEid(address: seq<byte>): Option<seq<byte>> {
    match CreateSockaddr(address)
    case Ipn(node, service) =>
      var eid := PrintEid(node, service);
      if KernelAccepts(node, service) && |eid| < EID_BUFFER then Some(eid) else None
    case _ => None
  }

  function Numerals(address: seq<byte>): seq<seq<byte>>
    requires IPN <= address
  {
    Split(address[|IPN|..], DOT)
  }

  lemma NumeralsOfPrinted(node: u32, service: u32)
    ensures IPN <= PrintEid(node, service) && Numerals(PrintEid(node, service)) == [PrintDec(node), PrintDec(service)]
    ensures Canonical(PrintDec(node)) && Canonical(PrintDec(service))
  {
    hide ValidUtf8, PrintDec, PrintEid, Split, Canonical;
    EidBody(node, service);
    BodyParts(node, service);
    PrintIsCanonical(node);
    PrintIsCanonical(service);
  }

  // An accepted address is its own printed form exactly when both numerals are canonical.
  lemma PrintedIffCanonical(address: seq<byte>)
    requires CreateSockaddr(address).Ipn?
    ensures var Ipn(node, service) := CreateSockaddr(address);
            var parts := Numerals(address);
            |parts| == 2 && (PrintEid(node, service) == address <==> Canonical(parts[0]) && Canonical(parts[1]))
  {
    hide ValidUtf8, PrintDec, Split, Canonical, ParseU32;
    var Ipn(node, service) := CreateSockaddr(address);
    var parts := Numerals(address);
    NumeralsOfPrinted(node, service);
    ParsedIsPrintedIff(parts[0]);
    ParsedIsPrintedIff(parts[1]);
    SplitJoin(address[|IPN|..], DOT);
    assert address == IPN + address[|IPN|..];
    if Canonical(parts[0]) && Canonical(parts[1]) {
      assert PrintEid(node, service) == IPN + (parts[0] + [DOT] + parts[1]);
    }
  }

  // An address gets through exactly when it parses to a node from 1 to 2^31 - 1 and a service from 1 to
  // 255. Then what is sent names the same two in canonical numerals, is what sending it again would
  // give, and is the address itself exactly when the address was canonical.
  lemma SentEidIsCanonical(address: seq<byte>)
    ensures SentEid(address).Some? <==>
              var s := CreateSockaddr(address); s.Ipn? && 1 <= s.node < TWO_31 && 1 <= s.service <= 255
    ensures SentEid(address).Some? ==>
              var eid := SentEid(address).value;
              && CreateSockaddr(eid) == CreateSockaddr(address) && SentEid(eid) == Some(eid)
              && |Numerals(eid)| == 2 && Canonical(Numerals(eid)[0]) && Canonical(Numerals(eid)[1])
              && ExtractIonId(eid) == Numerals(eid)[0]
              && |Numerals(address)| == 2
              && (eid == address <==> Canonical(Numerals(address)[0]) && Canonical(Numerals(address)[1]))
  {
    hide ValidUtf8, PrintDec, PrintEid, Split, CreateSockaddr, ExtractIonId, Canonical;
    match CreateSockaddr(address)
    case Ipn(node, service) =>
      ParseOfPrintEid(node, service);
      NumeralsOfPrinted(node, service);
      PrintedIffCanonical(address);
    case _ =>
  }

  // The prediction key of a configured address names its node canonically exactly when the
  // configuration writes the node number canonically.
  lemma IonIdOfAddress(address: seq<byte>)
    requires CreateSockaddr(address).Ipn?
    ensures var node := Split(address[|IPN|..], DOT)[0];
            && ExtractIonId(address) == node
            && (ExtractIonId(address) == PrintDec(CreateSockaddr(address).node) <==> Canonical(node))
  {
    var body := address[|IPN|..];
    var parts := Split(body, DOT);
    SplitJoin(body, DOT);
    FirstDot(parts[0], parts[1]);
    ParsedIsPrintedIff(parts[0]);
  }

  // What is cut from any address: of one with an ipn scheme and a dot behind it, what stands between the
  // scheme and the first dot; otherwise nothing is cut.
  lemma ExtractExact(address: seq<byte>, front: seq<byte>, back: seq<byte>)
    ensures address == [105, 112, 110, 58] + front + [46] + back && 46 !in front ==> ExtractIonId(address) == front
    ensures !([105, 112, 110, 58] <= address) || 46 !in address ==> ExtractIonId(address) == address
  {
    assert IPN == [105, 112, 110, 58];
    if address == [105, 112, 110, 58] + front + [46] + back && 46 !in front {
      assert address[|IPN|..] == front + [DOT] + back;
      FirstDot(front, back);
    }
    if IPN <= address && 46 !in address {
      var body := address[|IPN|..];
      assert forall i :: 0 <= i < |body| ==> body[i] == address[i + 4] && address[i + 4] in address;
    }
  }

  // Where a peer's first Bp endpoint is, or how many endpoints it has if none is.
  function FirstBp(endpoints: seq<Endpoint>): (k: nat)
    ensures k <= |endpoints| && (forall i :: 0 <= i < k ==> !endpoints[i].Bp?)
    ensures k < |endpoints| ==> endpoints[k].Bp?
  {
    if endpoints == [] || endpoints[0].Bp? then 0 else 1 + FirstBp(endpoints[1..])
  }

  lemma {:induction false} IonIdOfFirst(peer: Peer, endpoints: seq<Endpoint>)
    ensures var k := FirstBp(endpoints);
            IonIdOf(peer, endpoints) == if k < |endpoints| then ExtractIonId(endpoints[k].address) else peer.uuid
    decreases |endpoints|
  {
    hide ExtractIonId;
    if endpoints != [] {
      IonIdOfFirst(peer, endpoints[1..]);
    }
  }

  // The prediction key of a peer: its uuid without a Bp endpoint; with one whose address the parser
  // accepts, the node numeral as configured, which is the node's canonical name exactly when it is
  // written canonically. Later Bp endpoints play no part.
  lemma PredictionKey(peer: Peer)
    ensures var k := FirstBp(peer.endpoints);
            && (k == |peer.endpoints| ==> IonIdOf(peer, peer.endpoints) == peer.uuid)
            && (k < |peer.endpoints| ==> IonIdOf(peer, peer.endpoints) == ExtractIonId(peer.endpoints[k].address))
            && (k < |peer.endpoints| && CreateSockaddr(peer.endpoints[k].address).Ipn? ==>
                  var address := peer.endpoints[k].address;
                  && |Numerals(address)| == 2 && IonIdOf(peer, peer.endpoints) == Numerals(address)[0]
                  && (IonIdOf(peer, peer.endpoints) == PrintDec(CreateSockaddr(address).node)
                      <==> Canonical(Numerals(address)[0])))
  {
    hide ExtractIonId, PrintDec, Canonical, ValidUtf8, Split, ParseU32;
    var k := FirstBp(peer.endpoints);
    IonIdOfFirst(peer, peer.endpoints);
    if k < |peer.endpoints| && CreateSockaddr(peer.endpoints[k].address).Ipn? {
      IonIdOfAddress(peer.endpoints[k].address);
    }
  }
}
