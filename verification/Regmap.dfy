/** The register map and its one contiguous image: a general block whose pointers
    locate a pin table, stream limits, queue settings and a sorted endpoint table. */
module Regmap {
  import opened Bytes
  import opened Outcomes

  datatype Error = ShortBuffer | TrailingBytes | BadMagic | UnsupportedVersion | UnknownEndpointType

  // ---------------------------------------------------------------- general

  const MAGIC: Word32 := 0x5243_5030
  const VERSION: Word32 := 0
  const GENERAL_LEN := 48

  datatype General = General(
    magic: Word32, version: Word32, vendorId: Word16, deviceId: Word16, numEndpoints: Word16,
    maxRequestStreams: Byte, maxResponderStreams: Byte,
    maxResponderQueueWords: Word16, maxRequestQueueWords: Word16,
    numSequencerStates: Byte, configLock: Byte, options: Byte, reserved0: Byte,
    numIOPins: Word16, hwPointer: Word16, maxConfigRequest: Byte, maxConfigResponse: Byte, clientPointer: Word16,
    queuePointer: Word16, reserved1: Word16, endpointPointer: Word16, endpointLength: Word16,
    endpointMapPointer: Word16, endpointMapMax: Byte, reserved2: Byte,
    functionalPointer: Word16, sequencerPointer: Word16)

  function Octets0(g: General): (b: seq<Byte>)
    ensures |b| == 16
  {
    Be32(g.magic) + Be32(g.version) + Be16(g.vendorId) + Be16(g.deviceId) + Be16(g.numEndpoints)
      + [g.maxRequestStreams, g.maxResponderStreams]
  }

  function Octets1(g: General): (b: seq<Byte>)
    ensures |b| == 16
  {
    Be16(g.maxResponderQueueWords) + Be16(g.maxRequestQueueWords)
      + [g.numSequencerStates, g.configLock, g.options, g.reserved0]
      + Be16(g.numIOPins) + Be16(g.hwPointer) + [g.maxConfigRequest, g.maxConfigResponse] + Be16(g.clientPointer)
  }

  function Octets2(g: General): (b: seq<Byte>)
    ensures |b| == 16
  {
    Be16(g.queuePointer) + Be16(g.reserved1) + Be16(g.endpointPointer) + Be16(g.endpointLength)
      + Be16(g.endpointMapPointer) + [g.endpointMapMax, g.reserved2]
      + Be16(g.functionalPointer) + Be16(g.sequencerPointer)
  }

  function EncodeGeneral(g: General): (b: seq<Byte>)
    ensures |b| == GENERAL_LEN
  {
    Octets0(g) + Octets1(g) + Octets2(g)
  }

  function ReadGeneral(a: seq<Byte>, b: seq<Byte>, c: seq<Byte>): General
    requires |a| == |b| == |c| == 16
  {
    General(
      FromBe32(a[0..4]), FromBe32(a[4..8]), FromBe16(a[8..10]), FromBe16(a[10..12]), FromBe16(a[12..14]), a[14], a[15],
      FromBe16(b[0..2]), FromBe16(b[2..4]), b[4], b[5], b[6], b[7],
      FromBe16(b[8..10]), FromBe16(b[10..12]), b[12], b[13], FromBe16(b[14..16]),
      FromBe16(c[0..2]), FromBe16(c[2..4]), FromBe16(c[4..6]), FromBe16(c[6..8]),
      FromBe16(c[8..10]), c[10], c[11], FromBe16(c[12..14]), FromBe16(c[14..16]))
  }

  function DecodeGeneral(b: seq<Byte>): Result<General, Error> {
    if |b| < GENERAL_LEN then Err(ShortBuffer)
    else if FromBe32(b[..4]) != MAGIC then Err(BadMagic)
    else Ok(ReadGeneral(b[..16], b[16..32], b[32..48]))
  }

  lemma PairAt(b: seq<Byte>, i: nat, w: seq<Byte>)
    requires i + 2 <= |b| && |w| == 2 && b[i] == w[0] && b[i + 1] == w[1]
    ensures b[i..i + 2] == w
  {
  }

  lemma Read0(g: General)
    ensures var a := Octets0(g);
            && a[0..4] == Be32(g.magic) && a[4..8] == Be32(g.version) && a[8..10] == Be16(g.vendorId)
            && a[10..12] == Be16(g.deviceId) && a[12..14] == Be16(g.numEndpoints)
            && a[14] == g.maxRequestStreams && a[15] == g.maxResponderStreams
  {
    hide Be16;
    hide Be32;
  }

  lemma Read1(g: General)
    ensures var b := Octets1(g);
            && b[0..2] == Be16(g.maxResponderQueueWords) && b[2..4] == Be16(g.maxRequestQueueWords)
            && b[4] == g.numSequencerStates && b[5] == g.configLock && b[6] == g.options && b[7] == g.reserved0
            && b[8..10] == Be16(g.numIOPins) && b[10..12] == Be16(g.hwPointer)
            && b[12] == g.maxConfigRequest && b[13] == g.maxConfigResponse && b[14..16] == Be16(g.clientPointer)
  {
    hide Be16;
    var b := Octets1(g);
    PairAt(b, 0, Be16(g.maxResponderQueueWords));
    PairAt(b, 2, Be16(g.maxRequestQueueWords));
    PairAt(b, 8, Be16(g.numIOPins));
    PairAt(b, 10, Be16(g.hwPointer));
    PairAt(b, 14, Be16(g.clientPointer));
  }

  lemma Read2(g: General)
    ensures var c := Octets2(g);
            && c[0..2] == Be16(g.queuePointer) && c[2..4] == Be16(g.reserved1) && c[4..6] == Be16(g.endpointPointer)
            && c[6..8] == Be16(g.endpointLength) && c[8..10] == Be16(g.endpointMapPointer)
            && c[10] == g.endpointMapMax && c[11] == g.reserved2
            && c[12..14] == Be16(g.functionalPointer) && c[14..16] == Be16(g.sequencerPointer)
  {
    hide Be16;
    var c := Octets2(g);
    PairAt(c, 0, Be16(g.queuePointer));
    PairAt(c, 2, Be16(g.reserved1));
    PairAt(c, 4, Be16(g.endpointPointer));
    PairAt(c, 6, Be16(g.endpointLength));
    PairAt(c, 8, Be16(g.endpointMapPointer));
    PairAt(c, 12, Be16(g.functionalPointer));
    PairAt(c, 14, Be16(g.sequencerPointer));
  }

  lemma GeneralRoundTrip(g: General, rest: seq<Byte>)
    requires g.magic == MAGIC
    ensures DecodeGeneral(EncodeGeneral(g) + rest) == Ok(g)
  {
    hide Be16;
    hide Be32;
    hide FromBe16;
    hide FromBe32;
    hide Octets0;
    hide Octets1;
    hide Octets2;
    var b := EncodeGeneral(g) + rest;
    assert b[..16] == Octets0(g) && b[16..32] == Octets1(g) && b[32..48] == Octets2(g);
    assert b[..4] == Octets0(g)[0..4];
    Read0(g);
    Read1(g);
    Read2(g);
  }

  // -------------------------------------------------------------- pin table

  datatype PinAssignment = PinAssignment(pin: Word16, endpoint: Word16, signal: Byte)

  /** Adds an assignment, or replaces the one its pin already has. */
  function PinSet(entries: seq<PinAssignment>, a: PinAssignment): seq<PinAssignment> {
    if entries == [] then [a]
    else if entries[0].pin == a.pin then [a] + entries[1..]
    else [entries[0]] + PinSet(entries[1..], a)
  }

  predicate DistinctPins(entries: seq<PinAssignment>) {
    forall i, j :: 0 <= i < j < |entries| ==> entries[i].pin != entries[j].pin
  }

  predicate HasPin(entries: seq<PinAssignment>, pin: Word16) {
    exists i :: 0 <= i < |entries| && entries[i].pin == pin
  }

  class PinMap {
    var entries: seq<PinAssignment>

    constructor ()
      ensures entries == []
    {
      entries := [];
    }

    method Set(a: PinAssignment)
      modifies this
      ensures entries == PinSet(old(entries), a)
    {
      for i := 0 to |entries|
        invariant entries == old(entries)
        invariant forall j :: 0 <= j < i ==> entries[j].pin != a.pin
      {
        if entries[i].pin == a.pin {
          PinSetOld(entries, a, i);
          entries := entries[i := a];
          return;
        }
      }
      PinSetNew(entries, a);
      entries := entries + [a];
    }
  }

  /** The pin's own row is replaced where it stands; every other row is kept. */
  lemma {:induction false} PinSetOld(entries: seq<PinAssignment>, a: PinAssignment, i: nat)
    requires i < |entries| && entries[i].pin == a.pin && forall j :: 0 <= j < i ==> entries[j].pin != a.pin
    ensures PinSet(entries, a) == entries[i := a]
    decreases i
  {
    if i > 0 {
      assert forall j :: 0 <= j < i - 1 ==> entries[1..][j] == entries[j + 1];
      PinSetOld(entries[1..], a, i - 1);
    }
  }

  /** A new pin goes to the end. */
  lemma {:induction false} PinSetNew(entries: seq<PinAssignment>, a: PinAssignment)
    requires !HasPin(entries, a.pin)
    ensures PinSet(entries, a) == entries + [a]
  {
    if entries != [] {
      assert !HasPin(entries[1..], a.pin) by {
        assert forall i :: 0 <= i < |entries[1..]| ==> entries[1..][i] == entries[i + 1];
      }
      PinSetNew(entries[1..], a);
    }
  }

  /** A table built by Set alone never binds a pin twice. */
  lemma PinSetKeepsDistinct(entries: seq<PinAssignment>, a: PinAssignment)
    requires DistinctPins(entries)
    ensures DistinctPins(PinSet(entries, a)) && a in PinSet(entries, a)
    ensures forall x :: x in PinSet(entries, a) <==> x == a || (x in entries && x.pin != a.pin)
  {
    hide PinSet;
    if HasPin(entries, a.pin) {
      var i :| 0 <= i < |entries| && entries[i].pin == a.pin;
      PinSetOld(entries, a, i);
      assert entries[i := a][i] == a;
      forall x | x in entries && x.pin != a.pin ensures x in entries[i := a] {
        var j :| 0 <= j < |entries| && entries[j] == x;
        assert entries[i := a][j] == x;
      }
    } else {
      PinSetNew(entries, a);
    }
  }

  function PinOctets(a: PinAssignment): (b: seq<Byte>)
    ensures |b| == 4
  {
    Be16(a.pin) + [a.endpoint % 0x100, a.signal]
  }

  function PinOf(b: seq<Byte>): PinAssignment
    requires |b| == 4
  {
    PinAssignment(FromBe16(b[..2]), b[2], b[3])
  }

  function PinRows(pins: seq<PinAssignment>): (b: seq<Byte>)
    ensures |b| == 4 * |pins|
  {
    if pins == [] then [] else PinOctets(pins[0]) + PinRows(pins[1..])
  }

  function EncodePins(pins: seq<PinAssignment>): (b: seq<Byte>)
    ensures |b| == 2 + 4 * |pins|
  {
    Be16(|pins| % 0x1_0000) + PinRows(pins)
  }

  function ReadPins(n: nat, b: seq<Byte>, acc: seq<PinAssignment>): seq<PinAssignment>
    requires |b| == 4 * n
    decreases n
  {
    if n == 0 then acc else ReadPins(n - 1, b[4..], PinSet(acc, PinOf(b[..4])))
  }

  function DecodePins(b: seq<Byte>): Result<seq<PinAssignment>, Error> {
    if |b| < 2 then Err(ShortBuffer)
    else
      var n := FromBe16(b[..2]) as int;
      if |b| != 2 + 4 * n then Err(ShortBuffer) else Ok(ReadPins(n, b[2..], []))
  }

  /** The source's loop, filling a pin map entry by entry. */
  method DecodePinMap(b: seq<Byte>) returns (r: Result<seq<PinAssignment>, Error>)
    ensures r == DecodePins(b)
  {
    hide PinOf;
    if |b| < 2 {
      return Err(ShortBuffer);
    }
    var n := FromBe16(b[..2]) as int;
    if |b| != 2 + 4 * n {
      return Err(ShortBuffer);
    }
    var p := new PinMap();
    var off := 2;
    for i := 0 to n
      invariant off == 2 + 4 * i
      invariant ReadPins(n - i, b[off..], p.entries) == ReadPins(n, b[2..], [])
    {
      assert b[off..][..4] == b[off..off + 4] && b[off..][4..] == b[off + 4..];
      p.Set(PinOf(b[off..off + 4]));
      off := off + 4;
    }
    return Ok(p.entries);
  }

  lemma PinOfOctets(a: PinAssignment)
    requires a.endpoint < 0x100
    ensures PinOf(PinOctets(a)) == a
  {
    hide Be16;
    hide FromBe16;
    assert PinOctets(a)[..2] == Be16(a.pin);
  }

  lemma {:induction false} ReadPinsOfRows(pins: seq<PinAssignment>, acc: seq<PinAssignment>)
    requires DistinctPins(acc + pins) && forall i :: 0 <= i < |pins| ==> pins[i].endpoint < 0x100
    ensures ReadPins(|pins|, PinRows(pins), acc) == acc + pins
    decreases pins
  {
    hide PinOctets;
    hide PinOf;
    if pins == [] {
      assert acc + pins == acc;
    } else {
      var a, rest := pins[0], pins[1..];
      var b := PinRows(pins);
      assert b[..4] == PinOctets(a) && b[4..] == PinRows(rest);
      PinOfOctets(a);
      assert !HasPin(acc, a.pin) by {
        forall i | 0 <= i < |acc| ensures acc[i].pin != a.pin {
          assert (acc + pins)[i] == acc[i] && (acc + pins)[|acc|] == a;
        }
      }
      PinSetNew(acc, a);
      assert (acc + [a]) + rest == acc + pins;
      ReadPinsOfRows(rest, acc + [a]);
    }
  }

  lemma {:induction false} PinSetSize(entries: seq<PinAssignment>, a: PinAssignment)
    ensures |entries| <= |PinSet(entries, a)| <= |entries| + 1
    ensures forall i :: 0 <= i < |PinSet(entries, a)| ==> PinSet(entries, a)[i] == a || PinSet(entries, a)[i] in entries
  {
    if entries != [] {
      assert entries == [entries[0]] + entries[1..];
      PinSetSize(entries[1..], a);
    }
  }

  /** Whatever is decoded fits back: at most `n` pins, one-octet addresses. */
  lemma {:induction false} ReadPinsFit(n: nat, b: seq<Byte>, acc: seq<PinAssignment>)
    requires |b| == 4 * n && forall a :: a in acc ==> a.endpoint < 0x100
    ensures |ReadPins(n, b, acc)| <= |acc| + n
    ensures forall a :: a in ReadPins(n, b, acc) ==> a.endpoint < 0x100
    decreases n
  {
    if n > 0 {
      var p := PinOf(b[..4]);
      PinSetSize(acc, p);
      ReadPinsFit(n - 1, b[4..], PinSet(acc, p));
    }
  }

  // -------------------------------------------------------- stream and queue

  datatype StreamLimits = StreamLimits(maxRequestStreams: Byte, maxInFlight: Word16)

  datatype QueueConfig = QueueConfig(flushThreshold: Word16, flushTimeMillis: Word32, heartbeatMillis: Word32)

  function EncodeStreams(s: StreamLimits): (b: seq<Byte>)
    ensures |b| == 3
  {
    [s.maxRequestStreams] + Be16(s.maxInFlight)
  }

  function DecodeStreams(b: seq<Byte>): Result<StreamLimits, Error> {
    if |b| != 3 then Err(ShortBuffer) else Ok(StreamLimits(b[0], FromBe16(b[1..3])))
  }

  function EncodeQueues(q: QueueConfig): (b: seq<Byte>)
    ensures |b| == 10
  {
    Be16(q.flushThreshold) + Be32(q.flushTimeMillis) + Be32(q.heartbeatMillis)
  }

  function DecodeQueues(b: seq<Byte>): Result<QueueConfig, Error> {
    if |b| != 10 then Err(ShortBuffer)
    else Ok(QueueConfig(FromBe16(b[0..2]), FromBe32(b[2..6]), FromBe32(b[6..10])))
  }

  lemma TablesRoundTrip(s: StreamLimits, q: QueueConfig)
    ensures DecodeStreams(EncodeStreams(s)) == Ok(s) && DecodeQueues(EncodeQueues(q)) == Ok(q)
  {
    hide Be16;
    hide Be32;
    hide FromBe16;
    hide FromBe32;
    assert EncodeStreams(s)[1..3] == Be16(s.maxInFlight);
    var b := EncodeQueues(q);
    assert b[0..2] == Be16(q.flushThreshold) && b[2..6] == Be32(q.flushTimeMillis);
    assert b[6..10] == Be32(q.heartbeatMillis);
  }

  // --------------------------------------------------------- endpoint table

  const ENDPOINT_TYPES := 13

  datatype Endpoint = Endpoint(address: Word16, kind: Byte, enabled: bool, data: seq<Byte>)

  type Endpoints = map<Word16, Endpoint>

  function EndpointOctets(e: Endpoint): seq<Byte> {
    [e.address % 0x100, e.kind, if e.enabled then 1 else 0] + Be16(|e.data| % 0x1_0000) + e.data
  }

  /** The endpoint at the front of `rest`, and the octets after it. */
  function DecodeEndpoint(rest: seq<Byte>): Result<(Endpoint, seq<Byte>), Error> {
    if |rest| < 3 then Err(ShortBuffer)
    else if rest[1] >= ENDPOINT_TYPES then Err(UnknownEndpointType)
    else if |rest| < 5 then Err(ShortBuffer)
    else
      var n := FromBe16(rest[3..5]) as int;
      if |rest| < 5 + n then Err(ShortBuffer)
      else Ok((Endpoint(rest[0], rest[1], rest[2] != 0, rest[5..5 + n]), rest[5 + n..]))
  }

  predicate IsMin(s: set<Word16>, m: Word16) {
    m in s && forall x :: x in s ==> m <= x
  }

  lemma {:induction false} MinExists(s: set<Word16>)
    requires s != {}
    ensures exists m :: IsMin(s, m)
    decreases |s|
  {
    var y :| y in s;
    if s == {y} {
      assert IsMin(s, y);
    } else {
      var rest := s - {y};
      assert |rest| < |s|;
      MinExists(rest);
      var m :| IsMin(rest, m);
      var least := if m <= y then m else y;
      forall x | x in s ensures least <= x {
        assert x == y || x in rest;
      }
      assert IsMin(s, least);
    }
  }

  function Smallest(s: set<Word16>): (m: Word16)
    requires s != {}
    ensures IsMin(s, m)
  {
    MinExists(s);
    var m :| IsMin(s, m);
    m
  }

  /** Every declared address, smallest first. */
  function Addresses(s: set<Word16>): (a: seq<Word16>)
    ensures forall x :: x in a <==> x in s
    decreases |s|
  {
    if s == {} then []
    else [Smallest(s)] + Addresses(s - {Smallest(s)})
  }

  predicate Ascending(a: seq<Word16>) {
    forall i, j :: 0 <= i < j < |a| ==> a[i] < a[j]
  }

  lemma AddressesUnfold(s: set<Word16>)
    ensures s == {} ==> Addresses(s) == []
    ensures s != {} ==> Addresses(s) == [Smallest(s)] + Addresses(s - {Smallest(s)})
  {
    hide Smallest;
  }

  lemma AscendingFront(m: Word16, rest: seq<Word16>)
    requires Ascending(rest) && forall x :: x in rest ==> m < x
    ensures Ascending([m] + rest)
  {
    forall i, j | 0 <= i < j < |[m] + rest| ensures ([m] + rest)[i] < ([m] + rest)[j] {
      assert ([m] + rest)[j] == rest[j - 1];
      assert rest[j - 1] in rest;
    }
  }

  /** Each address once, in ascending order. */
  lemma {:induction false} AddressesAscend(s: set<Word16>)
    ensures Ascending(Addresses(s)) && |Addresses(s)| == |s|
    decreases |s|
  {
    hide Addresses;
    hide Smallest;
    AddressesUnfold(s);
    if s != {} {
      var m := Smallest(s);
      AddressesAscend(s - {m});
      assert |s| == |s - {m}| + 1;
      AscendingFront(m, Addresses(s - {m}));
    }
  }

  lemma {:induction false} AscendingIsShort(a: seq<Word16>, k: nat)
    requires Ascending(a) && k < |a|
    ensures a[k] >= k
  {
    if k > 0 {
      AscendingIsShort(a, k - 1);
    }
  }

  function EndpointRows(addrs: seq<Word16>, eps: Endpoints): seq<Byte>
    requires forall a :: a in addrs ==> a in eps
  {
    if addrs == [] then [] else EndpointOctets(eps[addrs[0]]) + EndpointRows(addrs[1..], eps)
  }

  function EncodeEndpoints(eps: Endpoints): seq<Byte> {
    Be16(|eps| % 0x1_0000) + EndpointRows(Addresses(eps.Keys), eps)
  }

  function ReadEndpoints(n: nat, rest: seq<Byte>, acc: Endpoints): Result<Endpoints, Error>
    decreases n
  {
    if n == 0 then (if rest == [] then Ok(acc) else Err(TrailingBytes))
    else
      var e := DecodeEndpoint(rest);
      if e.Err? then Err(e.error) else ReadEndpoints(n - 1, e.value.1, acc[e.value.0.address := e.value.0])
  }

  function DecodeEndpoints(b: seq<Byte>): Result<Endpoints, Error> {
    if |b| < 2 then Err(ShortBuffer) else ReadEndpoints(FromBe16(b[..2]), b[2..], map[])
  }

  method DecodeEndpointTable(b: seq<Byte>) returns (r: Result<Endpoints, Error>)
    ensures r == DecodeEndpoints(b)
  {
    hide DecodeEndpoint;
    if |b| < 2 {
      return Err(ShortBuffer);
    }
    var n := FromBe16(b[..2]) as int;
    var rest := b[2..];
    var out: Endpoints := map[];
    for i := 0 to n
      invariant ReadEndpoints(n - i, rest, out) == ReadEndpoints(n, b[2..], map[])
    {
      var e := DecodeEndpoint(rest);
      if e.Err? {
        return Err(e.error);
      }
      out := out[e.value.0.address := e.value.0];
      rest := e.value.1;
    }
    if rest != [] {
      return Err(TrailingBytes);
    }
    return Ok(out);
  }

  predicate EndpointFits(e: Endpoint) {
    e.address < 0x100 && e.kind < ENDPOINT_TYPES && |e.data| <= 0xFFFF
  }

  lemma EndpointFront(e: Endpoint, rest: seq<Byte>)
    requires EndpointFits(e)
    ensures DecodeEndpoint(EndpointOctets(e) + rest) == Ok((e, rest))
  {
    hide Be16;
    hide FromBe16;
    var b := EndpointOctets(e) + rest;
    assert b[3..5] == Be16(|e.data|);
    assert b[5..5 + |e.data|] == e.data && b[5 + |e.data|..] == rest;
  }

  /** The endpoints at the given addresses. */
  function At(addrs: seq<Word16>, eps: Endpoints): Endpoints {
    map a | a in addrs && a in eps :: eps[a]
  }

  lemma AtStep(addrs: seq<Word16>, eps: Endpoints, acc: Endpoints)
    requires addrs != [] && addrs[0] in eps
    ensures acc[addrs[0] := eps[addrs[0]]] + At(addrs[1..], eps) == acc + At(addrs, eps)
  {
    var a, rest := addrs[0], addrs[1..];
    assert addrs == [a] + rest;
    assert forall x :: x in addrs <==> x == a || x in rest;
  }

  lemma {:induction false} ReadEndpointsOfRows(addrs: seq<Word16>, eps: Endpoints, acc: Endpoints)
    requires forall a :: a in addrs ==> a in eps && eps[a].address == a && EndpointFits(eps[a])
    ensures ReadEndpoints(|addrs|, EndpointRows(addrs, eps), acc) == Ok(acc + At(addrs, eps))
    decreases addrs
  {
    hide EndpointOctets;
    hide DecodeEndpoint;
    hide EndpointFits;
    if addrs == [] {
      assert acc + At(addrs, eps) == acc;
    } else {
      hide At;
      var a, rest := addrs[0], addrs[1..];
      EndpointFront(eps[a], EndpointRows(rest, eps));
      ReadEndpointsOfRows(rest, eps, acc[a := eps[a]]);
      AtStep(addrs, eps, acc);
    }
  }

  ghost predicate EndpointsFit(eps: Endpoints) {
    forall a :: a in eps ==> eps[a].address == a && EndpointFits(eps[a])
  }

  lemma {:induction false} ReadEndpointsFit(n: nat, rest: seq<Byte>, acc: Endpoints)
    requires EndpointsFit(acc) && ReadEndpoints(n, rest, acc).Ok?
    ensures EndpointsFit(ReadEndpoints(n, rest, acc).value)
    decreases n
  {
    if n > 0 {
      var e := DecodeEndpoint(rest);
      ReadEndpointsFit(n - 1, e.value.1, acc[e.value.0.address := e.value.0]);
    }
  }

  lemma EndpointsRoundTrip(eps: Endpoints)
    requires EndpointsFit(eps)
    ensures DecodeEndpoints(EncodeEndpoints(eps)) == Ok(eps)
  {
    hide EndpointRows;
    hide ReadEndpoints;
    hide EndpointFits;
    hide Be16;
    hide FromBe16;
    hide Addresses;
    var addrs := Addresses(eps.Keys);
    var b := EncodeEndpoints(eps);
    FewAddresses(eps);
    AddressesAscend(eps.Keys);
    assert |addrs| == |eps|;
    assert b[..2] == Be16(|eps|) && b[2..] == EndpointRows(addrs, eps);
    AllFit(eps, addrs);
    AllAt(eps, addrs);
    hide At;
    hide EndpointsFit;
    ReadEndpointsOfRows(addrs, eps, map[]);
  }

  lemma AllFit(eps: Endpoints, addrs: seq<Word16>)
    requires EndpointsFit(eps) && forall x :: x in addrs ==> x in eps
    ensures forall a :: a in addrs ==> a in eps && eps[a].address == a && EndpointFits(eps[a])
  {
  }

  lemma AllAt(eps: Endpoints, addrs: seq<Word16>)
    requires forall x :: x in addrs <==> x in eps
    ensures map[] + At(addrs, eps) == eps
  {
  }

  lemma FewAddresses(eps: Endpoints)
    requires EndpointsFit(eps)
    ensures |eps| <= 256
  {
    hide Addresses;
    var addrs := Addresses(eps.Keys);
    AddressesAscend(eps.Keys);
    if addrs != [] {
      var last := addrs[|addrs| - 1];
      assert last in addrs;
      assert last < 256;
      AscendingIsShort(addrs, |addrs| - 1);
    }
  }


  // --------------------------------------------------------------- the map

  datatype RegisterMap = RegisterMap(
    general: General,
    pins: seq<PinAssignment>,
    streams: StreamLimits,
    queues: QueueConfig,
    endpoints: Endpoints)

  function Low16(n: nat): Word16 {
    n % 0x1_0000
  }

  /** The general block as it is encoded: counts and pointers are recomputed from
      the sections, in sixteen-bit arithmetic, whatever the map says. */
  function Recomputed(m: RegisterMap): General {
    var client := Low16(GENERAL_LEN + |EncodePins(m.pins)|);
    var queue := Low16(client + 3);
    m.general.(
      magic := MAGIC, version := VERSION, numEndpoints := Low16(|m.endpoints|),
      maxRequestStreams := m.streams.maxRequestStreams,
      hwPointer := GENERAL_LEN, clientPointer := client, queuePointer := queue,
      endpointPointer := Low16(queue + 10), endpointLength := Low16(|EncodeEndpoints(m.endpoints)|))
  }

  function Encode(m: RegisterMap): seq<Byte> {
    EncodeGeneral(Recomputed(m)) + EncodePins(m.pins) + EncodeStreams(m.streams) + EncodeQueues(m.queues)
      + EncodeEndpoints(m.endpoints)
  }

  predicate InOrder(g: General, len: nat) {
    GENERAL_LEN <= g.hwPointer <= g.clientPointer <= g.queuePointer <= g.endpointPointer <= len
  }

  function Decode(b: seq<Byte>): Result<RegisterMap, Error> {
    var general := DecodeGeneral(b);
    if general.Err? then Err(general.error)
    else
      var g := general.value;
      if g.version != VERSION then Err(UnsupportedVersion)
      else if !InOrder(g, |b|) then Err(ShortBuffer)
      else
        var pins := DecodePins(b[g.hwPointer..g.clientPointer]);
        if pins.Err? then Err(pins.error)
        else
          var streams := DecodeStreams(b[g.clientPointer..g.queuePointer]);
          if streams.Err? then Err(streams.error)
          else
            var queues := DecodeQueues(b[g.queuePointer..g.endpointPointer]);
            if queues.Err? then Err(queues.error)
            else
              var endpoints := DecodeEndpoints(b[g.endpointPointer..]);
              if endpoints.Err? then Err(endpoints.error)
              else Ok(RegisterMap(g, pins.value, streams.value, queues.value, endpoints.value))
  }

  /** What every map built through the package's own operations satisfies. */
  ghost predicate WellFormed(m: RegisterMap) {
    DistinctPins(m.pins) && forall a :: a in m.endpoints ==> m.endpoints[a].address == a
  }

  /** The maps the image can hold: one-octet addresses, known types, data within
      the length field, and pointers that do not wrap. */
  ghost predicate Representable(m: RegisterMap) {
    && (forall a :: a in m.pins ==> a.endpoint < 0x100)
    && EndpointsFit(m.endpoints)
    && GENERAL_LEN + |EncodePins(m.pins)| + 3 + 10 <= 0xFFFF
  }

  /** In numbers: at most 16368 pins, addresses of one octet, thirteen types, and
      endpoint data of at most 65535 octets. */
  lemma RepresentableMeans(m: RegisterMap)
    ensures Representable(m) <==>
            && (forall a :: a in m.pins ==> a.endpoint <= 255) && |m.pins| <= 16368
            && forall a :: a in m.endpoints ==>
                 m.endpoints[a].address == a && a <= 255 && m.endpoints[a].kind <= 12 && |m.endpoints[a].data| <= 65535
  {
    hide EncodePins;
  }

  /** Everything of a map but the recomputed part of its general block. */
  predicate SameContent(m: RegisterMap, d: RegisterMap) {
    d.pins == m.pins && d.streams == m.streams && d.queues == m.queues && d.endpoints == m.endpoints
  }

  lemma PinsRoundTrip(pins: seq<PinAssignment>)
    requires DistinctPins(pins) && |pins| <= 0xFFFF && forall a :: a in pins ==> a.endpoint < 0x100
    ensures DecodePins(EncodePins(pins)) == Ok(pins)
  {
    hide Be16;
    hide FromBe16;
    hide PinRows;
    hide ReadPins;
    var b := EncodePins(pins);
    assert b[..2] == Be16(|pins|) && b[2..] == PinRows(pins);
    assert [] + pins == pins;
    ReadPinsOfRows(pins, []);
  }

  /** The sections of an image, where its pointers say they are. */
  lemma Sections(m: RegisterMap)
    requires GENERAL_LEN + |EncodePins(m.pins)| + 3 + 10 <= 0xFFFF
    ensures var b, g := Encode(m), Recomputed(m);
            && InOrder(g, |b|)
            && b[g.hwPointer..g.clientPointer] == EncodePins(m.pins)
            && b[g.clientPointer..g.queuePointer] == EncodeStreams(m.streams)
            && b[g.queuePointer..g.endpointPointer] == EncodeQueues(m.queues)
            && b[g.endpointPointer..] == EncodeEndpoints(m.endpoints)
  {
    hide EncodeGeneral;
    hide EncodePins;
    hide EncodeStreams;
    hide EncodeQueues;
    hide EncodeEndpoints;
  }

  lemma GeneralOfEncode(m: RegisterMap)
    ensures DecodeGeneral(Encode(m)) == Ok(Recomputed(m))
  {
    hide EncodeGeneral;
    hide DecodeGeneral;
    hide EncodePins;
    hide EncodeStreams;
    hide EncodeQueues;
    hide EncodeEndpoints;
    var rest := EncodePins(m.pins) + EncodeStreams(m.streams) + EncodeQueues(m.queues) + EncodeEndpoints(m.endpoints);
    assert Encode(m) == EncodeGeneral(Recomputed(m)) + rest;
    GeneralRoundTrip(Recomputed(m), rest);
  }

  /** A representable map comes back from its image: same pins in the same order,
      same limits, queues and endpoints, and the recomputed general block. */
  lemma RoundTrip(m: RegisterMap)
    requires WellFormed(m) && Representable(m)
    ensures Decode(Encode(m)) == Ok(m.(general := Recomputed(m)))
  {
    hide EncodePins;
    hide EncodeEndpoints;
    hide Encode;
    hide DecodeGeneral;
    hide DecodePins;
    hide DecodeStreams;
    hide DecodeQueues;
    hide DecodeEndpoints;
    hide DistinctPins;
    hide EndpointsFit;
    GeneralOfEncode(m);
    Sections(m);
    PinsRoundTrip(m.pins);
    TablesRoundTrip(m.streams, m.queues);
    EndpointsRoundTrip(m.endpoints);
  }

  /** Re-encoding what was decoded gives the identical image. */
  lemma ReencodeIsIdentity(m: RegisterMap)
    requires WellFormed(m) && Representable(m)
    ensures Decode(Encode(m)).Ok? && Encode(Decode(Encode(m)).value) == Encode(m)
  {
    hide Encode;
    hide Decode;
    RoundTrip(m);
    EncodeIgnoresRecomputed(m);
  }

  lemma EncodeIgnoresRecomputed(m: RegisterMap)
    ensures Encode(m.(general := Recomputed(m))) == Encode(m)
  {
    hide EncodeGeneral;
    hide EncodePins;
    hide EncodeStreams;
    hide EncodeQueues;
    hide EncodeEndpoints;
  }

  /** A decoded map is always within the image's bounds, pin count included. */
  lemma DecodedFits(b: seq<Byte>)
    requires Decode(b).Ok?
    ensures var d := Decode(b).value; var g := DecodeGeneral(b).value;
            && DecodeGeneral(b).Ok? && InOrder(g, |b|)
            && (forall a :: a in d.pins ==> a.endpoint < 0x100) && EndpointsFit(d.endpoints)
            && g.clientPointer - g.hwPointer >= 2
            && g.clientPointer - g.hwPointer == 2 + 4 * FromBe16(b[g.hwPointer..g.hwPointer + 2])
            && |d.pins| <= FromBe16(b[g.hwPointer..g.hwPointer + 2])
  {
    hide DecodeGeneral;
    hide DecodeStreams;
    hide DecodeQueues;
    hide FromBe16;
    hide ReadPins;
    hide ReadEndpoints;
    hide EndpointsFit;
    var g := DecodeGeneral(b).value;
    var p := b[g.hwPointer..g.clientPointer];
    var n := FromBe16(p[..2]) as int;
    assert p[..2] == b[g.hwPointer..g.hwPointer + 2];
    ReadPinsFit(n, p[2..], []);
    var e := b[g.endpointPointer..];
    NothingFits();
    ReadEndpointsFit(FromBe16(e[..2]), e[2..], map[]);
  }

  lemma NothingFits()
    ensures EndpointsFit(map[])
  {
  }

  lemma PinCountField(m: RegisterMap)
    ensures |Encode(m)| >= GENERAL_LEN + 2
    ensures Encode(m)[GENERAL_LEN..GENERAL_LEN + 2] == Be16(Low16(|m.pins|))
  {
    hide EncodeGeneral;
    hide PinRows;
    hide EncodeStreams;
    hide EncodeQueues;
    hide EncodeEndpoints;
    hide Be16;
    var pins := EncodePins(m.pins);
    var rest := EncodeStreams(m.streams) + EncodeQueues(m.queues) + EncodeEndpoints(m.endpoints);
    assert Encode(m) == EncodeGeneral(Recomputed(m)) + (pins + rest);
    assert pins[..2] == Be16(Low16(|m.pins|));
  }

  /** Pointers that do not run backwards, with the pin count they imply, have not wrapped. */
  lemma PointersForceFit(n: nat, client: int, queue: int, ep: int)
    requires n <= Low16(n) && client == Low16(50 + 4 * n) && queue == Low16(client + 3) && ep == Low16(queue + 10)
    requires client - 48 == 2 + 4 * Low16(n) && client <= queue <= ep
    ensures 63 + 4 * n <= 0xFFFF
  {
  }

  /** The bounds are exact: a map's content survives its image if and only if the
      map is representable. Anything else is truncated, misread or refused. */
  lemma RoundTripExactlyWhenRepresentable(m: RegisterMap)
    requires WellFormed(m)
    ensures Decode(Encode(m)).Ok? && SameContent(m, Decode(Encode(m)).value) <==> Representable(m)
  {
    hide Encode;
    hide Decode;
    hide EndpointsFit;
    hide EncodeEndpoints;
    if Representable(m) {
      RoundTrip(m);
    }
    if Decode(Encode(m)).Ok? && SameContent(m, Decode(Encode(m)).value) {
      DecodedFits(Encode(m));
      GeneralOfEncode(m);
      PinCountField(m);
      hide Low16;
      var g := Recomputed(m);
      PointersForceFit(|m.pins|, g.clientPointer, g.queuePointer, g.endpointPointer);
    }
  }
}
