/** The end-to-end safe point: payload, zero padding to a whole quadlet, then a
    CRC32 over the unpadded message. The checksum is a parameter, so every
    statement holds for any 32-bit function of the covered octets. */
module E2E {
  import opened Bytes
  import opened Outcomes
  import opened Acf

  type Checksum = seq<Byte> -> Word32

  const LEN := 4

  datatype Error = ShortSafePoint | CRCMismatch(got: Word32)

  // ------------------------------------------------------------- coverage

  /** The descriptor octets the checksum covers. Only the low octet of the bus
      id is written; evt, hs, cs, mtv and pad are not written at all. */
  function CoveredHeader(stream: StreamId, m: Message): (h: seq<Byte>)
    ensures |h| == 23
  {
    stream + [m.kind, m.busId % 0x100] + Be16(m.txn) + [m.control] + Be16(m.readSize) + Be64(m.timestamp)
  }

  function Covered(stream: StreamId, m: Message): seq<Byte> {
    CoveredHeader(stream, m) + m.body
  }

  function Compute(crc: Checksum, stream: StreamId, m: Message): Word32 {
    crc(Covered(stream, m))
  }

  /** The checksum of a message sent in several bodies. */
  function ComputeFragmented(crc: Checksum, stream: StreamId, header: Message, bodies: seq<seq<Byte>>): Word32 {
    Compute(crc, stream, header.(body := Concat(bodies)))
  }

  /** Everything of a message that its checksum can depend on. */
  predicate SameCoverage(s: StreamId, m: Message, s': StreamId, m': Message) {
    && s == s' && m.kind == m'.kind && m.busId % 0x100 == m'.busId % 0x100 && m.txn == m'.txn
    && m.control == m'.control && m.readSize == m'.readSize && m.timestamp == m'.timestamp
    && m.body == m'.body
  }

  lemma HeaderFields(s: StreamId, m: Message)
    ensures var h := CoveredHeader(s, m);
            && h[..8] == s && h[8] == m.kind && h[9] == m.busId % 0x100
            && h[10..12] == Be16(m.txn) && h[12] == m.control
            && h[13..15] == Be16(m.readSize) && h[15..23] == Be64(m.timestamp)
  {
    hide Be16;
    hide Be64;
  }

  /** The covered octets determine exactly the fields of SameCoverage: no field
      order or field width makes two different ones collide, and nothing else
      is protected. */
  lemma CoverageIsExact(s: StreamId, m: Message, s': StreamId, m': Message)
    ensures Covered(s, m) == Covered(s', m') <==> SameCoverage(s, m, s', m')
  {
    hide Be16;
    hide Be64;
    if Covered(s, m) == Covered(s', m') {
      var h, h' := CoveredHeader(s, m), CoveredHeader(s', m');
      assert Covered(s, m)[..23] == h && Covered(s', m')[..23] == h';
      assert Covered(s, m)[23..] == m.body && Covered(s', m')[23..] == m'.body;
      HeaderFields(s, m);
      HeaderFields(s', m');
      assert FromBe16(Be16(m.txn)) == m.txn && FromBe16(Be16(m'.txn)) == m'.txn;
      assert FromBe16(Be16(m.readSize)) == m.readSize && FromBe16(Be16(m'.readSize)) == m'.readSize;
      assert FromBe64(Be64(m.timestamp)) == m.timestamp && FromBe64(Be64(m'.timestamp)) == m'.timestamp;
    }
  }

  // ---------------------------------------------------- protect and verify

  function PadLenFor(n: nat): (p: nat)
    ensures p < 4 && (n + p) % 4 == 0
  {
    (4 - n % 4) % 4
  }

  function Protect(crc: Checksum, stream: StreamId, m: Message): Message {
    m.(body := m.body + Zeros(PadLenFor(|m.body|)) + Be32(Compute(crc, stream, m)))
  }

  /** `pad` trailing zeros of `w` can be padding: what precedes them, read after
      `prefix`, has checksum `got`. */
  predicate Fits(crc: Checksum, prefix: seq<Byte>, w: seq<Byte>, got: Word32, pad: nat) {
    pad <= |w| && AllZero(w[|w| - pad..]) && crc(prefix + w[..|w| - pad]) == got
  }

  function MaxPad(w: seq<Byte>): nat {
    if |w| < 3 then |w| else 3
  }

  /** The shortest padding in pad..limit that fits. */
  function ShortestFrom(crc: Checksum, prefix: seq<Byte>, w: seq<Byte>, got: Word32, pad: nat, limit: nat)
    : (r: Option<nat>)
    ensures r.Some? ==> pad <= r.value <= limit
    decreases limit + 1 - pad
  {
    if pad > limit then None
    else if Fits(crc, prefix, w, got, pad) then Some(pad)
    else ShortestFrom(crc, prefix, w, got, pad + 1, limit)
  }

  function Shortest(crc: Checksum, prefix: seq<Byte>, w: seq<Byte>, got: Word32): (r: Option<nat>)
    ensures r.Some? ==> r.value <= MaxPad(w)
  {
    ShortestFrom(crc, prefix, w, got, 0, MaxPad(w))
  }

  lemma {:induction false} ShortestFromIsLeast(crc: Checksum, prefix: seq<Byte>, w: seq<Byte>, got: Word32,
                                               pad: nat, limit: nat)
    ensures var r := ShortestFrom(crc, prefix, w, got, pad, limit);
            && (r.Some? ==> Fits(crc, prefix, w, got, r.value))
            && (forall p :: pad <= p <= limit && Fits(crc, prefix, w, got, p) ==> r.Some? && r.value <= p)
    decreases limit + 1 - pad
  {
    hide Fits;
    if pad <= limit && !Fits(crc, prefix, w, got, pad) {
      ShortestFromIsLeast(crc, prefix, w, got, pad + 1, limit);
    }
  }

  lemma ShortestIsLeast(crc: Checksum, prefix: seq<Byte>, w: seq<Byte>, got: Word32)
    ensures var r := Shortest(crc, prefix, w, got);
            && (r.Some? ==> Fits(crc, prefix, w, got, r.value))
            && (forall p :: 0 <= p <= MaxPad(w) && Fits(crc, prefix, w, got, p) ==> r.Some? && r.value <= p)
  {
    ShortestFromIsLeast(crc, prefix, w, got, 0, MaxPad(w));
  }

  /** The scan of the supposed pad octets. */
  method ZeroFrom(w: seq<Byte>, start: nat) returns (allZero: bool)
    requires start <= |w|
    ensures allZero <==> AllZero(w[start..])
  {
    for i := start to |w|
      invariant AllZero(w[start..i])
    {
      if w[i] != 0 {
        assert w[start..][i - start] == w[i];
        return false;
      }
      assert w[start..i + 1] == w[start..i] + [w[i]];
    }
    assert w[start..|w|] == w[start..];
    return true;
  }

  /** The source's search over pad lengths. */
  method RecoverProtected(crc: Checksum, prefix: seq<Byte>, w: seq<Byte>, got: Word32)
    returns (payload: Option<seq<Byte>>)
    ensures var s := Shortest(crc, prefix, w, got);
            payload == if s.Some? then Some(w[..|w| - s.value]) else None
  {
    hide AllZero;
    var maxPad := 3;
    if maxPad > |w| {
      maxPad := |w|;
    }
    var pad := 0;
    while pad <= maxPad
      invariant 0 <= pad <= maxPad + 1
      invariant Shortest(crc, prefix, w, got) == ShortestFrom(crc, prefix, w, got, pad, maxPad)
    {
      var realLen := |w| - pad;
      var allZero := ZeroFrom(w, realLen);
      assert w[realLen..] == w[|w| - pad..];
      if allZero && crc(prefix + w[..realLen]) == got {
        assert Fits(crc, prefix, w, got, pad);
        return Some(w[..realLen]);
      }
      assert !Fits(crc, prefix, w, got, pad);
      pad := pad + 1;
    }
    return None;
  }

  function Verify(crc: Checksum, stream: StreamId, m: Message): Result<Message, Error> {
    if |m.body| < LEN then Err(ShortSafePoint)
    else
      var w := m.body[..|m.body| - LEN];
      var got := FromBe32(m.body[|m.body| - LEN..]);
      var pad := Shortest(crc, CoveredHeader(stream, m), w, got);
      if pad.None? then Err(CRCMismatch(got)) else Ok(m.(body := w[..|w| - pad.value]))
  }

  /** Only the last body carries the safe point; the checksum spans them all. */
  function VerifyFragmented(crc: Checksum, stream: StreamId, header: Message, bodies: seq<seq<Byte>>)
    : Result<Message, Error>
  {
    if bodies == [] then Err(ShortSafePoint)
    else
      var last := bodies[|bodies| - 1];
      if |last| < LEN then Err(ShortSafePoint)
      else
        var w := last[..|last| - LEN];
        var got := FromBe32(last[|last| - LEN..]);
        var earlier := Concat(bodies[..|bodies| - 1]);
        var pad := Shortest(crc, CoveredHeader(stream, header) + earlier, w, got);
        if pad.None? then Err(CRCMismatch(got))
        else Ok(header.(body := earlier + w[..|w| - pad.value]))
  }

  // ------------------------------------------------------------ round trips

  /** Some shorter padding of `m` would pass the checksum as well. */
  predicate Collides(crc: Checksum, stream: StreamId, m: Message) {
    exists k :: 0 < k <= PadLenFor(|m.body|) &&
      Compute(crc, stream, m.(body := m.body + Zeros(k))) == Compute(crc, stream, m)
  }

  /** What is left of a protected body when `p` octets of padding are removed. */
  lemma ProtectedPrefix(m: Message, n: nat, p: nat)
    requires n == PadLenFor(|m.body|) && p <= n
    ensures var w := m.body + Zeros(n);
            AllZero(w[|w| - p..]) && w[..|w| - p] == m.body + Zeros(n - p)
  {
  }

  lemma ProtectedParts(crc: Checksum, stream: StreamId, m: Message)
    ensures var b := Protect(crc, stream, m).body; var n := PadLenFor(|m.body|);
            && |b| == |m.body| + n + LEN
            && b[..|b| - LEN] == m.body + Zeros(n)
            && FromBe32(b[|b| - LEN..]) == Compute(crc, stream, m)
  {
    hide Be32;
    hide Zeros;
    hide PadLenFor;
    var b := Protect(crc, stream, m).body;
    assert b[|b| - LEN..] == Be32(Compute(crc, stream, m));
  }

  lemma FitsIsChecksum(crc: Checksum, stream: StreamId, m: Message, p: nat)
    requires p <= PadLenFor(|m.body|)
    ensures Fits(crc, CoveredHeader(stream, m), m.body + Zeros(PadLenFor(|m.body|)), Compute(crc, stream, m), p) <==>
            Compute(crc, stream, m.(body := m.body + Zeros(PadLenFor(|m.body|) - p))) == Compute(crc, stream, m)
  {
    hide Zeros;
    hide PadLenFor;
    ProtectedPrefix(m, PadLenFor(|m.body|), p);
  }

  /** Verification always accepts what protection produced. It returns the
      payload followed by at most the padding, and returns exactly the payload
      if and only if no shorter padding collides. */
  lemma VerifyAcceptsProtected(crc: Checksum, stream: StreamId, m: Message)
    ensures exists k :: 0 <= k <= PadLenFor(|m.body|) &&
              Verify(crc, stream, Protect(crc, stream, m)) == Ok(m.(body := m.body + Zeros(k)))
    ensures Verify(crc, stream, Protect(crc, stream, m)) == Ok(m) <==> !Collides(crc, stream, m)
  {
    hide Zeros;
    hide PadLenFor;
    hide Fits;
    hide CoveredHeader;
    hide Protect;
    var n := PadLenFor(|m.body|);
    var prot := Protect(crc, stream, m);
    ProtectedParts(crc, stream, m);
    ProtectKeepsHeader(crc, stream, m);
    var w := m.body + Zeros(n);
    var got := Compute(crc, stream, m);
    var prefix := CoveredHeader(stream, m);
    forall p | 0 <= p <= n
      ensures Fits(crc, prefix, w, got, p) <==>
              Compute(crc, stream, m.(body := m.body + Zeros(n - p))) == got
    {
      FitsIsChecksum(crc, stream, m, p);
    }
    assert m.body + Zeros(0) == m.body;
    assert Fits(crc, prefix, w, got, n);
    var s := Shortest(crc, prefix, w, got);
    ShortestIsLeast(crc, prefix, w, got);
    ProtectedPrefix(m, n, s.value);
    assert Verify(crc, stream, prot) == Ok(m.(body := m.body + Zeros(n - s.value)));
    assert |m.body + Zeros(n - s.value)| == |m.body| + n - s.value;
    if Collides(crc, stream, m) {
      var k :| 0 < k <= n && Compute(crc, stream, m.(body := m.body + Zeros(k))) == got;
      assert Fits(crc, prefix, w, got, n - k);
    }
  }

  lemma ProtectKeepsHeader(crc: Checksum, stream: StreamId, m: Message)
    ensures Protect(crc, stream, m) == m.(body := Protect(crc, stream, m).body)
    ensures CoveredHeader(stream, Protect(crc, stream, m)) == CoveredHeader(stream, m)
  {
  }

  /** On every accepted message, protecting again gives back the message octet
      for octet if and only if its body was a whole number of quadlets. */
  lemma ProtectOfVerify(crc: Checksum, stream: StreamId, m: Message)
    requires Verify(crc, stream, m).Ok?
    ensures Protect(crc, stream, Verify(crc, stream, m).value) == m <==> |m.body| % 4 == 0
  {
    hide CoveredHeader;
    hide Be32;
    hide FromBe32;
    hide Shortest;
    hide Zeros;
    var w := m.body[..|m.body| - LEN];
    var trailer := m.body[|m.body| - LEN..];
    var got := FromBe32(trailer);
    var pad := Shortest(crc, CoveredHeader(stream, m), w, got).value;
    var inner := Verify(crc, stream, m).value;
    CoveredHeaderIgnoresBody(stream, m, inner.body);
    ShortestIsLeast(crc, CoveredHeader(stream, m), w, got);
    assert Compute(crc, stream, inner) == got;
    Be32OfFrom(trailer);
    if |m.body| % 4 == 0 {
      assert PadLenFor(|inner.body|) == pad;
      hide PadLenFor;
      assert w == inner.body + Zeros(pad);
      assert m.body == w + trailer;
    }
  }

  lemma CoveredHeaderIgnoresBody(stream: StreamId, m: Message, b: seq<Byte>)
    ensures CoveredHeader(stream, m.(body := b)) == CoveredHeader(stream, m)
  {
  }

  /** The same protected octets verify under any other bus id with the same low
      octet and any evt, hs, cs and mtv: those are outside the safe point. */
  lemma UncoveredFieldsDoNotMatter(crc: Checksum, stream: StreamId, m: Message, m': Message)
    requires SameCoverage(stream, m, stream, m')
    ensures Verify(crc, stream, m').Ok? == Verify(crc, stream, m).Ok?
    ensures Verify(crc, stream, m).Ok? ==>
            Verify(crc, stream, m').value == m'.(body := Verify(crc, stream, m).value.body)
  {
    hide CoveredHeader;
    hide Shortest;
    hide FromBe32;
    hide Fits;
    SameCoverageSameHeader(stream, m, m');
  }

  lemma SameCoverageSameHeader(stream: StreamId, m: Message, m': Message)
    requires SameCoverage(stream, m, stream, m')
    ensures CoveredHeader(stream, m) == CoveredHeader(stream, m')
  {
  }

  /** Padding completes the quadlet and no more. */
  lemma PaddingCompletes(n: nat)
    ensures PadLenFor(n) < 4 && (n + PadLenFor(n)) % 4 == 0
  {
  }

  /** What Verify accepts: four octets of trailer, and before them at most three
      zeros after which the checksum of the header and the rest is the trailer. */
  lemma VerifyAcceptsExactly(crc: Checksum, stream: StreamId, m: Message)
    ensures Verify(crc, stream, m) == Err(ShortSafePoint) <==> |m.body| < 4
    ensures Verify(crc, stream, m).Ok? <==>
            && |m.body| >= 4
            && exists n :: 0 <= n <= |m.body| - 4 && |m.body| - 4 - n <= 3 && AllZero(m.body[n..|m.body| - 4])
                           && crc(CoveredHeader(stream, m) + m.body[..n]) == FromBe32(m.body[|m.body| - 4..])
  {
    hide CoveredHeader;
    hide FromBe32;
    hide AllZero;
    hide Shortest;
    if |m.body| >= 4 {
      var k := |m.body| - 4;
      var w, got, h := m.body[..k], FromBe32(m.body[k..]), CoveredHeader(stream, m);
      ShortestIsLeast(crc, h, w, got);
      forall n | 0 <= n <= k
        ensures Fits(crc, h, w, got, k - n) <==> AllZero(m.body[n..k]) && crc(h + m.body[..n]) == got
      {
        assert w[n..] == m.body[n..k] && w[..n] == m.body[..n];
      }
      hide Fits;
      var r := Shortest(crc, h, w, got);
      if r.Some? {
        assert Fits(crc, h, w, got, k - (k - r.value));
      }
      if n :| 0 <= n <= k && k - n <= 3 && AllZero(m.body[n..k]) && crc(h + m.body[..n]) == got {
        assert Fits(crc, h, w, got, k - n);
      }
    }
  }

  // ------------------------------------------------------------ fragmented

  lemma ConcatLast(bodies: seq<seq<Byte>>)
    requires bodies != []
    ensures Concat(bodies) == Concat(bodies[..|bodies| - 1]) + bodies[|bodies| - 1]
  {
    var n := |bodies| - 1;
    assert bodies == bodies[..n] + [bodies[n]];
    ConcatAppend(bodies[..n], [bodies[n]]);
    assert Concat([bodies[n]]) == bodies[n] by {
      var one: seq<seq<Byte>> := [bodies[n]];
      assert one[1..] == [];
    }
  }

  /** What the fragmented search compares with the trailer is the checksum of all
      bodies together, the last one trimmed. */
  lemma CandidateIsFragmented(crc: Checksum, stream: StreamId, header: Message, earlier: seq<seq<Byte>>,
                              w: seq<Byte>, got: Word32, pad: nat)
    ensures Fits(crc, CoveredHeader(stream, header) + Concat(earlier), w, got, pad) <==>
            && pad <= |w| && AllZero(w[|w| - pad..])
            && ComputeFragmented(crc, stream, header, earlier + [w[..|w| - pad]]) == got
  {
    hide CoveredHeader;
    hide AllZero;
    if pad <= |w| {
      var trimmed := earlier + [w[..|w| - pad]];
      ConcatLast(trimmed);
      hide Concat;
      assert trimmed[..|earlier|] == earlier;
      CoveredHeaderIgnoresBody(stream, header, Concat(trimmed));
      var h := CoveredHeader(stream, header);
      assert h + Concat(trimmed) == h + Concat(earlier) + w[..|w| - pad];
    }
  }

  lemma FitsInLastBody(crc: Checksum, h: seq<Byte>, earlier: seq<Byte>, w: seq<Byte>, got: Word32, pad: nat)
    requires pad <= |w|
    ensures Fits(crc, h + earlier, w, got, pad) <==> Fits(crc, h, earlier + w, got, pad)
  {
    var c := earlier + w;
    assert c[|c| - pad..] == w[|w| - pad..];
    assert c[..|c| - pad] == earlier + w[..|w| - pad];
    assert h + (earlier + w[..|w| - pad]) == h + earlier + w[..|w| - pad];
  }

  lemma ShortestInLastBody(crc: Checksum, h: seq<Byte>, earlier: seq<Byte>, w: seq<Byte>, got: Word32)
    ensures var f := Shortest(crc, h + earlier, w, got);
            var v := Shortest(crc, h, earlier + w, got);
            && (f.Some? <==> v.Some? && v.value <= |w|)
            && (f.Some? ==> f == v && (earlier + w)[..|earlier + w| - f.value] == earlier + w[..|w| - f.value])
  {
    hide Fits;
    hide Shortest;
    forall p | 0 <= p <= |w|
      ensures Fits(crc, h + earlier, w, got, p) <==> Fits(crc, h, earlier + w, got, p)
    {
      FitsInLastBody(crc, h, earlier, w, got, p);
    }
    ShortestIsLeast(crc, h + earlier, w, got);
    ShortestIsLeast(crc, h, earlier + w, got);
  }

  /** Verifying fragment by fragment refines verifying the reassembled message.
      It accepts exactly the reassembled messages whose shortest fitting padding
      lies, with the checksum, inside the last fragment; then the results are
      equal. */
  lemma FragmentedRefinesWhole(crc: Checksum, stream: StreamId, header: Message, bodies: seq<seq<Byte>>)
    requires bodies != []
    ensures var f := VerifyFragmented(crc, stream, header, bodies);
            var v := Verify(crc, stream, header.(body := Concat(bodies)));
            var last := |bodies[|bodies| - 1]|;
            && (f.Ok? <==> v.Ok? && last >= LEN && |Concat(bodies)| - LEN - |v.value.body| <= last - LEN)
            && (f.Ok? ==> v == f)
            && (last >= LEN + 3 ==> f == v)
  {
    hide CoveredHeader;
    hide Fits;
    hide Shortest;
    hide Concat;
    hide FromBe32;
    var last := bodies[|bodies| - 1];
    var earlier := Concat(bodies[..|bodies| - 1]);
    var c := Concat(bodies);
    ConcatLast(bodies);
    CoveredHeaderIgnoresBody(stream, header, c);
    if |last| >= LEN {
      var h := CoveredHeader(stream, header);
      var w := last[..|last| - LEN];
      var got := FromBe32(last[|last| - LEN..]);
      assert c[|c| - LEN..] == last[|last| - LEN..];
      assert c[..|c| - LEN] == earlier + w;
      ShortestInLastBody(crc, h, earlier, w, got);
    }
  }
}
