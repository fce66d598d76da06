/** Request kinds, the sequencer registers, and the envelopes that carry
    conditional and cancellation requests in a message body. */
module Request {
  import opened Bytes
  import opened Outcomes

  type Int32 = d: int | -0x8000_0000 <= d < 0x8000_0000

  const MAX_UINT32: Word32 := 0xFFFF_FFFF

  // ------------------------------------------------------------- sequencers

  datatype CompareOp = Equal | NotEqual | Less | LessOrEqual | Greater | GreaterOrEqual

  predicate Evaluate(op: CompareOp, current: Word32, operand: Word32) {
    match op
    case Equal => current == operand
    case NotEqual => current != operand
    case Less => current < operand
    case LessOrEqual => current <= operand
    case Greater => current > operand
    case GreaterOrEqual => current >= operand
  }

  /** The sum clamped to the register's range, never wrapped. */
  function SaturatingAdd(current: Word32, delta: Int32): (r: Word32)
    ensures 0 <= current + delta <= MAX_UINT32 ==> r == current + delta
    ensures current + delta < 0 ==> r == 0
    ensures current + delta > MAX_UINT32 ==> r == MAX_UINT32
  {
    var sum: int := current + delta;
    if sum > MAX_UINT32 then MAX_UINT32 else if sum < 0 then 0 else sum
  }

  type Bank = map<Word16, Word32>

  /** Every register reads as zero until it is first advanced. */
  function Get(bank: Bank, id: Word16): Word32 {
    if id in bank then bank[id] else 0
  }

  datatype Conditional = Conditional(sequencer: Word16, op: CompareOp, operand: Word32, advance: Int32)

  predicate Matches(c: Conditional, bank: Bank) {
    Evaluate(c.op, Get(bank, c.sequencer), c.operand)
  }

  /** The bank after evaluating `c`: advanced on a match, untouched otherwise. */
  function Advanced(c: Conditional, bank: Bank): Bank {
    if Matches(c, bank) then bank[c.sequencer := SaturatingAdd(Get(bank, c.sequencer), c.advance)] else bank
  }

  // ------------------------------------------------------------------ kinds

  datatype Segment = Segment(control: Byte, body: seq<Byte>)

  /** A decoded request: its base kind and that kind's own fields. */
  datatype Action =
    | Plain(control: Byte, body: seq<Byte>)
    | Compound(cond: Conditional, control: Byte, body: seq<Byte>)
    | CompoundWait(cond: Conditional)
    | Triggered(source: Word16, control: Byte, body: seq<Byte>)
    | Chained(segments: seq<Segment>)
    | Timed(at: Word64, control: Byte, body: seq<Byte>)
    | CancelAll
    | CancelTransaction(txn: Word16)
    | CancelSequencer(sequencer: Word16)

  /** Section 12.9.2 of TC18: lower ranks run first. */
  function Priority(a: Action): nat {
    match a
    case CancelAll | CancelTransaction(_) | CancelSequencer(_) => 0
    case Triggered(_, _, _) => 1
    case Timed(_, _, _) => 2
    case Compound(_, _, _) => 3
    case CompoundWait(_) => 4
    case Chained(_) => 5
    case Plain(_, _) => 6
  }

  predicate IsCancellation(a: Action) {
    a.CancelAll? || a.CancelTransaction? || a.CancelSequencer?
  }

  function KindByte(a: Action): Byte {
    match a
    case Plain(_, _) => 0
    case Compound(_, _, _) => 1
    case CompoundWait(_) => 2
    case Triggered(_, _, _) => 3
    case Chained(_) => 4
    case Timed(_, _, _) => 5
    case CancelAll => 6
    case CancelTransaction(_) => 7
    case CancelSequencer(_) => 8
  }

  /** The tag that marks a safety request. */
  const SAFETY_FLAG := 0x80

  predicate ValidKind(k: Byte) {
    if k >= SAFETY_FLAG then 1 <= k - SAFETY_FLAG <= 3 else 1 <= k <= 8
  }

  // ----------------------------------------------------------- conditionals

  datatype Error = ShortBuffer | InvalidKind | TrailingBytes | InvalidCompareOp | InvalidSegmentCount

  function OpByte(op: CompareOp): (b: Byte)
    ensures b < 6 && OpOf(b) == op
  {
    match op
    case Equal => 0
    case NotEqual => 1
    case Less => 2
    case LessOrEqual => 3
    case Greater => 4
    case GreaterOrEqual => 5
  }

  function OpOf(b: Byte): CompareOp
    requires b < 6
  {
    [Equal, NotEqual, Less, LessOrEqual, Greater, GreaterOrEqual][b]
  }

  /** Two's complement. */
  function Unsigned(d: Int32): (w: Word32)
    ensures Signed(w) == d
  {
    if d < 0 then d + 0x1_0000_0000 else d
  }

  function Signed(w: Word32): (d: Int32) {
    if w >= 0x8000_0000 then w - 0x1_0000_0000 else w
  }

  const CONDITIONAL_LEN := 11

  function EncodeConditional(c: Conditional): (b: seq<Byte>)
    ensures |b| == CONDITIONAL_LEN
  {
    Be16(c.sequencer) + [OpByte(c.op)] + Be32(c.operand) + Be32(Unsigned(c.advance))
  }

  function DecodeConditional(b: seq<Byte>): Result<Conditional, Error>
    requires |b| == CONDITIONAL_LEN
  {
    if b[2] >= 6 then Err(InvalidCompareOp)
    else Ok(Conditional(FromBe16(b[0..2]), OpOf(b[2]), FromBe32(b[3..7]), Signed(FromBe32(b[7..11]))))
  }

  lemma ConditionalCodec(b: seq<Byte>, c: Conditional)
    requires |b| == CONDITIONAL_LEN
    ensures DecodeConditional(b) == Ok(c) <==> b == EncodeConditional(c)
  {
    hide Be16;
    hide Be32;
    hide FromBe16;
    hide FromBe32;
    var e := EncodeConditional(c);
    assert e[0..2] == Be16(c.sequencer) && e[2] == OpByte(c.op);
    assert e[3..7] == Be32(c.operand) && e[7..11] == Be32(Unsigned(c.advance));
    if DecodeConditional(b) == Ok(c) {
      Be16OfFrom(b[0..2]);
      Be32OfFrom(b[3..7]);
      Be32OfFrom(b[7..11]);
      assert b == b[0..2] + [b[2]] + b[3..7] + b[7..11];
      assert Unsigned(Signed(FromBe32(b[7..11]))) == FromBe32(b[7..11]);
    }
  }

  // ----------------------------------------------------------------- chains

  const MAX_BODY := 0xFFFF
  const MAX_SEGMENTS := 255

  function EncodeSegment(s: Segment): seq<Byte> {
    [s.control] + Be16(|s.body| % 0x1_0000) + s.body
  }

  function EncodeSegments(segs: seq<Segment>): seq<Byte> {
    if segs == [] then [] else EncodeSegment(segs[0]) + EncodeSegments(segs[1..])
  }

  predicate SegmentsFit(segs: seq<Segment>) {
    forall i :: 0 <= i < |segs| ==> |segs[i].body| <= MAX_BODY
  }

  /** `count` segments off the front of `rest`, and nothing after them. */
  function DecodeSegments(count: nat, rest: seq<Byte>): Result<seq<Segment>, Error>
    decreases count
  {
    if count == 0 then (if rest == [] then Ok([]) else Err(TrailingBytes))
    else if |rest| < 3 then Err(ShortBuffer)
    else
      var n := FromBe16(rest[1..3]);
      if |rest| < 3 + n then Err(ShortBuffer)
      else
        var tail := DecodeSegments(count - 1, rest[3 + n..]);
        if tail.Err? then tail else Ok([Segment(rest[0], rest[3..3 + n])] + tail.value)
  }

  lemma PrependAssociates(a: seq<Segment>, s: Segment, r: Result<seq<Segment>, Error>)
    ensures Prepend(a, Prepend([s], r)) == Prepend(a + [s], r)
    ensures Prepend([], r) == r
    ensures Prepend<Segment, Error>(a, Ok([])) == Ok(a)
  {
    assert r.Ok? ==> a + ([s] + r.value) == (a + [s]) + r.value;
    assert r.Ok? ==> [] + r.value == r.value;
    assert a + [] == a;
  }

  /** One step of the decoder, in terms of an offset into the whole body. */
  lemma DecodeSegmentsAt(count: nat, body: seq<Byte>, off: nat)
    requires off <= |body|
    ensures count == 0 ==> DecodeSegments(count, body[off..]) == if off == |body| then Ok([]) else Err(TrailingBytes)
    ensures count > 0 && |body| < off + 3 ==> DecodeSegments(count, body[off..]) == Err(ShortBuffer)
    ensures count > 0 && |body| >= off + 3 ==>
            var n := FromBe16(body[off + 1..off + 3]);
            DecodeSegments(count, body[off..]) ==
              if |body| < off + 3 + n then Err(ShortBuffer)
              else Prepend([Segment(body[off], body[off + 3..off + 3 + n])],
                           DecodeSegments(count - 1, body[off + 3 + n..]))
  {
    hide FromBe16;
    var rest := body[off..];
    if count > 0 && |body| >= off + 3 {
      assert rest[1..3] == body[off + 1..off + 3];
      var n: nat := FromBe16(rest[1..3]);
      if |rest| >= 3 + n {
        assert rest[3..3 + n] == body[off + 3..off + 3 + n];
        assert rest[3 + n..] == body[off + 3 + n..];
      }
    }
  }

  /** The source's decoding loop, with its moving offset. */
  method DecodeSegmentLoop(body: seq<Byte>, start: nat, count: nat) returns (r: Result<seq<Segment>, Error>)
    requires start <= |body|
    ensures r == DecodeSegments(count, body[start..])
  {
    hide FromBe16;
    hide DecodeSegments;
    hide Prepend;
    var segs: seq<Segment> := [];
    var off := start;
    ghost var all := DecodeSegments(count, body[start..]);
    PrependAssociates([], Segment(0, []), all);
    for i := 0 to count
      invariant start <= off <= |body|
      invariant Prepend(segs, DecodeSegments(count - i, body[off..])) == all
    {
      DecodeSegmentsAt(count - i, body, off);
      PrependError(segs, ShortBuffer);
      if |body| < off + 3 {
        return Err(ShortBuffer);
      }
      var control := body[off];
      var segLen := FromBe16(body[off + 1..off + 3]);
      off := off + 3;
      if |body| < off + segLen {
        return Err(ShortBuffer);
      }
      var seg := Segment(control, body[off..off + segLen]);
      off := off + segLen;
      PrependAssociates(segs, seg, DecodeSegments(count - i - 1, body[off..]));
      segs := segs + [seg];
    }
    DecodeSegmentsAt(0, body, off);
    PrependAssociates(segs, Segment(0, []), all);
    PrependError(segs, TrailingBytes);
    if off != |body| {
      return Err(TrailingBytes);
    }
    return Ok(segs);
  }

  lemma PrependError(a: seq<Segment>, e: Error)
    ensures Prepend<Segment, Error>(a, Err(e)) == Err(e)
  {
  }

  lemma SegmentFront(s: Segment, rest: seq<Byte>)
    requires |s.body| <= MAX_BODY
    ensures var b := EncodeSegment(s) + rest; var n := |s.body|;
            && |b| >= 3 + n && FromBe16(b[1..3]) == n && b[0] == s.control
            && b[3..3 + n] == s.body && b[3 + n..] == rest
  {
    hide Be16;
    hide FromBe16;
    var b := EncodeSegment(s) + rest;
    assert b[1..3] == Be16(|s.body|);
  }

  /** The segment decoder accepts exactly the encodings of `count` segments
      whose bodies fit their length fields. */
  lemma {:induction false} SegmentsCodec(count: nat, rest: seq<Byte>, segs: seq<Segment>)
    ensures DecodeSegments(count, rest) == Ok(segs) <==>
            |segs| == count && SegmentsFit(segs) && rest == EncodeSegments(segs)
    decreases count
  {
    hide FromBe16;
    hide EncodeSegment;
    if DecodeSegments(count, rest) == Ok(segs) && count > 0 {
      var n := FromBe16(rest[1..3]);
      var tail := rest[3 + n..];
      assert segs[1..] == DecodeSegments(count - 1, tail).value;
      SegmentsCodec(count - 1, tail, segs[1..]);
      SegmentBack(rest, n);
      FitsFront(segs);
    }
    if |segs| == count && SegmentsFit(segs) && rest == EncodeSegments(segs) && count > 0 {
      SegmentFront(segs[0], EncodeSegments(segs[1..]));
      FitsFront(segs);
      SegmentsCodec(count - 1, EncodeSegments(segs[1..]), segs[1..]);
      assert segs == [segs[0]] + segs[1..];
    }
  }

  lemma FitsFront(segs: seq<Segment>)
    requires segs != []
    ensures SegmentsFit(segs) <==> |segs[0].body| <= MAX_BODY && SegmentsFit(segs[1..])
  {
    if SegmentsFit(segs[1..]) && |segs[0].body| <= MAX_BODY {
      forall i | 0 <= i < |segs| ensures |segs[i].body| <= MAX_BODY {
        if i > 0 {
          assert segs[i] == segs[1..][i - 1];
        }
      }
    }
  }

  lemma SegmentBack(rest: seq<Byte>, n: nat)
    requires |rest| >= 3 + n && n == FromBe16(rest[1..3])
    ensures EncodeSegment(Segment(rest[0], rest[3..3 + n])) + rest[3 + n..] == rest
  {
    hide Be16;
    hide FromBe16;
    Be16OfFrom(rest[1..3]);
    assert rest == [rest[0]] + rest[1..3] + rest[3..3 + n] + rest[3 + n..];
  }

  // -------------------------------------------------------------- envelopes

  /** The requests that have an envelope: safety exists for three kinds only, a
      trigger source is written as one octet, and a chain must be countable. */
  predicate Encodable(a: Action, safety: bool) {
    && !a.Plain?
    && (safety ==> a.Compound? || a.CompoundWait? || a.Triggered?)
    && (a.Triggered? ==> a.source < 0x100)
    && (a.Chained? ==> 1 <= |a.segments| <= MAX_SEGMENTS && SegmentsFit(a.segments))
  }

  function EncodeFields(a: Action): seq<Byte> {
    match a
    case Plain(_, _) => []
    case Compound(c, control, body) => EncodeConditional(c) + [control] + body
    case CompoundWait(c) => EncodeConditional(c)
    case Triggered(source, control, body) => [source % 0x100, control] + body
    case Chained(segs) => [|segs| % 0x100] + EncodeSegments(segs)
    case Timed(at, control, body) => Be64(at) + [control] + body
    case CancelAll => []
    case CancelTransaction(txn) => Be16(txn)
    case CancelSequencer(id) => Be16(id)
  }

  function EncodeEnvelope(a: Action, safety: bool): seq<Byte> {
    [KindByte(a) + if safety then SAFETY_FLAG else 0] + EncodeFields(a)
  }

  /** The body after its kind octet, read as kind `base`. */
  function DecodeFields(base: Byte, f: seq<Byte>): Result<Action, Error>
    requires 1 <= base <= 8
  {
    match base
    case 1 =>
      if |f| < CONDITIONAL_LEN + 1 then Err(ShortBuffer)
      else
        var c := DecodeConditional(f[..CONDITIONAL_LEN]);
        if c.Err? then Err(c.error) else Ok(Compound(c.value, f[CONDITIONAL_LEN], f[CONDITIONAL_LEN + 1..]))
    case 2 =>
      if |f| < CONDITIONAL_LEN then Err(ShortBuffer)
      else if |f| > CONDITIONAL_LEN then Err(TrailingBytes)
      else
        var c := DecodeConditional(f);
        if c.Err? then Err(c.error) else Ok(CompoundWait(c.value))
    case 3 => if |f| < 2 then Err(ShortBuffer) else Ok(Triggered(f[0], f[1], f[2..]))
    case 4 =>
      if |f| < 1 then Err(ShortBuffer)
      else if f[0] == 0 then Err(InvalidSegmentCount)
      else
        var segs := DecodeSegments(f[0], f[1..]);
        if segs.Err? then Err(segs.error) else Ok(Chained(segs.value))
    case 5 => if |f| < 9 then Err(ShortBuffer) else Ok(Timed(FromBe64(f[..8]), f[8], f[9..]))
    case 6 => if |f| > 0 then Err(TrailingBytes) else Ok(CancelAll)
    case 7 =>
      if |f| < 2 then Err(ShortBuffer) else if |f| > 2 then Err(TrailingBytes)
      else Ok(CancelTransaction(FromBe16(f)))
    case _ =>
      if |f| < 2 then Err(ShortBuffer) else if |f| > 2 then Err(TrailingBytes)
      else Ok(CancelSequencer(FromBe16(f)))
  }

  function DecodeEnvelope(body: seq<Byte>): Result<(Action, bool), Error> {
    if |body| < 1 then Err(ShortBuffer)
    else if !ValidKind(body[0]) then Err(InvalidKind)
    else
      var safety := body[0] >= SAFETY_FLAG;
      var a := DecodeFields(if safety then body[0] - SAFETY_FLAG else body[0], body[1..]);
      if a.Err? then Err(a.error) else Ok((a.value, safety))
  }

  lemma FieldsOfEncoding(a: Action)
    requires Encodable(a, false)
    ensures DecodeFields(KindByte(a), EncodeFields(a)) == Ok(a)
  {
    hide Be16;
    hide Be64;
    hide FromBe16;
    hide FromBe64;
    hide EncodeConditional;
    hide DecodeConditional;
    hide SegmentsFit;
    hide DecodeSegments;
    hide EncodeSegments;
    var f := EncodeFields(a);
    match a {
      case Compound(c, control, body) =>
        assert f[..CONDITIONAL_LEN] == EncodeConditional(c);
        assert f[CONDITIONAL_LEN + 1..] == body;
        ConditionalCodec(EncodeConditional(c), c);
      case CompoundWait(c) =>
        ConditionalCodec(f, c);
      case Triggered(source, control, body) =>
        assert f[2..] == body;
      case Chained(segs) =>
        assert f[1..] == EncodeSegments(segs);
        SegmentsCodec(|segs|, f[1..], segs);
      case Timed(at, control, body) =>
        assert f[..8] == Be64(at) && f[9..] == body;
      case CancelAll =>
      case CancelTransaction(txn) =>
      case CancelSequencer(id) =>
    }
  }

  lemma EncodingOfFields(base: Byte, f: seq<Byte>)
    requires 1 <= base <= 8 && DecodeFields(base, f).Ok?
    ensures var a := DecodeFields(base, f).value;
            Encodable(a, false) && KindByte(a) == base && EncodeFields(a) == f
  {
    hide Be16;
    hide Be64;
    hide FromBe16;
    hide FromBe64;
    hide EncodeConditional;
    hide DecodeConditional;
    hide SegmentsFit;
    hide DecodeSegments;
    hide EncodeSegments;
    if base == 1 {
      ConditionalCodec(f[..CONDITIONAL_LEN], DecodeConditional(f[..CONDITIONAL_LEN]).value);
      assert f == f[..CONDITIONAL_LEN] + [f[CONDITIONAL_LEN]] + f[CONDITIONAL_LEN + 1..];
    } else if base == 2 {
      ConditionalCodec(f, DecodeConditional(f).value);
    } else if base == 3 {
      assert f == [f[0], f[1]] + f[2..];
    } else if base == 4 {
      SegmentsCodec(f[0], f[1..], DecodeSegments(f[0], f[1..]).value);
      assert f == [f[0]] + f[1..];
    } else if base == 5 {
      Be64OfFrom(f[..8]);
      assert f == f[..8] + [f[8]] + f[9..];
    } else if base >= 7 {
      Be16OfFrom(f);
    }
  }

  /** The envelope decoder accepts exactly the encodings of encodable requests,
      for all eight kinds and their safety variants at once. */
  lemma EnvelopeCodec(body: seq<Byte>, a: Action, safety: bool)
    ensures DecodeEnvelope(body) == Ok((a, safety)) <==> Encodable(a, safety) && body == EncodeEnvelope(a, safety)
  {
    hide DecodeFields;
    hide EncodeFields;
    hide SegmentsFit;
    if DecodeEnvelope(body) == Ok((a, safety)) {
      EncodingOfFields(if safety then body[0] - SAFETY_FLAG else body[0], body[1..]);
      assert body == [body[0]] + body[1..];
    }
    if Encodable(a, safety) && body == EncodeEnvelope(a, safety) {
      FieldsOfEncoding(a);
      assert body[1..] == EncodeFields(a);
    }
  }

  // -------------------------------------------------------------- responses

  function EncodeConditionalResponse(matched: bool, value: Word32, inner: seq<Byte>): (b: seq<Byte>)
    ensures |b| == 5 + |inner|
  {
    [if matched then 1 else 0] + Be32(value) + inner
  }

  function DecodeConditionalResponse(b: seq<Byte>): Result<(bool, Word32, seq<Byte>), Error> {
    if |b| < 5 then Err(ShortBuffer) else Ok((b[0] != 0, FromBe32(b[1..5]), b[5..]))
  }

  lemma ConditionalResponseRoundTrip(matched: bool, value: Word32, inner: seq<Byte>)
    ensures DecodeConditionalResponse(EncodeConditionalResponse(matched, value, inner)) == Ok((matched, value, inner))
  {
    hide Be32;
    hide FromBe32;
    var b := EncodeConditionalResponse(matched, value, inner);
    assert b[1..5] == Be32(value) && b[5..] == inner;
  }

  datatype ChainedResponse = ChainedResponse(failed: bool, body: seq<Byte>)

  function EncodeResponses(rs: seq<ChainedResponse>): seq<Byte> {
    if rs == [] then []
    else EncodeSegment(Segment(if rs[0].failed then 1 else 0, rs[0].body)) + EncodeResponses(rs[1..])
  }

  function EncodeChainedResponse(rs: seq<ChainedResponse>, total: nat): seq<Byte> {
    [|rs| % 0x100, total % 0x100] + EncodeResponses(rs)
  }

  function ResponsesOf(segs: seq<Segment>): (rs: seq<ChainedResponse>)
    ensures |rs| == |segs|
  {
    if segs == [] then [] else [ChainedResponse(segs[0].control != 0, segs[0].body)] + ResponsesOf(segs[1..])
  }

  /** The result carries the segment shape: a flag octet, a length and a body. */
  function DecodeChainedResponse(body: seq<Byte>): Result<(seq<ChainedResponse>, nat), Error> {
    if |body| < 2 then Err(ShortBuffer)
    else
      var segs := DecodeSegments(body[0], body[2..]);
      if segs.Err? then Err(segs.error) else Ok((ResponsesOf(segs.value), body[1]))
  }

  function AsSegments(rs: seq<ChainedResponse>): (segs: seq<Segment>)
    ensures |segs| == |rs| && forall i :: 0 <= i < |rs| ==> segs[i].body == rs[i].body
  {
    if rs == [] then []
    else [Segment(if rs[0].failed then 1 else 0, rs[0].body)] + AsSegments(rs[1..])
  }

  lemma {:induction false} ResponsesAsSegments(rs: seq<ChainedResponse>)
    ensures EncodeResponses(rs) == EncodeSegments(AsSegments(rs))
    ensures ResponsesOf(AsSegments(rs)) == rs
  {
    hide EncodeSegment;
    if rs != [] {
      ResponsesAsSegments(rs[1..]);
      assert AsSegments(rs)[1..] == AsSegments(rs[1..]);
      assert rs == [rs[0]] + rs[1..];
    }
  }

  predicate ResponsesFit(rs: seq<ChainedResponse>) {
    |rs| <= MAX_SEGMENTS && forall i :: 0 <= i < |rs| ==> |rs[i].body| <= MAX_BODY
  }

  lemma {:induction false} BodiesOfResponses(segs: seq<Segment>)
    ensures forall i :: 0 <= i < |segs| ==> ResponsesOf(segs)[i].body == segs[i].body
  {
    if segs != [] {
      BodiesOfResponses(segs[1..]);
    }
  }

  /** A chain's result decodes to one entry per attempted segment, flags and
      bodies unchanged, exactly when its counts and bodies fit their fields. */
  lemma ChainedResponseRoundTrip(rs: seq<ChainedResponse>, total: nat)
    ensures DecodeChainedResponse(EncodeChainedResponse(rs, total)) == Ok((rs, total)) <==>
            ResponsesFit(rs) && total <= 255
  {
    hide DecodeSegments;
    hide EncodeSegments;
    hide AsSegments;
    hide ResponsesOf;
    hide EncodeResponses;
    var b := EncodeChainedResponse(rs, total);
    assert b[2..] == EncodeResponses(rs);
    ResponsesAsSegments(rs);
    SegmentsCodec(|rs|, b[2..], AsSegments(rs));
    if DecodeChainedResponse(b) == Ok((rs, total)) {
      var segs := DecodeSegments(b[0], b[2..]).value;
      SegmentsCodec(b[0], b[2..], segs);
      BodiesOfResponses(segs);
    }
  }

  function EncodeCancelResponse(cancelled: nat): seq<Byte> {
    Be16(cancelled % 0x1_0000)
  }

  function DecodeCancelResponse(b: seq<Byte>): Result<Word16, Error> {
    if |b| < 2 then Err(ShortBuffer) else if |b| > 2 then Err(TrailingBytes) else Ok(FromBe16(b))
  }
}
