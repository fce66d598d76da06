/** The wire codec: bit-packed message descriptors, AVTPDU headers, and frames of
    several messages (sections 11.1, 11.2 and 12.9.1.1 of TC18). */
module Wire {
  import opened Bytes
  import opened Nibbles
  import opened Outcomes
  import opened Acf

  datatype Error =
    | UnknownMessageKind | ReservedBitsSet | EVTOverflow | TransactionNumOverflow | ByteBusIDOverflow
    | ReadSizeOverflow | LengthOverflow | ShortMessage | TrailingBytes
    | ShortHeader | UnknownSubtype | UnsupportedVersion | DataLengthOverflow | FrameLengthMismatch

  function Wide(hi: Byte, lo: Byte): nat {
    (hi as int) * 256 + lo
  }

  function Upper(n: Word16): Byte {
    n / 256
  }

  function Lower(n: Word16): Byte {
    n % 256
  }

  /** The message type above the top bit of the length. */
  function TypeOctet(t: Byte, top: Byte): Byte
    requires t < 0x80 && top < 2
  {
    t * 2 + top
  }

  function TypeOf(b: Byte): Byte {
    b / 2
  }

  function TopOf(b: Byte): (top: Byte)
    ensures top < 2
  {
    b % 2
  }

  lemma TypeReads(t: Byte, top: Byte)
    requires t < 0x80 && top < 2
    ensures TypeOf(TypeOctet(t, top)) == t && TopOf(TypeOctet(t, top)) == top
  {
  }

  lemma TypeWrites(b: Byte)
    ensures TypeOf(b) < 0x80 && TypeOctet(TypeOf(b), TopOf(b)) == b
  {
  }

  // -------------------------------------------------------------- messages

  const WIRE_SHORT := 0x0E
  const WIRE_LONG := 0x0D
  const DESCRIPTOR_LEN := 8
  const TIMESTAMP_LEN := 8
  const MAX_QUADLETS := 0x1FF

  function HeaderLen(kind: Byte): nat {
    if kind == KIND_LONG then DESCRIPTOR_LEN + TIMESTAMP_LEN else DESCRIPTOR_LEN
  }

  function UnpaddedLen(m: Message): nat {
    HeaderLen(m.kind) + |m.body|
  }

  /** The one pad count that makes the message a whole number of quadlets. */
  function PadOf(m: Message): (p: nat)
    ensures p < 4 && (UnpaddedLen(m) + p) % 4 == 0
  {
    (4 - UnpaddedLen(m) % 4) % 4
  }

  function Quadlets(m: Message): nat {
    (UnpaddedLen(m) + PadOf(m)) / 4
  }

  function Check(m: Message): Option<Error> {
    if m.kind != KIND_SHORT && m.kind != KIND_LONG then Some(UnknownMessageKind)
    else if UnknownFlags(m.control) then Some(ReservedBitsSet)
    else if m.evt > 0x0F then Some(EVTOverflow)
    else if m.txn > 0xFF then Some(TransactionNumOverflow)
    else if m.busId > 0x7FF then Some(ByteBusIDOverflow)
    else if m.readSize > 0xFFF then Some(ReadSizeOverflow)
    else if Quadlets(m) > MAX_QUADLETS then Some(LengthOverflow)
    else None
  }

  predicate UnknownFlags(control: Byte) {
    Low(control) != 0 && Low(control) != 8
  }

  function WireType(kind: Byte): Byte {
    if kind == KIND_LONG then WIRE_LONG else WIRE_SHORT
  }

  /** acf_msg_type(7) acf_msg_length(9) pad(2) mtv(1) rsv(2) byte_bus_id(11) */
  function Row1(kind: Byte, quadlets: nat, pad: nat, mtv: bool, busId: Word16): (r: seq<Byte>)
    requires quadlets <= MAX_QUADLETS && pad < 4 && busId <= 0x7FF
    ensures |r| == 4
  {
    var p := NibbleOf(pad);
    [TypeOctet(WireType(kind), Upper(quadlets)), Lower(quadlets),
     Octet(ValueOf(Nibble(p.b1, p.b0, mtv, false)), Upper(busId)), Lower(busId)]
  }

  /** op, rsp, err and ms. */
  function OpBits(control: Byte): Nibble {
    Nibble(IsWrite(control), IsResponse(control), IsError(control), MoreSegments(control))
  }

  /** evt(4) rsv(2) hs(1) cs(1) transaction_num(8) op rsp err ms read_size(12) */
  function Row2(evt: Byte, hs: bool, cs: bool, txn: Word16, control: Byte, readSize: Word16): (r: seq<Byte>)
    requires evt <= 0x0F && txn <= 0xFF && readSize <= 0xFFF
    ensures |r| == 4
  {
    [Octet(evt, ValueOf(Nibble(false, false, hs, cs))), txn,
     Octet(ValueOf(OpBits(control)), Upper(readSize)), Lower(readSize)]
  }

  function Slot(m: Message): seq<Byte> {
    if m.kind == KIND_LONG then Be64(m.timestamp) else []
  }

  function EncodeHead(m: Message): (b: seq<Byte>)
    requires Check(m).None?
    ensures |b| == HeaderLen(m.kind)
  {
    Row1(m.kind, Quadlets(m), PadOf(m), m.mtv, m.busId) + Slot(m)
      + Row2(m.evt, m.hs, m.cs, m.txn, m.control, m.readSize)
  }

  function EncodeMessage(m: Message): Result<seq<Byte>, Error> {
    if Check(m).Some? then Err(Check(m).value)
    else Ok(EncodeHead(m) + m.body + Zeros(PadOf(m)))
  }

  /** The flags of a decoded message: exactly one of read and write. */
  function ControlOf(op: Nibble): Byte {
    Octet(ValueOf(Nibble(!op.b3, op.b3, op.b2, op.b1)), if op.b0 then 8 else 0)
  }

  /** The descriptor read off the front of `b`, without its body. */
  function DecodeHead(b: seq<Byte>): Result<Message, Error> {
    if |b| < 4 then Err(ShortMessage)
    else if TypeOf(b[0]) != WIRE_SHORT && TypeOf(b[0]) != WIRE_LONG then Err(UnknownMessageKind)
    else
      var top, bus := NibbleOf(High(b[2])), Low(b[2]);
      if top.b0 || bus >= 8 then Err(ReservedBitsSet)
      else
        var kind := if TypeOf(b[0]) == WIRE_LONG then KIND_LONG else KIND_SHORT;
        if |b| < HeaderLen(kind) then Err(ShortMessage)
        else
          var off := HeaderLen(kind) - 4;
          var marks := NibbleOf(Low(b[off]));
          if marks.b3 || marks.b2 then Err(ReservedBitsSet)
          else
            Ok(Message(kind, PadBits(top), Wide(bus, b[3]), b[off + 1], High(b[off]), marks.b1, marks.b0,
                       top.b1, ControlOf(NibbleOf(High(b[off + 2]))), Wide(Low(b[off + 2]), b[off + 3]),
                       if kind == KIND_LONG then FromBe64(b[4..12]) else 0, []))
  }

  /** The two-bit pad count above the mtv and reserved bits. */
  function PadBits(top: Nibble): (p: Half)
    ensures p < 4
  {
    Weight(top.b3, 2) + Weight(top.b2, 1)
  }

  /** One message off the front of `b`, and how many octets it took. */
  function DecodeMessagePrefix(b: seq<Byte>): Result<(Message, nat), Error> {
    var head := DecodeHead(b);
    if head.Err? then Err(head.error)
    else
      var m := head.value;
      var total := Wide(TopOf(b[0]), b[1]) * 4;
      var bodyEnd := total - m.pad;
      if |b| < total || bodyEnd < HeaderLen(m.kind) then Err(ShortMessage)
      else Ok((m.(body := b[HeaderLen(m.kind)..bodyEnd]), total))
  }

  function DecodeMessage(b: seq<Byte>): Result<Message, Error> {
    var r := DecodeMessagePrefix(b);
    if r.Err? then Err(r.error) else if r.value.1 != |b| then Err(TrailingBytes) else Ok(r.value.0)
  }

  // --------------------------------------------------- message round trips

  function CanonicalControl(control: Byte): Byte {
    ControlOf(OpBits(control))
  }

  /** A message as the wire can say it: the one correct pad, exactly one of read
      and write, and a timestamp only where there is a slot for it. */
  function Canonical(m: Message): Message {
    m.(pad := PadOf(m), control := CanonicalControl(m.control),
       timestamp := if m.kind == KIND_LONG then m.timestamp else 0)
  }

  lemma WideReads(hi: Byte, lo: Byte)
    ensures Upper(Wide(hi, lo)) == hi && Lower(Wide(hi, lo)) == lo
  {
  }

  lemma WideWrites(n: Word16)
    ensures Wide(Upper(n), Lower(n)) == n
  {
  }

  lemma PadReads(pad: nat)
    requires pad < 4
    ensures var p := NibbleOf(pad); Weight(p.b1, 2) + Weight(p.b0, 1) == pad
  {
  }

  lemma PadWrites(top: Nibble)
    ensures var p := NibbleOf(PadBits(top)); p.b1 == top.b3 && p.b0 == top.b2
  {
  }

  lemma Row1Reads(kind: Byte, quadlets: nat, pad: nat, mtv: bool, busId: Word16)
    requires quadlets <= MAX_QUADLETS && pad < 4 && busId <= 0x7FF && (kind == KIND_SHORT || kind == KIND_LONG)
    ensures var r := Row1(kind, quadlets, pad, mtv, busId);
            && TypeOf(r[0]) == WireType(kind) && Wide(TopOf(r[0]), r[1]) == quadlets
            && (var top := NibbleOf(High(r[2])); PadBits(top) == pad && top.b1 == mtv && !top.b0)
            && Low(r[2]) < 8 && Wide(Low(r[2]), r[3]) == busId
  {
    hide NibbleOf;
    hide ValueOf;
    hide High;
    hide Low;
    hide Octet;
    var p := NibbleOf(pad);
    var top := Nibble(p.b1, p.b0, mtv, false);
    PadReads(pad);
    HalvesOfOctet(ValueOf(top), Upper(busId));
    NibbleOfValue(top);
    assert Upper(busId) < 8 && Upper(quadlets) < 2;
    TypeReads(WireType(kind), Upper(quadlets));
    hide TypeOf;
    hide TopOf;
    hide TypeOctet;
    WideWrites(busId);
    WideWrites(quadlets);
  }

  lemma Row2Reads(evt: Byte, hs: bool, cs: bool, txn: Word16, control: Byte, readSize: Word16)
    requires evt <= 0x0F && txn <= 0xFF && readSize <= 0xFFF
    ensures var r := Row2(evt, hs, cs, txn, control, readSize);
            && High(r[0]) == evt && NibbleOf(Low(r[0])) == Nibble(false, false, hs, cs) && r[1] == txn
            && NibbleOf(High(r[2])) == OpBits(control) && Wide(Low(r[2]), r[3]) == readSize
  {
    hide NibbleOf;
    hide ValueOf;
    hide High;
    hide Low;
    hide Octet;
    hide OpBits;
    var marks := Nibble(false, false, hs, cs);
    HalvesOfOctet(evt, ValueOf(marks));
    NibbleOfValue(marks);
    HalvesOfOctet(ValueOf(OpBits(control)), Upper(readSize));
    NibbleOfValue(OpBits(control));
    WideWrites(readSize);
  }

  /** Every combination of the four bits comes back from the flags it decodes to. */
  lemma OpBitsOfControl(op: Nibble)
    ensures OpBits(ControlOf(op)) == op && !UnknownFlags(ControlOf(op))
    ensures CanonicalControl(ControlOf(op)) == ControlOf(op)
  {
    hide NibbleOf;
    hide ValueOf;
    hide High;
    hide Low;
    hide Octet;
    var hi := Nibble(!op.b3, op.b3, op.b2, op.b1);
    HalvesOfOctet(ValueOf(hi), if op.b0 then 8 else 0);
    NibbleOfValue(hi);
  }

  /** The first row re-reads to itself. */
  lemma Row1Writes(r: seq<Byte>, kind: Byte, q: nat, busId: Word16, top: Nibble)
    requires |r| == 4 && TypeOf(r[0]) == WireType(kind) && top == NibbleOf(High(r[2])) && !top.b0 && Low(r[2]) < 8
    requires q == Wide(TopOf(r[0]), r[1]) && busId == Wide(Low(r[2]), r[3])
    ensures q <= MAX_QUADLETS && busId <= 0x7FF && Row1(kind, q, PadBits(top), top.b1, busId) == r
  {
    hide NibbleOf;
    hide ValueOf;
    hide High;
    hide Low;
    hide Octet;
    WideReads(TopOf(r[0]), r[1]);
    WideReads(Low(r[2]), r[3]);
    assert q <= MAX_QUADLETS && busId <= 0x7FF;
    hide Wide;
    hide Upper;
    hide Lower;
    TypeWrites(r[0]);
    hide TypeOctet;
    hide TypeOf;
    hide TopOf;
    PadWrites(top);
    OctetOfHalves(r[2]);
    assert Nibble(top.b3, top.b2, top.b1, false) == top;
  }

  lemma Row2Writes(r: seq<Byte>, hs: bool, cs: bool, control: Byte, readSize: Word16)
    requires |r| == 4 && readSize <= 0xFFF && Upper(readSize) == Low(r[2]) && Lower(readSize) == r[3]
    requires Low(r[0]) == ValueOf(Nibble(false, false, hs, cs)) && High(r[2]) == ValueOf(OpBits(control))
    ensures Row2(High(r[0]), hs, cs, r[1], control, readSize) == r
  {
    hide ValueOf;
    hide High;
    hide Low;
    hide Octet;
    hide OpBits;
    hide Upper;
    hide Lower;
    OctetOfHalves(r[0]);
    OctetOfHalves(r[2]);
  }

  lemma ReadSizeFits(hi: Half, lo: Byte)
    ensures Wide(hi, lo) <= 0xFFF
  {
  }

  /** Where the rows of an encoded descriptor are. */
  lemma HeadLayout(m: Message, tail: seq<Byte>)
    requires Check(m).None?
    ensures var b := EncodeHead(m) + tail; var off := HeaderLen(m.kind) - 4;
            && |b| >= HeaderLen(m.kind)
            && b[..4] == Row1(m.kind, Quadlets(m), PadOf(m), m.mtv, m.busId)
            && b[off..off + 4] == Row2(m.evt, m.hs, m.cs, m.txn, m.control, m.readSize)
            && (m.kind == KIND_LONG ==> b[4..12] == Be64(m.timestamp))
  {
    hide Row1;
    hide Row2;
    hide Be64;
    hide Quadlets;
    hide PadOf;
  }

  lemma InRange(m: Message)
    requires Check(m).None?
    ensures (m.kind == KIND_SHORT || m.kind == KIND_LONG) && Quadlets(m) <= MAX_QUADLETS && PadOf(m) < 4
    ensures m.busId <= 0x7FF && m.evt <= 15 && m.txn <= 255 && m.readSize <= 4095
  {
    hide Quadlets;
    hide PadOf;
  }

  /** What the two rows of `b` read as. */
  predicate RowsRead(b: seq<Byte>, m: Message, quadlets: nat) {
    var off := HeaderLen(m.kind) - 4;
    && |b| >= off + 4
    && TypeOf(b[0]) == WireType(m.kind) && Wide(TopOf(b[0]), b[1]) == quadlets
    && (var top := NibbleOf(High(b[2])); PadBits(top) == m.pad && top.b1 == m.mtv && !top.b0)
    && Low(b[2]) < 8 && Wide(Low(b[2]), b[3]) == m.busId
    && High(b[off]) == m.evt && NibbleOf(Low(b[off])) == Nibble(false, false, m.hs, m.cs) && b[off + 1] == m.txn
    && NibbleOf(High(b[off + 2])) == OpBits(m.control) && Wide(Low(b[off + 2]), b[off + 3]) == m.readSize
    && (m.kind == KIND_LONG ==> FromBe64(b[4..12]) == m.timestamp)
  }

  lemma RowsDecode(b: seq<Byte>, m: Message, quadlets: nat)
    requires (m.kind == KIND_SHORT || m.kind == KIND_LONG) && RowsRead(b, m, quadlets)
    ensures DecodeHead(b) ==
            Ok(m.(control := CanonicalControl(m.control), timestamp := if m.kind == KIND_LONG then m.timestamp else 0,
                  body := []))
  {
    hide FromBe64;
    hide PadBits;
    hide ControlOf;
    hide OpBits;
    hide NibbleOf;
    hide High;
    hide Low;
    hide Wide;
    hide TypeOf;
  }

  /** Two rows in place read as the fields they were made from. */
  lemma RowsAreRead(b: seq<Byte>, m: Message, quadlets: nat)
    requires m.kind == KIND_SHORT || m.kind == KIND_LONG
    requires quadlets <= MAX_QUADLETS && m.pad < 4 && m.busId <= 0x7FF
    requires m.evt <= 15 && m.txn <= 255 && m.readSize <= 4095
    requires |b| >= HeaderLen(m.kind) && b[..4] == Row1(m.kind, quadlets, m.pad, m.mtv, m.busId)
    requires var off := HeaderLen(m.kind) - 4;
             b[off..off + 4] == Row2(m.evt, m.hs, m.cs, m.txn, m.control, m.readSize)
    requires m.kind == KIND_LONG ==> b[4..12] == Be64(m.timestamp)
    ensures RowsRead(b, m, quadlets)
  {
    hide Row1;
    hide Row2;
    hide Be64;
    hide FromBe64;
    hide PadBits;
    hide OpBits;
    hide NibbleOf;
    hide High;
    hide Low;
    hide Wide;
    hide TypeOf;
    hide TopOf;
    var off := HeaderLen(m.kind) - 4;
    Row1Reads(m.kind, quadlets, m.pad, m.mtv, m.busId);
    Row2Reads(m.evt, m.hs, m.cs, m.txn, m.control, m.readSize);
    var r1, r2 := b[..4], b[off..off + 4];
    assert b[0] == r1[0] && b[1] == r1[1] && b[2] == r1[2] && b[3] == r1[3];
    assert b[off] == r2[0] && b[off + 1] == r2[1] && b[off + 2] == r2[2] && b[off + 3] == r2[3];
  }

  /** Whatever follows it, an encoded message decodes to its canonical form and
      says exactly how long it is. */
  lemma DecodeOfEncode(m: Message, rest: seq<Byte>)
    requires EncodeMessage(m).Ok?
    ensures var b := EncodeMessage(m).value; DecodeMessagePrefix(b + rest) == Ok((Canonical(m), |b|)) && |b| >= 8
  {
    hide Row1;
    hide Row2;
    hide NibbleOf;
    hide High;
    hide Low;
    hide OpBits;
    hide ControlOf;
    hide PadBits;
    hide Be64;
    hide FromBe64;
    hide TypeOf;
    hide TopOf;
    hide Wide;
    hide EncodeHead;
    hide DecodeHead;
    hide Check;
    hide PadOf;
    hide CanonicalControl;
    var b := EncodeMessage(m).value;
    var tail := m.body + Zeros(PadOf(m)) + rest;
    assert b + rest == EncodeHead(m) + tail;
    var head := m.(pad := PadOf(m));
    InRange(m);
    HeadLayout(m, tail);
    RowsAreRead(b + rest, head, Quadlets(m));
    RowsDecode(b + rest, head, Quadlets(m));
    assert Quadlets(m) * 4 == |b|;
    assert (b + rest)[HeaderLen(m.kind)..UnpaddedLen(m)] == m.body;
  }

  lemma HeadWrites(b: seq<Byte>)
    requires DecodeHead(b).Ok?
    ensures var m := DecodeHead(b).value; var off := HeaderLen(m.kind) - 4; var q := Wide(TopOf(b[0]), b[1]);
            && (m.kind == KIND_SHORT || m.kind == KIND_LONG) && m.pad < 4
            && !UnknownFlags(m.control) && q <= MAX_QUADLETS
            && m.evt <= 0x0F && m.txn <= 0xFF && m.busId <= 0x7FF && m.readSize <= 0xFFF
            && |b| >= HeaderLen(m.kind)
            && Row1(m.kind, q, m.pad, m.mtv, m.busId) + Slot(m) + Row2(m.evt, m.hs, m.cs, m.txn, m.control, m.readSize)
               == b[..HeaderLen(m.kind)]
            && Canonical(m) == m.(pad := PadOf(m))
  {
    hide Row1;
    hide Row2;
    hide Be64;
    hide FromBe64;
    hide ControlOf;
    hide OpBits;
    hide PadBits;
    hide NibbleOf;
    hide High;
    hide Low;
    hide Wide;
    var m := DecodeHead(b).value;
    var off := HeaderLen(m.kind) - 4;
    var r1, r2 := b[..4], b[off..off + 4];
    Row1Writes(r1, m.kind, Wide(TopOf(b[0]), b[1]), m.busId, NibbleOf(High(b[2])));
    var marks := NibbleOf(Low(r2[0]));
    assert marks == Nibble(false, false, m.hs, m.cs);
    OpBitsOfControl(NibbleOf(High(r2[2])));
    WideReads(Low(r2[2]), r2[3]);
    ReadSizeFits(Low(r2[2]), r2[3]);
    Row2Writes(r2, m.hs, m.cs, m.control, m.readSize);
    if m.kind == KIND_LONG {
      Be64OfFrom(b[4..12]);
      assert b[..16] == b[..4] + b[4..12] + b[12..16];
    } else {
      assert b[..8] == b[..4] + [] + b[4..8];
    }
  }

  /** When a message has an encoding, and which refusal comes first otherwise. */
  lemma EncodesExactlyWhen(m: Message)
    ensures var e := EncodeMessage(m); var kindOk := m.kind == 1 || m.kind == 2;
            var len := (if m.kind == 2 then 16 else 8) + |m.body|;
            var flagsOk := Low(m.control) == 0 || Low(m.control) == 8;
            && (e == Err(UnknownMessageKind) <==> !kindOk)
            && (e == Err(ReservedBitsSet) <==> kindOk && !flagsOk)
            && (e == Err(EVTOverflow) <==> kindOk && flagsOk && m.evt > 15)
            && (e == Err(TransactionNumOverflow) <==> kindOk && flagsOk && m.evt <= 15 && m.txn > 255)
            && (e == Err(ByteBusIDOverflow) <==> kindOk && flagsOk && m.evt <= 15 && m.txn <= 255 && m.busId > 2047)
            && (e == Err(ReadSizeOverflow) <==>
                  kindOk && flagsOk && m.evt <= 15 && m.txn <= 255 && m.busId <= 2047 && m.readSize > 4095)
            && (e == Err(LengthOverflow) <==>
                  && kindOk && flagsOk && m.evt <= 15 && m.txn <= 255 && m.busId <= 2047 && m.readSize <= 4095
                  && len > 4 * 511)
            && (e.Ok? <==> && kindOk && flagsOk && m.evt <= 15 && m.txn <= 255 && m.busId <= 2047
                           && m.readSize <= 4095 && len <= 4 * 511)
  {
    hide EncodeHead;
    hide Low;
    QuadletsRoundUp(m);
    hide Quadlets;
    hide PadOf;
  }

  lemma QuadletsRoundUp(m: Message)
    ensures Quadlets(m) <= 511 <==> UnpaddedLen(m) <= 4 * 511
  {
    hide PadOf;
  }

  /** The decoder accepts exactly the octets that start with the encoding of a
      canonical message, whatever stands in the pad octets and after them. */
  lemma DecodeAcceptsExactly(b: seq<Byte>, m: Message, n: nat)
    ensures DecodeMessagePrefix(b) == Ok((m, n)) <==>
            && Canonical(m) == m && EncodeMessage(m).Ok? && |EncodeMessage(m).value| == n && n <= |b|
            && m.pad <= n && b[..n - m.pad] == EncodeMessage(m).value[..n - m.pad]
  {
    hide Row1;
    hide Row2;
    hide NibbleOf;
    hide High;
    hide Low;
    hide OpBits;
    hide ControlOf;
    hide PadBits;
    hide Be64;
    hide FromBe64;
    hide TypeOf;
    hide TopOf;
    hide Wide;
    hide EncodeHead;
    hide DecodeHead;
    hide Canonical;
    hide Check;
    if DecodeMessagePrefix(b) == Ok((m, n)) {
      hide DecodeMessagePrefix;
      EncodeOfDecode(b);
      hide EncodeMessage;
    }
    if && Canonical(m) == m && EncodeMessage(m).Ok? && |EncodeMessage(m).value| == n && n <= |b|
       && m.pad <= n && b[..n - m.pad] == EncodeMessage(m).value[..n - m.pad] {
      CanonicalPad(m);
      var e, h := EncodeMessage(m).value, HeaderLen(m.kind);
      hide PadOf;
      assert e[..n - m.pad] == EncodeHead(m) + m.body;
      assert b == EncodeHead(m) + b[h..];
      var head := m.(pad := PadOf(m));
      InRange(m);
      HeadLayout(m, b[h..]);
      RowsAreRead(b, head, Quadlets(m));
      RowsDecode(b, head, Quadlets(m));
      assert Quadlets(m) * 4 == n;
      assert b[h..n - m.pad] == b[..n - m.pad][h..] == m.body;
    }
  }

  lemma CanonicalPad(m: Message)
    requires Canonical(m) == m
    ensures m.pad == PadOf(m) && m.control == CanonicalControl(m.control)
    ensures m.timestamp == if m.kind == KIND_LONG then m.timestamp else 0
  {
    hide PadOf;
    hide CanonicalControl;
  }

  /** A buffer holding one message and nothing else: what is encoded decodes to its
      canonical form, and whatever is accepted is an encoding up to its pad. */
  lemma WholeMessageCodec(m: Message, b: seq<Byte>)
    ensures EncodeMessage(m).Ok? ==> DecodeMessage(EncodeMessage(m).value) == Ok(Canonical(m))
    ensures DecodeMessage(b).Ok? ==>
            var d := DecodeMessage(b).value;
            d.pad <= |b| && EncodeMessage(d) == Ok(b[..|b| - d.pad] + Zeros(d.pad))
  {
    hide EncodeMessage;
    hide DecodeMessagePrefix;
    hide Canonical;
    if EncodeMessage(m).Ok? {
      DecodeOfEncode(m, []);
      assert EncodeMessage(m).value + [] == EncodeMessage(m).value;
    }
    if DecodeMessage(b).Ok? {
      EncodeOfDecode(b);
    }
  }

  /** Every accepted message is canonical, takes a whole number of quadlets and at
      least eight octets, and encodes back to the octets it came from with its
      pad octets zeroed. */
  lemma EncodeOfDecode(b: seq<Byte>)
    requires DecodeMessagePrefix(b).Ok?
    ensures var (m, n) := DecodeMessagePrefix(b).value;
            && 8 <= n <= |b| && n % 4 == 0 && m.pad <= n && Canonical(m) == m
            && EncodeMessage(m) == Ok(b[..n - m.pad] + Zeros(m.pad))
  {
    hide DecodeHead;
    hide Row1;
    hide Row2;
    hide CanonicalControl;
    hide Slot;
    hide Zeros;
    hide Wide;
    var (m, n) := DecodeMessagePrefix(b).value;
    var h := HeaderLen(m.kind);
    HeadWrites(b);
    assert UnpaddedLen(m) == n - m.pad;
    assert PadOf(m) == m.pad;
    assert Quadlets(m) == Wide(TopOf(b[0]), b[1]);
    SlotIgnoresBody(DecodeHead(b).value, m.body);
    assert EncodeHead(m) == b[..h];
    assert b[..n - m.pad] == b[..h] + b[h..n - m.pad];
  }

  lemma SlotIgnoresBody(m: Message, body: seq<Byte>)
    ensures Slot(m.(body := body)) == Slot(m)
  {
  }

  // --------------------------------------------------------------- headers

  const SUBTYPE_NTSCF: Byte := 0x82
  const SUBTYPE_TSCF: Byte := 0x05
  const UNTIMED_LEN := 12
  const TIMED_LEN := 24

  /** The narrower header's length field bounds both variants on encode. */
  const MAX_DATA_LENGTH := 0x07FF

  datatype TimestampStatus = Missing | Valid | Invalid | Uncertain

  datatype Header = Header(
    timed: bool,
    streamIdValid: bool,
    sequenceNum: Byte,
    dataLength: Word16,
    streamId: StreamId,
    timestamp: Word32,
    status: TimestampStatus)

  function WireLen(h: Header): nat {
    if h.timed then TIMED_LEN else UNTIMED_LEN
  }

  /** The sv bit above a zero version. */
  function ValidMark(sv: bool): Half {
    ValueOf(Nibble(sv, false, false, false))
  }

  function Flag(b: bool): Half {
    if b then 1 else 0
  }

  function TimedValid(s: TimestampStatus): bool {
    s == Valid || s == Uncertain
  }

  function TimedStart(h: Header): (b: seq<Byte>)
    ensures |b| == 4
  {
    [SUBTYPE_TSCF, Octet(ValidMark(h.streamIdValid), Flag(TimedValid(h.status))),
     h.sequenceNum, Flag(h.status == Uncertain)]
  }

  function TimedOctets(h: Header): (b: seq<Byte>)
    ensures |b| == TIMED_LEN
  {
    TimedStart(h) + h.streamId + Be32(h.timestamp) + Zeros(4) + Be16(h.dataLength) + Zeros(2)
  }

  function UntimedStart(h: Header): (b: seq<Byte>)
    requires h.dataLength <= MAX_DATA_LENGTH
    ensures |b| == 4
  {
    [SUBTYPE_NTSCF, Octet(ValidMark(h.streamIdValid), Upper(h.dataLength)), Lower(h.dataLength), h.sequenceNum]
  }

  function UntimedOctets(h: Header): (b: seq<Byte>)
    requires h.dataLength <= MAX_DATA_LENGTH
    ensures |b| == UNTIMED_LEN
  {
    UntimedStart(h) + h.streamId
  }

  function EncodeHeader(h: Header): Result<seq<Byte>, Error> {
    if h.dataLength > MAX_DATA_LENGTH then Err(DataLengthOverflow)
    else Ok(if h.timed then TimedOctets(h) else UntimedOctets(h))
  }

  function StatusOf(tv: bool, tu: bool): TimestampStatus {
    if !tv then Missing else if tu then Uncertain else Valid
  }

  /** The header at the front of `b`; what follows it starts at its wire length. */
  function DecodeHeader(b: seq<Byte>): Result<Header, Error> {
    if |b| < 1 then Err(ShortHeader)
    else if b[0] != SUBTYPE_NTSCF && b[0] != SUBTYPE_TSCF then Err(UnknownSubtype)
    else
      var timed := b[0] == SUBTYPE_TSCF;
      if |b| < (if timed then TIMED_LEN else UNTIMED_LEN) then Err(ShortHeader)
      else
        var mark, low := NibbleOf(High(b[1])), NibbleOf(Low(b[1]));
        if mark.b2 || mark.b1 || mark.b0 then Err(UnsupportedVersion)
        else if timed then
          if low.b2 || low.b1 || b[3] >= 2 then Err(ReservedBitsSet)
          else Ok(Header(true, mark.b3, b[2], FromBe16(b[20..22]), b[4..12], FromBe32(b[12..16]),
                         StatusOf(low.b0, b[3] == 1)))
        else if low.b3 then Err(ReservedBitsSet)
        else Ok(Header(false, mark.b3, b[3], Wide(Low(b[1]), b[2]), b[4..12], 0, Missing))
  }

  /** A header as the wire can say it. */
  function CanonicalHeader(h: Header): Header {
    if h.timed then h.(status := if h.status == Invalid then Missing else h.status)
    else h.(timestamp := 0, status := Missing)
  }

  lemma HeaderDecodesCanonically(h: Header, rest: seq<Byte>)
    requires EncodeHeader(h).Ok?
    ensures var b := EncodeHeader(h).value; |b| == WireLen(h) && DecodeHeader(b + rest) == Ok(CanonicalHeader(h))
  {
    hide Be16;
    hide Be32;
    hide FromBe16;
    hide FromBe32;
    hide NibbleOf;
    hide ValueOf;
    hide High;
    hide Low;
    hide Octet;
    var b := EncodeHeader(h).value + rest;
    assert b[4..12] == h.streamId;
    NibbleOfValue(Nibble(h.streamIdValid, false, false, false));
    if h.timed {
      assert b[12..16] == Be32(h.timestamp) && b[20..22] == Be16(h.dataLength);
      var tv := TimedValid(h.status);
      HalvesOfOctet(ValidMark(h.streamIdValid), Flag(tv));
      LowBit(tv);
    } else {
      HalvesOfOctet(ValidMark(h.streamIdValid), Upper(h.dataLength));
      TopBit(Upper(h.dataLength));
      WideWrites(h.dataLength);
    }
  }

  lemma LowBit(b: bool)
    ensures NibbleOf(Flag(b)) == Nibble(false, false, false, b)
  {
  }

  lemma TopBit(x: Half)
    ensures NibbleOf(x).b3 <==> x >= 8
  {
  }

  /** What a receiver accepts as a header, and which refusal comes first. */
  lemma HeaderAcceptsExactly(b: seq<Byte>)
    ensures var d := DecodeHeader(b);
            var known := |b| >= 1 && (b[0] == 0x82 || b[0] == 0x05);
            var long := known && |b| >= (if b[0] == 0x05 then 24 else 12);
            && (d == Err(UnknownSubtype) <==> |b| >= 1 && !known)
            && (d == Err(ShortHeader) <==> |b| == 0 || (known && !long))
            && (d == Err(UnsupportedVersion) <==> long && High(b[1]) != 0 && High(b[1]) != 8)
            && (d == Err(ReservedBitsSet) <==>
                  && long && (High(b[1]) == 0 || High(b[1]) == 8)
                  && if b[0] == 0x05 then Low(b[1]) !in {0, 1, 8, 9} || b[3] >= 2 else Low(b[1]) >= 8)
            && (d.Ok? <==>
                  && long && (High(b[1]) == 0 || High(b[1]) == 8)
                  && if b[0] == 0x05 then Low(b[1]) in {0, 1, 8, 9} && b[3] < 2 else Low(b[1]) < 8)
  {
    hide FromBe16;
    hide FromBe32;
    hide High;
    hide Low;
  }

  /** Nothing in an accepted header is lost in the untimed form. In the timed
      form the media-clock bit, the reserved words and an uncertainty mark
      without a valid timestamp are, and lengths above the common bound have no
      encoding. */
  lemma HeaderReencodes(b: seq<Byte>)
    requires DecodeHeader(b).Ok?
    ensures var h := DecodeHeader(b).value;
            && WireLen(h) <= |b| && CanonicalHeader(h) == h
            && (EncodeHeader(h) == Ok(b[..WireLen(h)]) <==>
                  h.timed ==> var low := NibbleOf(Low(b[1]));
                              && !low.b3 && (b[3] == 1 ==> low.b0) && AllZero(b[16..20]) && AllZero(b[22..24])
                              && h.dataLength <= MAX_DATA_LENGTH)
  {
    hide Be16;
    hide Be32;
    hide FromBe16;
    hide FromBe32;
    hide NibbleOf;
    hide ValidMark;
    hide Octet;
    hide High;
    hide Low;
    var h := DecodeHeader(b).value;
    if h.timed {
      if h.dataLength <= MAX_DATA_LENGTH {
        TimedReencodes(b);
      }
    } else {
      UntimedOctet(b[1], b[2], h.dataLength);
      assert b[..12] == [b[0], b[1], b[2], b[3]] + b[4..12];
    }
  }

  /** The second octet, from its two halves. */
  lemma TimedOctet(b1: Byte, mark: Nibble, low: Nibble)
    requires mark == NibbleOf(High(b1)) && !mark.b2 && !mark.b1 && !mark.b0
    requires low == NibbleOf(Low(b1)) && !low.b2 && !low.b1
    ensures b1 == Octet(ValidMark(mark.b3), Flag(low.b0)) <==> !low.b3
  {
    hide NibbleOf;
    hide High;
    hide Low;
    hide Octet;
    assert Low(b1) == Weight(low.b3, 8) + Flag(low.b0);
    assert mark == Nibble(mark.b3, false, false, false);
    hide ValueOf;
    OctetOfHalves(b1);
    HalvesOfOctet(High(b1), Low(b1));
    HalvesOfOctet(High(b1), Flag(low.b0));
  }

  lemma UntimedOctet(b1: Byte, b2: Byte, n: nat)
    requires var mark := NibbleOf(High(b1)); !mark.b2 && !mark.b1 && !mark.b0
    requires !NibbleOf(Low(b1)).b3 && n == Wide(Low(b1), b2)
    ensures n <= MAX_DATA_LENGTH && Lower(n) == b2
    ensures Octet(ValidMark(NibbleOf(High(b1)).b3), Upper(n)) == b1
  {
    TopBit(Low(b1));
    hide NibbleOf;
    WideReads(Low(b1), b2);
    OctetOfHalves(b1);
    hide High;
    hide Low;
    hide Octet;
  }

  lemma TimedSlices(a: seq<Byte>, s: seq<Byte>, t: seq<Byte>, d: seq<Byte>)
    requires |a| == 4 && |s| == 8 && |t| == 4 && |d| == 2
    ensures var e := a + s + t + Zeros(4) + d + Zeros(2);
            && |e| == 24 && e[..4] == a && e[4..12] == s && e[12..16] == t && e[16..20] == Zeros(4)
            && e[20..22] == d && e[22..24] == Zeros(2)
  {
    hide Zeros;
  }

  lemma SameTimedOctets(e: seq<Byte>, b: seq<Byte>)
    requires |e| == 24 && |b| >= 24 && e[4..12] == b[4..12] && e[12..16] == b[12..16] && e[20..22] == b[20..22]
    requires e[0] == b[0] && e[2] == b[2]
    ensures e == b[..24] <==> e[1] == b[1] && e[3] == b[3] && e[16..20] == b[16..20] && e[22..24] == b[22..24]
  {
    assert e == [e[0], e[1], e[2], e[3]] + e[4..12] + e[12..16] + e[16..20] + e[20..22] + e[22..24];
    assert b[..24] == [b[0], b[1], b[2], b[3]] + b[4..12] + b[12..16] + b[16..20] + b[20..22] + b[22..24];
    if e == b[..24] {
      assert forall k :: 0 <= k < 24 ==> e[k] == b[k];
      assert b[16..20] == e[16..20] && b[22..24] == e[22..24];
    }
  }

  lemma ZerosAreZero(s: seq<Byte>)
    ensures s == Zeros(|s|) <==> AllZero(s)
  {
  }

  lemma TimedReencodes(b: seq<Byte>)
    requires DecodeHeader(b).Ok? && DecodeHeader(b).value.timed && DecodeHeader(b).value.dataLength <= MAX_DATA_LENGTH
    ensures var e := EncodeHeader(DecodeHeader(b).value).value; var low := NibbleOf(Low(b[1]));
            e == b[..24] <==> !low.b3 && (b[3] == 1 ==> low.b0) && AllZero(b[16..20]) && AllZero(b[22..24])
  {
    hide Be16;
    hide Be32;
    hide FromBe16;
    hide FromBe32;
    hide Zeros;
    hide NibbleOf;
    hide ValidMark;
    hide Octet;
    hide High;
    hide Low;
    hide AllZero;
    var h := DecodeHeader(b).value;
    var low := NibbleOf(Low(b[1]));
    assert h == Header(true, NibbleOf(High(b[1])).b3, b[2], FromBe16(b[20..22]), b[4..12], FromBe32(b[12..16]),
                       StatusOf(low.b0, b[3] == 1));
    TimedOctet(b[1], NibbleOf(High(b[1])), low);
    assert TimedValid(h.status) == low.b0;
    assert Flag(h.status == Uncertain) == b[3] <==> (b[3] == 1 ==> low.b0);
    hide DecodeHeader;
    Be32OfFrom(b[12..16]);
    Be16OfFrom(b[20..22]);
    var e := TimedOctets(h);
    TimedSlices(TimedStart(h), h.streamId, Be32(h.timestamp), Be16(h.dataLength));
    assert forall k :: 0 <= k < 4 ==> e[k] == e[..4][k];
    SameTimedOctets(e, b);
    ZerosAreZero(b[16..20]);
    ZerosAreZero(b[22..24]);
  }

  datatype Disposition = BestEffort | Scheduled | Drop

  function DispositionOf(h: Header, timeSyncSupported: bool): Disposition {
    if !h.timed then BestEffort
    else if !timeSyncSupported then Drop
    else if h.status == Valid then Scheduled
    else BestEffort
  }

  /** The wire's merging of invalid and missing marks is never observable. */
  lemma DispositionSurvivesTheWire(h: Header, timeSync: bool)
    ensures DispositionOf(CanonicalHeader(h), timeSync) == DispositionOf(h, timeSync)
  {
  }

  // ---------------------------------------------------------------- frames

  datatype Frame = Frame(header: Header, messages: seq<Message>)

  /** The messages of a payload, walked one after the other. */
  function DecodeAll(rest: seq<Byte>): Result<seq<Message>, Error>
    decreases |rest|
  {
    if rest == [] then Ok([])
    else
      var r := DecodeMessagePrefix(rest);
      if r.Err? then Err(r.error)
      else
        var n := r.value.1;
        EncodeOfDecode(rest);
        var tail := DecodeAll(rest[n..]);
        if tail.Err? then tail else Ok([r.value.0] + tail.value)
  }

  function FrameOf(b: seq<Byte>): Result<Frame, Error> {
    var h := DecodeHeader(b);
    if h.Err? then Err(h.error)
    else
      HeaderReencodes(b);
      var rest := b[WireLen(h.value)..];
      if |rest| != h.value.dataLength then Err(FrameLengthMismatch)
      else
        var msgs := DecodeAll(rest);
        if msgs.Err? then Err(msgs.error) else Ok(Frame(h.value, msgs.value))
  }

  /** The receiver's loop. It terminates on every input because each accepted
      message takes at least eight octets. */
  method DecodeFrame(b: seq<Byte>) returns (r: Result<Frame, Error>)
    ensures r == FrameOf(b)
  {
    hide DecodeHeader;
    hide EncodeHeader;
    hide CanonicalHeader;
    hide DecodeMessagePrefix;
    hide EncodeMessage;
    hide Canonical;
    hide NibbleOf;
    hide Low;
    hide AllZero;
    var h := DecodeHeader(b);
    if h.Err? {
      return Err(h.error);
    }
    HeaderReencodes(b);
    var rest := b[WireLen(h.value)..];
    if |rest| != h.value.dataLength {
      return Err(FrameLengthMismatch);
    }
    var msgs: seq<Message> := [];
    ghost var all := DecodeAll(rest);
    assert all.Ok? ==> [] + all.value == all.value;
    while rest != []
      invariant Prepend(msgs, DecodeAll(rest)) == all
      decreases |rest|
    {
      var m := DecodeMessagePrefix(rest);
      if m.Err? {
        return Err(m.error);
      }
      EncodeOfDecode(rest);
      ghost var tail := DecodeAll(rest[m.value.1..]);
      assert tail.Ok? ==> msgs + ([m.value.0] + tail.value) == (msgs + [m.value.0]) + tail.value;
      msgs := msgs + [m.value.0];
      rest := rest[m.value.1..];
    }
    assert msgs + [] == msgs;
    return Ok(Frame(h.value, msgs));
  }

  function EncodeAll(msgs: seq<Message>): Result<seq<Byte>, Error> {
    if msgs == [] then Ok([])
    else
      var front := EncodeAll(msgs[..|msgs| - 1]);
      if front.Err? then front
      else
        var last := EncodeMessage(msgs[|msgs| - 1]);
        if last.Err? then last else Ok(front.value + last.value)
  }

  function FrameOctets(h: Header, msgs: seq<Message>): Result<seq<Byte>, Error> {
    var payload := EncodeAll(msgs);
    if payload.Err? then payload
    else if |payload.value| > MAX_DATA_LENGTH then Err(DataLengthOverflow)
    else
      var hdr := EncodeHeader(h.(dataLength := |payload.value|));
      if hdr.Err? then hdr else Ok(hdr.value + payload.value)
  }

  lemma {:induction false} EncodeAllPrefix(msgs: seq<Message>, k: nat)
    requires k <= |msgs| && EncodeAll(msgs[..k]).Err?
    ensures EncodeAll(msgs) == EncodeAll(msgs[..k])
  {
    hide EncodeMessage;
    if k < |msgs| {
      var n := |msgs| - 1;
      assert msgs[..n][..k] == msgs[..k];
      EncodeAllPrefix(msgs[..n], k);
    } else {
      assert msgs[..k] == msgs;
    }
  }

  method EncodeFrame(h: Header, msgs: seq<Message>) returns (r: Result<seq<Byte>, Error>)
    ensures r == FrameOctets(h, msgs)
  {
    hide EncodeMessage;
    hide EncodeHeader;
    var payload: seq<Byte> := [];
    for k := 0 to |msgs|
      invariant EncodeAll(msgs[..k]) == Ok(payload)
    {
      assert msgs[..k + 1][..k] == msgs[..k];
      var m := EncodeMessage(msgs[k]);
      if m.Err? {
        EncodeAllPrefix(msgs, k + 1);
        return Err(m.error);
      }
      payload := payload + m.value;
    }
    assert msgs[..|msgs|] == msgs;
    if |payload| > MAX_DATA_LENGTH {
      return Err(DataLengthOverflow);
    }
    var hdr := EncodeHeader(h.(dataLength := |payload|));
    if hdr.Err? {
      return Err(hdr.error);
    }
    return Ok(hdr.value + payload);
  }

  function CanonicalAll(msgs: seq<Message>): (c: seq<Message>)
    ensures |c| == |msgs| && forall i :: 0 <= i < |msgs| ==> c[i] == Canonical(msgs[i])
  {
    seq(|msgs|, i requires 0 <= i < |msgs| => Canonical(msgs[i]))
  }

  lemma {:induction false} DecodeAllOfEncodeAll(msgs: seq<Message>, tail: seq<Byte>)
    requires EncodeAll(msgs).Ok?
    ensures DecodeAll(EncodeAll(msgs).value + tail) == Prepend(CanonicalAll(msgs), DecodeAll(tail))
  {
    hide EncodeMessage;
    hide DecodeMessagePrefix;
    hide Canonical;
    if msgs == [] {
      assert [] + tail == tail;
      assert DecodeAll(tail).Ok? ==> [] + DecodeAll(tail).value == DecodeAll(tail).value;
    } else {
      var n := |msgs| - 1;
      var front, last := EncodeAll(msgs[..n]).value, EncodeMessage(msgs[n]).value;
      assert front + last + tail == front + (last + tail);
      DecodeAllOfEncodeAll(msgs[..n], last + tail);
      DecodeOfEncode(msgs[n], tail);
      assert (last + tail)[|last|..] == tail;
      assert CanonicalAll(msgs) == CanonicalAll(msgs[..n]) + [Canonical(msgs[n])];
      if DecodeAll(tail).Ok? {
        assert CanonicalAll(msgs[..n]) + ([Canonical(msgs[n])] + DecodeAll(tail).value)
            == CanonicalAll(msgs) + DecodeAll(tail).value;
      }
    }
  }

  /** Whatever a sender can encode, a receiver decodes: the same messages in the
      same order, each in canonical form, under the canonical header with the
      true payload length. */
  lemma FrameRoundTrip(h: Header, msgs: seq<Message>)
    requires FrameOctets(h, msgs).Ok?
    ensures var payload := EncodeAll(msgs).value;
            |payload| <= MAX_DATA_LENGTH &&
            FrameOf(FrameOctets(h, msgs).value) ==
            Ok(Frame(CanonicalHeader(h.(dataLength := |payload|)), CanonicalAll(msgs)))
  {
    hide EncodeAll;
    hide DecodeAll;
    hide EncodeHeader;
    hide DecodeHeader;
    hide CanonicalAll;
    var payload := EncodeAll(msgs).value;
    var h' := h.(dataLength := |payload|);
    var hdr := EncodeHeader(h').value;
    HeaderDecodesCanonically(h', payload);
    assert (hdr + payload)[|hdr|..] == payload;
    DecodeAllOfEncodeAll(msgs, []);
    assert payload + [] == payload;
    EmptyPayload();
    assert CanonicalAll(msgs) + [] == CanonicalAll(msgs);
  }

  lemma EmptyPayload()
    ensures DecodeAll([]) == Ok([])
  {
  }
}
