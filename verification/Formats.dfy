/** The octets on the wire, written out: where each field stands in each format,
    and the constants that identify it. */
module Formats {
  import opened Bytes
  import opened Nibbles
  import opened Acf
  import Words
  import Wire
  import Request
  import Regmap
  import Iseled
  import Mdns

  // ---------------------------------------------------------------- numbers

  /** Most significant octet first. */
  lemma MostSignificantFirst(w: Word32)
    ensures Be32(w) == [w / 0x100_0000, w / 0x1_0000 % 0x100, w / 0x100 % 0x100, w % 0x100]
  {
    var hi, lo := w / 0x1_0000, w % 0x1_0000;
    assert Be32(w) == Be16(hi) + Be16(lo) == [hi / 0x100, hi % 0x100, lo / 0x100, lo % 0x100];
    assert w / 0x100 == hi * 0x100 + lo / 0x100;
  }

  /** Bit 7 read, 6 write, 5 response, 4 error, 3 more segments. */
  lemma FlagBits(control: Byte)
    ensures IsWrite(control) <==> Words.Pin(control, 6)
    ensures IsResponse(control) <==> Words.Pin(control, 5)
    ensures IsError(control) <==> Words.Pin(control, 4)
    ensures MoreSegments(control) <==> Words.Pin(control, 3)
  {
    OctetOfHalves(control);
    var hi: int, lo: int := High(control), Low(control);
    assert control / 2 == hi * 8 + lo / 2;
    assert control / 2 / 2 == hi * 4 + lo / 4;
    assert control / 2 / 2 / 2 == hi * 2 + lo / 8;
    assert control / 2 / 2 / 2 / 2 == hi;
    HalfBits(hi);
    assert Words.Pin(control, 3) == (control / 2 / 2 / 2 % 2 == 1);
    assert Words.Pin(control, 4) == Words.Pin(hi, 0);
    assert Words.Pin(control, 5) == Words.Pin(hi, 1);
    assert Words.Pin(control, 6) == Words.Pin(hi, 2);
  }

  lemma HalfBits(x: Half)
    ensures NibbleOf(x).b0 <==> Words.Pin(x, 0)
    ensures NibbleOf(x).b1 <==> Words.Pin(x, 1)
    ensures NibbleOf(x).b2 <==> Words.Pin(x, 2)
  {
    var n := NibbleOf(x);
    hide NibbleOf;
    var top: int := Weight(n.b3, 2) + Weight(n.b2, 1);
    assert x / 2 == 2 * top + Weight(n.b1, 1);
    assert x / 2 / 2 == top;
    hide ValueOf;
    assert Words.Pin(x, 1) == (x / 2 % 2 == 1);
    assert Words.Pin(x, 2) == (x / 2 / 2 % 2 == 1);
  }

  // --------------------------------------------------------------- messages

  function Bit(b: bool, w: nat): nat {
    if b then w else 0
  }

  /** The message descriptor: type and length in quadlets, pad, mtv and bus id;
      the timestamp of a long message; evt, hs, cs, transaction number, the four
      operation bits and the read size; then the body and zeros. */
  lemma MessageOctets(m: Message)
    requires Wire.EncodeMessage(m).Ok?
    ensures var b := Wire.EncodeMessage(m).value; var off := if m.kind == 2 then 12 else 4;
            var quadlets := Wire.Quadlets(m);
            && |b| == 4 * quadlets && quadlets < 512 && off + 4 + |m.body| <= |b| < off + 8 + |m.body|
            && b[0] == (if m.kind == 2 then 0x1A else 0x1C) + quadlets / 256 && b[1] == quadlets % 256
            && b[2] == (|b| - off - 4 - |m.body|) * 64 + Bit(m.mtv, 32) + m.busId / 256 && b[3] == m.busId % 256
            && (m.kind == 2 ==> b[4..12] == Be64(m.timestamp))
            && b[off] == m.evt * 16 + Bit(m.hs, 2) + Bit(m.cs, 1) && b[off + 1] == m.txn
            && b[off + 2] == Bit(IsWrite(m.control), 128) + Bit(IsResponse(m.control), 64) + Bit(IsError(m.control), 32)
                             + Bit(MoreSegments(m.control), 16) + m.readSize / 256
            && b[off + 3] == m.readSize % 256
            && b[off + 4..off + 4 + |m.body|] == m.body
            && forall i :: off + 4 + |m.body| <= i < |b| ==> b[i] == 0
  {
    hide Be64;
    hide IsWrite;
    hide IsResponse;
    hide IsError;
    hide MoreSegments;
    hide Zeros;
    hide Wire.EncodeHead;
    hide Wire.Row1;
    hide Wire.Row2;
    hide Wire.UnknownFlags;
    var head, tail := Wire.EncodeHead(m), m.body + Zeros(Wire.PadOf(m));
    var b := Wire.EncodeMessage(m).value;
    var off := Wire.HeaderLen(m.kind) - 4;
    assert b == head + tail;
    Wire.HeadLayout(m, tail);
    Row1Octets(m.kind, Wire.Quadlets(m), Wire.PadOf(m), m.mtv, m.busId);
    Row2Octets(m);
    var r1, r2 := b[..4], b[off..off + 4];
    assert b[0] == r1[0] && b[1] == r1[1] && b[2] == r1[2] && b[3] == r1[3];
    assert b[off] == r2[0] && b[off + 1] == r2[1] && b[off + 2] == r2[2] && b[off + 3] == r2[3];
    assert forall i :: off + 4 + |m.body| <= i < |b| ==> b[i] == Zeros(Wire.PadOf(m))[i - off - 4 - |m.body|];
  }

  lemma Row1Octets(kind: Byte, quadlets: nat, pad: nat, mtv: bool, busId: Word16)
    requires quadlets <= 511 && pad < 4 && busId <= 0x7FF
    ensures Wire.Row1(kind, quadlets, pad, mtv, busId) ==
            [(if kind == 2 then 0x1A else 0x1C) + quadlets / 256, quadlets % 256,
             pad * 64 + Bit(mtv, 32) + busId / 256, busId % 256]
  {
    Wire.PadReads(pad);
  }

  lemma Row2Octets(m: Message)
    requires m.evt <= 0x0F && m.txn <= 0xFF && m.readSize <= 0xFFF
    ensures Wire.Row2(m.evt, m.hs, m.cs, m.txn, m.control, m.readSize) ==
            [m.evt * 16 + Bit(m.hs, 2) + Bit(m.cs, 1), m.txn,
             Bit(IsWrite(m.control), 128) + Bit(IsResponse(m.control), 64) + Bit(IsError(m.control), 32)
               + Bit(MoreSegments(m.control), 16) + m.readSize / 256, m.readSize % 256]
  {
    hide IsWrite;
    hide IsResponse;
    hide IsError;
    hide MoreSegments;
  }

  lemma MarkOctet(sv: bool, lo: Half)
    ensures Octet(Wire.ValidMark(sv), lo) == Bit(sv, 128) + lo
  {
  }

  /** The timed AVTPDU header: subtype, sv and tv, sequence number, tu; then stream,
      timestamp, a reserved quadlet, length and two reserved octets. */
  lemma TimedHeaderOctets(h: Wire.Header)
    requires h.timed && h.dataLength <= 2047
    ensures Wire.EncodeHeader(h).Ok?
    ensures Wire.EncodeHeader(h).value ==
            Wire.TimedStart(h) + h.streamId + Be32(h.timestamp) + Zeros(4) + Be16(h.dataLength) + Zeros(2)
    ensures var b := Wire.TimedStart(h);
            && |b| == 4 && b[0] == 0x05
            && b[1] == Bit(h.streamIdValid, 128) + Bit(h.status == Wire.Valid || h.status == Wire.Uncertain, 1)
            && b[2] == h.sequenceNum && b[3] == Bit(h.status == Wire.Uncertain, 1)
  {
    hide Be16;
    hide Be32;
    hide Zeros;
    hide Octet;
    hide Wire.ValidMark;
    MarkOctet(h.streamIdValid, Wire.Flag(Wire.TimedValid(h.status)));
  }

  /** The untimed one: subtype, sv and the length in eleven bits, sequence number;
      then the stream. */
  lemma UntimedHeaderOctets(h: Wire.Header)
    requires !h.timed && h.dataLength <= 2047
    ensures Wire.EncodeHeader(h).Ok? && Wire.EncodeHeader(h).value == Wire.UntimedStart(h) + h.streamId
    ensures var b := Wire.UntimedStart(h);
            && |b| == 4 && b[0] == 0x82 && b[1] == Bit(h.streamIdValid, 128) + h.dataLength / 256
            && b[2] == h.dataLength % 256 && b[3] == h.sequenceNum
  {
    hide Octet;
    hide Wire.ValidMark;
    MarkOctet(h.streamIdValid, Wire.Upper(h.dataLength));
  }

  // -------------------------------------------------------------- envelopes

  /** Every envelope: a kind octet, 0x80 added for the safety variant, then the
      fields of that kind. */
  lemma EnvelopeOctets(a: Request.Action, safety: bool)
    requires Request.Encodable(a, safety)
    ensures var b := Request.EncodeEnvelope(a, safety); var tag := if safety then 0x80 else 0;
            match a
            case Plain(_, _) => true
            case Compound(c, control, body) => b == [tag + 1] + ConditionOctets(c) + [control] + body
            case CompoundWait(c) => b == [tag + 2] + ConditionOctets(c)
            case Triggered(source, control, body) => b == [tag + 3, source, control] + body
            case Chained(segs) => b == [4, |segs|] + SegmentOctets(segs)
            case Timed(at, control, body) => b == [5] + Be64(at) + [control] + body
            case CancelAll => b == [6]
            case CancelTransaction(txn) => b == [7] + Be16(txn)
            case CancelSequencer(id) => b == [8] + Be16(id)
  {
    hide Be16;
    hide Be64;
    hide ConditionOctets;
    hide Request.EncodeConditional;
    hide Request.EncodeSegments;
    hide SegmentOctets;
    if a.Compound? || a.CompoundWait? {
      ConditionIs(a.cond);
    } else if a.Chained? {
      SegmentsAre(a.segments);
    }
  }

  /** Sequencer, operator code, operand, and the step in two's complement. */
  function ConditionOctets(c: Request.Conditional): seq<Byte> {
    Be16(c.sequencer)
      + [match c.op
         case Equal => 0
         case NotEqual => 1
         case Less => 2
         case LessOrEqual => 3
         case Greater => 4
         case GreaterOrEqual => 5]
      + Be32(c.operand) + Be32(c.advance % 0x1_0000_0000)
  }

  lemma ConditionIs(c: Request.Conditional)
    ensures Request.EncodeConditional(c) == ConditionOctets(c)
  {
    hide Be16;
    hide Be32;
  }

  /** Each segment: its control octet, its length, its body. */
  function SegmentOctets(segs: seq<Request.Segment>): seq<Byte>
    requires forall i :: 0 <= i < |segs| ==> |segs[i].body| <= 0xFFFF
  {
    if segs == [] then []
    else [segs[0].control] + Be16(|segs[0].body|) + segs[0].body + SegmentOctets(segs[1..])
  }

  lemma {:induction false} SegmentsAre(segs: seq<Request.Segment>)
    requires forall i :: 0 <= i < |segs| ==> |segs[i].body| <= 0xFFFF
    ensures Request.EncodeSegments(segs) == SegmentOctets(segs)
  {
    hide Be16;
    if segs != [] {
      SegmentsAre(segs[1..]);
    }
  }

  // ------------------------------------------------------------ register map

  /** The general block, field by field, in its three rows of sixteen octets. */
  lemma GeneralOctets(g: Regmap.General)
    ensures var e := Regmap.EncodeGeneral(g);
            && |e| == 48
            && (var b := e[..16];
                && b[0..4] == Be32(g.magic) && b[4..8] == Be32(g.version) && b[8..10] == Be16(g.vendorId)
                && b[10..12] == Be16(g.deviceId) && b[12..14] == Be16(g.numEndpoints)
                && b[14] == g.maxRequestStreams && b[15] == g.maxResponderStreams)
            && (var b := e[16..32];
                && b[0..2] == Be16(g.maxResponderQueueWords) && b[2..4] == Be16(g.maxRequestQueueWords)
                && b[4] == g.numSequencerStates && b[5] == g.configLock && b[6] == g.options && b[7] == g.reserved0
                && b[8..10] == Be16(g.numIOPins) && b[10..12] == Be16(g.hwPointer)
                && b[12] == g.maxConfigRequest && b[13] == g.maxConfigResponse && b[14..16] == Be16(g.clientPointer))
            && (var b := e[32..48];
                && b[0..2] == Be16(g.queuePointer) && b[2..4] == Be16(g.reserved1)
                && b[4..6] == Be16(g.endpointPointer) && b[6..8] == Be16(g.endpointLength)
                && b[8..10] == Be16(g.endpointMapPointer) && b[10] == g.endpointMapMax && b[11] == g.reserved2
                && b[12..14] == Be16(g.functionalPointer) && b[14..16] == Be16(g.sequencerPointer))
  {
    hide Be16;
    hide Be32;
    hide Regmap.Octets0;
    hide Regmap.Octets1;
    hide Regmap.Octets2;
    Regmap.Read0(g);
    Regmap.Read1(g);
    Regmap.Read2(g);
    var e := Regmap.EncodeGeneral(g);
    assert e[..16] == Regmap.Octets0(g) && e[16..32] == Regmap.Octets1(g) && e[32..48] == Regmap.Octets2(g);
  }

  /** The image starts with "RCP0" and version zero; its sections follow in order. */
  lemma ImageStarts(m: Regmap.RegisterMap)
    ensures var b := Regmap.Encode(m);
            && |b| >= 50 && b[..8] == [0x52, 0x43, 0x50, 0x30, 0, 0, 0, 0]
            && b[48..] == Regmap.EncodePins(m.pins) + Regmap.EncodeStreams(m.streams) + Regmap.EncodeQueues(m.queues)
                          + Regmap.EncodeEndpoints(m.endpoints)
  {
    hide Be32;
    hide Regmap.EncodeGeneral;
    hide Regmap.EncodePins;
    hide Regmap.EncodeStreams;
    hide Regmap.EncodeQueues;
    hide Regmap.EncodeEndpoints;
    var g := Regmap.Recomputed(m);
    GeneralOctets(g);
    MostSignificantFirst(0x5243_5030);
    MostSignificantFirst(0);
    var head := Regmap.EncodeGeneral(g);
    assert head[..8] == head[..16][0..4] + head[..16][4..8];
    assert Regmap.Encode(m)[..8] == head[..8];
  }

  /** A pin row and an endpoint entry. */
  lemma RowOctets(a: Regmap.PinAssignment, e: Regmap.Endpoint)
    requires a.endpoint < 0x100 && e.address < 0x100 && |e.data| <= 0xFFFF
    ensures Regmap.PinOctets(a) == [a.pin / 256, a.pin % 256, a.endpoint, a.signal]
    ensures Regmap.EndpointOctets(e) ==
            [e.address, e.kind, if e.enabled then 1 else 0, |e.data| / 256, |e.data| % 256] + e.data
  {
  }

  // ------------------------------------------------------------------ others

  /** An ISELED frame: address, length, data, and the checksum of address and data. */
  lemma CommandOctets(cmd: Iseled.Command)
    requires |cmd.data| <= 0xFFFF
    ensures Iseled.EncodeCommand(cmd) ==
            [cmd.address, |cmd.data| / 256, |cmd.data| % 256] + cmd.data + [Iseled.Crc([cmd.address] + cmd.data)]
  {
    hide Iseled.Crc;
  }

  /** An announcement: a response with three answers and one additional record, the
      first of them a PTR record of _rcp._udp.local. for two minutes; the others
      are of type SRV, TXT and A. */
  lemma AnnouncementOctets(stream: Mdns.Text, ip: Mdns.Text, port: Word16)
    requires |stream| == 8 && |ip| == 4
    ensures var b := Mdns.Announcement(stream, ip, port); var items := Mdns.ServerItems(stream, ip, port);
            && |b| >= 39 && b[..12] == [0, 0, 0x84, 0, 0, 0, 0, 3, 0, 0, 0, 1]
            && b[12..29] == [4, 95, 114, 99, 112, 4, 95, 117, 100, 112, 5, 108, 111, 99, 97, 108, 0]
            && b[29..37] == [0, 12, 0, 1, 0, 0, 0, 120]
            && items[1].typ == 33 && items[2].typ == 16 && items[3].typ == 1
  {
    hide Mdns.Hex;
    hide Mdns.EncodeName;
    hide Mdns.Join;
    var items := Mdns.ServerItems(stream, ip, port);
    PtrOctets(items[0].rdata);
    var first := Mdns.ItemOctets(items[0]);
    assert Mdns.ItemsOctets(items) == first + Mdns.ItemsOctets(items[1..]);
    hide Mdns.ItemOctets;
    hide Mdns.ItemsOctets;
    var head := Mdns.EncodeHeader(Mdns.Header(0, 0x8400, 0, 3, 0, 1));
    assert head == [0, 0, 0x84, 0, 0, 0, 0, 3, 0, 0, 0, 1];
    hide Mdns.EncodeHeader;
    var b := Mdns.Announcement(stream, ip, port);
    assert b[12..29] == first[..17] && b[29..37] == first[17..25];
  }

  lemma PtrOctets(rdata: Mdns.Text)
    ensures var first := Mdns.ItemOctets(Mdns.Item(Mdns.SERVICE, 12, rdata));
            && |first| >= 27 && first[17..25] == [0, 12, 0, 1, 0, 0, 0, 120]
            && first[..17] == [4, 95, 114, 99, 112, 4, 95, 117, 100, 112, 5, 108, 111, 99, 97, 108, 0]
  {
    hide Mdns.EncodeName;
    hide Mdns.Join;
    hide Mdns.LabelOctets;
    assert Mdns.NoDot(Mdns.RCP) && Mdns.NoDot(Mdns.UDP) && Mdns.NoDot(Mdns.LOCAL);
    Mdns.NameRoundTrip([], Mdns.SERVICE, []);
    ServiceLabels();
    MostSignificantFirst(120);
    var name := Mdns.EncodeName(Mdns.NameOf(Mdns.SERVICE));
    var fixed := Be16(12) + Be16(1) + Be32(120);
    assert fixed == [0, 12, 0, 1, 0, 0, 0, 120];
    var first := Mdns.ItemOctets(Mdns.Item(Mdns.SERVICE, 12, rdata));
    assert first == name + fixed + (Be16(|rdata| % 0x1_0000) + rdata);
  }

  /** Lower-case hexadecimal digits. */
  lemma HexDigits(n: nat)
    requires n < 16
    ensures Mdns.HexDigit(n) == [48, 49, 50, 51, 52, 53, 54, 55, 56, 57, 97, 98, 99, 100, 101, 102][n]
  {
  }

  lemma ServiceLabels()
    ensures Mdns.LabelOctets(Mdns.SERVICE) == [4, 95, 114, 99, 112, 4, 95, 117, 100, 112, 5, 108, 111, 99, 97, 108, 0]
  {
    hide Mdns.LabelOctets;
    var l2, l3 := [Mdns.UDP, Mdns.LOCAL], [Mdns.LOCAL];
    assert Mdns.SERVICE[1..] == l2 && l2[1..] == l3 && l3[1..] == [];
    Mdns.LabelOctetsStep(Mdns.SERVICE);
    Mdns.LabelOctetsStep(l2);
    Mdns.LabelOctetsStep(l3);
    NoLabelOctets();
  }

  lemma NoLabelOctets()
    ensures Mdns.LabelOctets([]) == [0]
  {
  }
}
