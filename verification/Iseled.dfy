/** ISELED framing: a bit-by-bit CRC-8 and the length-prefixed frames it closes.

    The CRC register is a bit-vector; the octets of a frame are the integers
    every other codec uses, and `Bits` is the bridge between the two. */
module Iseled {
  import opened Bytes
  import opened Outcomes

  const CRC_POLY: bv8 := 0x1D
  const CRC_INIT: bv8 := 0xFF
  const CRC_XOR_OUT: bv8 := 0xFF

  /** Address(1) + DataLen(2), and the trailing CRC. */
  const ADDR_HEADER_LEN := 3
  const CRC_LEN := 1

  /** Largest data length the two-byte length field can hold. */
  const MAX_DATA := 0xFFFF

  datatype Error = ShortBuffer | TrailingBytes | CRCMismatch

  datatype Command = Command(address: Byte, data: seq<Byte>)

  // ---------------------------------------------------------------- CRC-8

  function Xor(a: bv8, b: bv8): bv8 {
    a ^ b
  }

  function Bits(b: Byte): bv8 {
    b as bv8
  }

  function ByteOf(c: bv8): Byte {
    c as int
  }

  /** One bit of the MSB-first CRC register. */
  function ShiftBit(crc: bv8): bv8 {
    if crc & 0x80 != 0 then Xor(crc << 1, CRC_POLY) else crc << 1
  }

  function ShiftBits(crc: bv8, n: nat): bv8
    decreases n, crc
  {
    if n == 0 then crc else ShiftBits(ShiftBit(crc), n - 1)
  }

  /** The CRC register after absorbing all of `data`, starting from `crc`. */
  function Absorb(crc: bv8, data: seq<Byte>): bv8
    decreases data
  {
    if data == [] then crc else Absorb(ShiftBits(Xor(crc, Bits(data[0])), 8), data[1..])
  }

  /** The checksum's bits before they become the trailing octet. */
  function CrcBits(data: seq<Byte>): bv8 {
    Xor(Absorb(CRC_INIT, data), CRC_XOR_OUT)
  }

  function Crc(data: seq<Byte>): Byte {
    ByteOf(CrcBits(data))
  }

  /** The source's nested loops compute the fold above. */
  method ComputeCRC(data: seq<Byte>) returns (r: Byte)
    ensures r == Crc(data)
  {
    hide Xor;
    hide Bits;
    var crc := CRC_INIT;
    for k := 0 to |data|
      invariant Absorb(crc, data[k..]) == Absorb(CRC_INIT, data)
    {
      assert data[k..][1..] == data[k + 1..];
      crc := Xor(crc, Bits(data[k]));
      ghost var loaded := crc;
      for i := 0 to 8
        invariant ShiftBits(crc, 8 - i) == ShiftBits(loaded, 8)
      {
        if crc & 0x80 != 0 {
          crc := Xor(crc << 1, CRC_POLY);
        } else {
          crc := crc << 1;
        }
      }
    }
    r := ByteOf(Xor(crc, CRC_XOR_OUT));
  }

  // ---------------------------------------------- algebra of the register

  lemma XorZero(x: bv8, y: bv8)
    ensures Xor(x, y) == 0 <==> x == y
  {
  }

  lemma XorCancel(c: bv8, x: bv8, y: bv8)
    ensures Xor(Xor(c, x), Xor(c, y)) == Xor(x, y)
    ensures Xor(Xor(x, c), Xor(y, c)) == Xor(x, y)
  {
  }

  lemma XorSwap(p: bv8, q: bv8, y: bv8, z: bv8)
    requires Xor(p, y) == Xor(q, z)
    ensures Xor(p, q) == Xor(y, z)
  {
  }

  lemma XorInjective(c: bv8, x: bv8, y: bv8)
    requires Xor(c, x) == Xor(c, y) || Xor(x, c) == Xor(y, c)
    ensures x == y
  {
  }

  lemma NextBits(b: bv8)
    requires b as int < 255
    ensures (b + 1) as int == b as int + 1
  {
  }

  lemma {:induction false} BitsFor(x: int) returns (b: bv8)
    requires 0 <= x < 256
    ensures b as int == x
    decreases x
  {
    if x == 0 {
      b := 0;
    } else {
      b := BitsFor(x - 1);
      NextBits(b);
      b := b + 1;
    }
  }

  lemma ByteToBits(x: Byte)
    ensures (x as bv8) as int == x
  {
    var b := BitsFor(x);
    BitsOfByte(b);
  }

  lemma BitsInjective(x: Byte, y: Byte)
    requires Bits(x) == Bits(y)
    ensures x == y
  {
    ByteToBits(x);
    ByteToBits(y);
  }

  lemma BitsOfByte(c: bv8)
    ensures Bits(ByteOf(c)) == c
  {
    assert (c as int) as bv8 == c;
  }

  lemma ShiftBitXor(a: bv8, b: bv8)
    ensures ShiftBit(Xor(a, b)) == Xor(ShiftBit(a), ShiftBit(b))
  {
    if a & 0x80 != 0 {
      if b & 0x80 != 0 {} else {}
    } else {
      if b & 0x80 != 0 {} else {}
    }
  }

  /** The register is linear over GF(2). */
  lemma {:induction false} ShiftBitsXor(a: bv8, b: bv8, n: nat)
    ensures ShiftBits(Xor(a, b), n) == Xor(ShiftBits(a, n), ShiftBits(b, n))
    decreases n
  {
    hide ShiftBit;
    hide Xor;
    if n > 0 {
      ShiftBitXor(a, b);
      ShiftBitsXor(ShiftBit(a), ShiftBit(b), n - 1);
    }
  }

  lemma ShiftBitInjective(a: bv8, b: bv8)
    requires ShiftBit(a) == ShiftBit(b)
    ensures a == b
  {
  }

  /** Shifting loses nothing: the CRC polynomial has a constant term. */
  lemma {:induction false} ShiftBitsInjective(a: bv8, b: bv8, n: nat)
    requires ShiftBits(a, n) == ShiftBits(b, n)
    ensures a == b
    decreases n
  {
    hide ShiftBit;
    if n > 0 {
      ShiftBitsInjective(ShiftBit(a), ShiftBit(b), n - 1);
      ShiftBitInjective(a, b);
    }
  }

  /** Two different registers stay different over any common continuation. */
  lemma {:induction false} AbsorbInjective(a: bv8, b: bv8, data: seq<Byte>)
    requires Absorb(a, data) == Absorb(b, data)
    ensures a == b
    decreases data
  {
    hide ShiftBits;
    hide Xor;
    if data != [] {
      var x := Bits(data[0]);
      AbsorbInjective(ShiftBits(Xor(a, x), 8), ShiftBits(Xor(b, x), 8), data[1..]);
      ShiftBitsInjective(Xor(a, x), Xor(b, x), 8);
      XorInjective(x, a, b);
    }
  }

  lemma {:induction false} AbsorbConcat(crc: bv8, a: seq<Byte>, b: seq<Byte>)
    ensures Absorb(crc, a + b) == Absorb(Absorb(crc, a), b)
    decreases a
  {
    hide ShiftBits;
    hide Xor;
    if a == [] {
      assert a + b == b;
    } else {
      assert (a + b)[1..] == a[1..] + b;
      AbsorbConcat(ShiftBits(Xor(crc, Bits(a[0])), 8), a[1..], b);
    }
  }

  // -------------------------------------------------------- burst algebra

  /** The `s` most significant bits of an octet. */
  function TopBits(s: nat): bv8
    requires s <= 8
  {
    [0x00, 0x80, 0xC0, 0xE0, 0xF0, 0xF8, 0xFC, 0xFE, 0xFF][s]
  }

  /** A difference confined to eight consecutive bits: the low 8-s bits of
      one octet followed by the top s bits of the next. */
  predicate Straddles(dx: bv8, dy: bv8, s: nat)
    requires s <= 8
  {
    dx & TopBits(s) == 0 && dy & !TopBits(s) == 0
  }

  /** Eight shifts, unrolled, so that the bit-vector solver sees one term. */
  lemma ShiftEight(c: bv8)
    ensures ShiftBits(c, 8) ==
            ShiftBit(ShiftBit(ShiftBit(ShiftBit(ShiftBit(ShiftBit(ShiftBit(ShiftBit(c))))))))
  {
    var c1 := ShiftBit(c);
    var c2 := ShiftBit(c1);
    var c3 := ShiftBit(c2);
    var c4 := ShiftBit(c3);
    assert ShiftBits(c, 8) == ShiftBits(c1, 7);
    assert ShiftBits(c1, 7) == ShiftBits(c2, 6);
    assert ShiftBits(c2, 6) == ShiftBits(c3, 5);
    assert ShiftBits(c3, 5) == ShiftBits(c4, 4);
    var c5 := ShiftBit(c4);
    var c6 := ShiftBit(c5);
    assert ShiftBits(c4, 4) == ShiftBits(c5, 3);
    assert ShiftBits(c5, 3) == ShiftBits(c6, 2);
    assert ShiftBits(ShiftBit(c6), 1) == ShiftBit(ShiftBit(c6));
  }

  /** No non-zero difference confined to eight consecutive bits is a multiple
      of the CRC polynomial. */
  lemma BurstNotMultiple(dx: bv8, dy: bv8, s: nat)
    requires s <= 8 && Straddles(dx, dy, s)
    requires dx != 0
    ensures ShiftBits(dx, 8) != dy
  {
    hide ShiftBits;
    ShiftEight(dx);
  }

  // ----------------------------------------------------------- the frames

  /** The low sixteen bits of a length; longer lengths are truncated. */
  function Len16(n: nat): (b: seq<Byte>)
    ensures |b| == 2 && FromBe16(b) == n % 0x1_0000
  {
    Be16(n % 0x1_0000)
  }

  /** The octets the CRC covers: address, then data, without the length. */
  function Covered(address: Byte, data: seq<Byte>): seq<Byte> {
    [address] + data
  }

  function EncodeCommand(cmd: Command): (b: seq<Byte>) {
    [cmd.address] + Len16(|cmd.data|) + cmd.data + [Crc(Covered(cmd.address, cmd.data))]
  }

  function DecodeCommand(b: seq<Byte>): Result<Command, Error> {
    if |b| < ADDR_HEADER_LEN + CRC_LEN then Err(ShortBuffer)
    else
      var want := ADDR_HEADER_LEN + FromBe16(b[1..3]) + CRC_LEN;
      if |b| < want then Err(ShortBuffer)
      else if |b| > want then Err(TrailingBytes)
      else if b[want - 1] != Crc(Covered(b[0], b[3..want - 1])) then Err(CRCMismatch)
      else Ok(Command(b[0], b[3..want - 1]))
  }

  /** Decoding accepts exactly the encodings of representable commands, and
      returns the command that was encoded. */
  lemma DecodeAcceptsExactlyEncodings(b: seq<Byte>, cmd: Command)
    ensures DecodeCommand(b) == Ok(cmd) <==> |cmd.data| <= MAX_DATA && b == EncodeCommand(cmd)
  {
    hide Crc;
    hide Len16;
    if DecodeCommand(b) == Ok(cmd) {
      var n := |cmd.data|;
      Be16OfFrom(b[1..3]);
      assert b == [b[0]] + b[1..3] + b[3..|b| - 1] + [b[|b| - 1]];
    }
    if |cmd.data| <= MAX_DATA && b == EncodeCommand(cmd) {
      assert b[1..3] == Len16(|cmd.data|);
      assert b[3..|b| - 1] == cmd.data;
    }
  }

  /** A command survives the wire exactly when its length field does. */
  lemma CommandRoundTrip(cmd: Command)
    ensures DecodeCommand(EncodeCommand(cmd)) == Ok(cmd) <==> |cmd.data| <= MAX_DATA
  {
    DecodeAcceptsExactlyEncodings(EncodeCommand(cmd), cmd);
  }

  // ------------------------------------------------------- error detection

  /** The bits in which two octets differ. */
  function Differ(x: Byte, y: Byte): bv8 {
    Xor(Bits(x), Bits(y))
  }

  lemma DifferZero(x: Byte, y: Byte)
    ensures Differ(x, y) == 0 <==> x == y
  {
    hide Bits;
    hide Xor;
    XorZero(Bits(x), Bits(y));
    if Differ(x, y) == 0 {
      BitsInjective(x, y);
    }
  }

  /** `b` differs from `a` only within eight consecutive bits, the first of
      them in octet `k`, `s` of them in octet `k + 1`. */
  predicate BurstAt(a: seq<Byte>, b: seq<Byte>, k: nat, s: nat)
    requires s <= 8
  {
    && |a| == |b| && k < |a|
    && a[..k] == b[..k]
    && if k + 1 < |a| then
         a[k + 2..] == b[k + 2..] && Straddles(Differ(a[k], b[k]), Differ(a[k + 1], b[k + 1]), s)
       else true
  }

  /** What two registers differ by after absorbing one octet each. */
  lemma AbsorbOneDifference(c: bv8, x: bv8, y: bv8)
    ensures Xor(ShiftBits(Xor(c, x), 8), ShiftBits(Xor(c, y), 8)) == ShiftBits(Xor(x, y), 8)
  {
    hide ShiftBits;
    hide Xor;
    ShiftBitsXor(Xor(c, x), Xor(c, y), 8);
    XorCancel(c, x, y);
  }

  lemma AbsorbTwo(c: bv8, x: Byte, y: Byte, tail: seq<Byte>)
    ensures Absorb(c, [x, y] + tail) ==
            Absorb(ShiftBits(Xor(ShiftBits(Xor(c, Bits(x)), 8), Bits(y)), 8), tail)
  {
    hide ShiftBits;
    hide Xor;
    hide Bits;
    assert ([x, y] + tail)[1..] == [y] + tail;
    assert ([y] + tail)[1..] == tail;
  }

  /** Two checksums agree only if the registers behind them did. */
  lemma CrcInjective(p: seq<Byte>, q: seq<Byte>)
    requires Crc(p) == Crc(q)
    ensures Absorb(CRC_INIT, p) == Absorb(CRC_INIT, q)
  {
    hide Absorb;
    hide Xor;
    hide Bits;
    hide ByteOf;
    BitsOfByte(CrcBits(p));
    BitsOfByte(CrcBits(q));
    XorInjective(CRC_XOR_OUT, Absorb(CRC_INIT, p), Absorb(CRC_INIT, q));
  }

  /** A burst inside the covered octets changes the CRC. */
  lemma BurstChangesCrc(pre: seq<Byte>, x: Byte, y: Byte, x': Byte, y': Byte, tail: seq<Byte>, s: nat)
    requires s <= 8 && Straddles(Differ(x, x'), Differ(y, y'), s)
    requires x != x' || y != y'
    ensures Crc(pre + [x, y] + tail) != Crc(pre + [x', y'] + tail)
  {
    hide ShiftBits;
    hide Xor;
    hide Straddles;
    hide Bits;
    hide Crc;
    var c := Absorb(CRC_INIT, pre);
    var p, q := ShiftBits(Xor(c, Bits(x)), 8), ShiftBits(Xor(c, Bits(x')), 8);
    assert pre + [x, y] + tail == pre + ([x, y] + tail);
    assert pre + [x', y'] + tail == pre + ([x', y'] + tail);
    AbsorbConcat(CRC_INIT, pre, [x, y] + tail);
    AbsorbConcat(CRC_INIT, pre, [x', y'] + tail);
    AbsorbTwo(c, x, y, tail);
    AbsorbTwo(c, x', y', tail);
    if Crc(pre + [x, y] + tail) == Crc(pre + [x', y'] + tail) {
      CrcInjective(pre + [x, y] + tail, pre + [x', y'] + tail);
      AbsorbInjective(ShiftBits(Xor(p, Bits(y)), 8), ShiftBits(Xor(q, Bits(y')), 8), tail);
      ShiftBitsInjective(Xor(p, Bits(y)), Xor(q, Bits(y')), 8);
      XorSwap(p, q, Bits(y), Bits(y'));
      AbsorbOneDifference(c, Bits(x), Bits(x'));
      DifferZero(x, x');
      if x != x' {
        BurstNotMultiple(Differ(x, x'), Differ(y, y'), s);
      } else {
        XorInjective(p, Bits(y), Bits(y'));
        BitsInjective(y, y');
      }
      assert false;
    }
  }

  /** A single changed octet changes the CRC. */
  lemma OctetChangesCrc(pre: seq<Byte>, x: Byte, x': Byte, tail: seq<Byte>)
    requires x != x'
    ensures Crc(pre + [x] + tail) != Crc(pre + [x'] + tail)
  {
    hide ShiftBits;
    hide Xor;
    hide Bits;
    hide Crc;
    var c := Absorb(CRC_INIT, pre);
    assert pre + [x] + tail == pre + ([x] + tail);
    assert pre + [x'] + tail == pre + ([x'] + tail);
    AbsorbConcat(CRC_INIT, pre, [x] + tail);
    AbsorbConcat(CRC_INIT, pre, [x'] + tail);
    assert ([x] + tail)[1..] == tail && ([x'] + tail)[1..] == tail;
    if Crc(pre + [x] + tail) == Crc(pre + [x'] + tail) {
      CrcInjective(pre + [x] + tail, pre + [x'] + tail);
      AbsorbInjective(ShiftBits(Xor(c, Bits(x)), 8), ShiftBits(Xor(c, Bits(x')), 8), tail);
      ShiftBitsInjective(Xor(c, Bits(x)), Xor(c, Bits(x')), 8);
      XorInjective(c, Bits(x), Bits(x'));
      BitsInjective(x, x');
      assert false;
    }
  }

  /** A burst across the last covered octet and the CRC octet is not hidden. */
  lemma BurstIntoTrailer(pre: seq<Byte>, x: Byte, x': Byte, s: nat, crc': Byte)
    requires s <= 8 && x != x'
    requires Straddles(Differ(x, x'), Differ(Crc(pre + [x]), crc'), s)
    ensures Crc(pre + [x']) != crc'
  {
    hide ShiftBits;
    hide Xor;
    hide Straddles;
    hide Bits;
    hide ByteOf;
    var c := Absorb(CRC_INIT, pre);
    AbsorbConcat(CRC_INIT, pre, [x]);
    AbsorbConcat(CRC_INIT, pre, [x']);
    assert [x][1..] == [] && [x'][1..] == [];
    var p, q := ShiftBits(Xor(c, Bits(x)), 8), ShiftBits(Xor(c, Bits(x')), 8);
    assert Absorb(p, []) == p && Absorb(q, []) == q;
    if Crc(pre + [x']) == crc' {
      BitsOfByte(CrcBits(pre + [x]));
      BitsOfByte(CrcBits(pre + [x']));
      XorCancel(CRC_XOR_OUT, p, q);
      AbsorbOneDifference(c, Bits(x), Bits(x'));
      DifferZero(x, x');
      BurstNotMultiple(Differ(x, x'), Xor(p, q), s);
      assert false;
    }
  }

  lemma EncodingLayout(cmd: Command)
    ensures var b := EncodeCommand(cmd); var p := Covered(cmd.address, cmd.data);
            && |b| == |cmd.data| + 4 && |p| == |cmd.data| + 1
            && b[0] == p[0]
            && b[1..3] == Len16(|cmd.data|)
            && (forall i :: 3 <= i < |b| - 1 ==> b[i] == p[i - 2])
            && b[|b| - 1] == Crc(p)
  {
    hide Crc;
    hide Len16;
  }

  /** Two octet strings of one length that agree except at `j` and `j + 1`. */
  predicate AgreeExceptAt(p: seq<Byte>, p': seq<Byte>, j: nat) {
    && |p| == |p'| && j < |p| && p[..j] == p'[..j]
    && (j + 1 < |p| ==> p[j + 2..] == p'[j + 2..])
  }

  lemma AgreeFrom(p: seq<Byte>, p': seq<Byte>, j: nat)
    requires |p| == |p'| && j < |p| && forall i :: 0 <= i < |p| && i != j && i != j + 1 ==> p[i] == p'[i]
    ensures AgreeExceptAt(p, p', j)
  {
  }

  lemma OctetDiffers(p: seq<Byte>, p': seq<Byte>, j: nat)
    requires AgreeExceptAt(p, p', j) && p != p' && (j + 1 < |p| ==> p[j + 1] == p'[j + 1])
    ensures Crc(p) != Crc(p')
  {
    hide Crc;
    assert p == p[..j] + [p[j]] + p[j + 1..];
    assert p' == p[..j] + [p'[j]] + p[j + 1..] by {
      assert j + 1 < |p| ==> p[j + 1..] == [p[j + 1]] + p[j + 2..];
      assert j + 1 < |p| ==> p'[j + 1..] == [p'[j + 1]] + p'[j + 2..];
    }
    OctetChangesCrc(p[..j], p[j], p'[j], p[j + 1..]);
  }

  lemma BurstDiffers(p: seq<Byte>, p': seq<Byte>, j: nat, s: nat)
    requires AgreeExceptAt(p, p', j) && p != p' && j + 1 < |p|
    requires s <= 8 && Straddles(Differ(p[j], p'[j]), Differ(p[j + 1], p'[j + 1]), s)
    ensures Crc(p) != Crc(p')
  {
    hide Crc;
    hide Straddles;
    hide Differ;
    assert p == p[..j] + [p[j], p[j + 1]] + p[j + 2..];
    assert p' == p'[..j] + [p'[j], p'[j + 1]] + p'[j + 2..];
    BurstChangesCrc(p[..j], p[j], p[j + 1], p'[j], p'[j + 1], p[j + 2..], s);
  }

  lemma LastDiffers(p: seq<Byte>, p': seq<Byte>, s: nat, crc': Byte)
    requires p != [] && AgreeExceptAt(p, p', |p| - 1) && p != p'
    requires s <= 8 && Straddles(Differ(p[|p| - 1], p'[|p| - 1]), Differ(Crc(p), crc'), s)
    ensures Crc(p') != crc'
  {
    hide Crc;
    hide Straddles;
    hide Differ;
    var j := |p| - 1;
    assert p == p[..j] + [p[j]] && p' == p[..j] + [p'[j]];
    BurstIntoTrailer(p[..j], p[j], p'[j], s, crc');
  }

  /** Where the j-th covered octet sits in the frame. */
  function WireIndex(j: nat): nat {
    if j == 0 then 0 else j + 2
  }

  lemma UnchangedOutside(a: seq<Byte>, b: seq<Byte>, k: nat, s: nat, i: nat)
    requires s <= 8 && BurstAt(a, b, k, s)
    requires i < |a| && i != k && i != k + 1
    ensures a[i] == b[i]
  {
    hide Straddles;
    if i < k {
      assert a[..k][i] == b[..k][i];
    } else {
      assert a[k + 2..][i - k - 2] == b[k + 2..][i - k - 2];
    }
  }

  /** A frame `a` carrying the covered octets `p` and their CRC. */
  predicate Carries(a: seq<Byte>, p: seq<Byte>) {
    && |p| >= 1 && |a| == |p| + 3
    && (forall j :: 0 <= j < |p| ==> a[WireIndex(j)] == p[j])
    && a[|a| - 1] == Crc(p)
  }

  lemma CoveredAgrees(a: seq<Byte>, b: seq<Byte>, p: seq<Byte>, p': seq<Byte>, k: nat, s: nat)
    requires s <= 8 && BurstAt(a, b, k, s) && Carries(a, p) && Carries(b, p')
    ensures forall j :: 0 <= j < |p| && WireIndex(j) != k && WireIndex(j) != k + 1 ==> p[j] == p'[j]
  {
    hide Crc;
    hide BurstAt;
    assert |a| == |b| by { BurstKeepsLength(a, b, k, s); }
    forall j | 0 <= j < |p| && WireIndex(j) != k && WireIndex(j) != k + 1
      ensures p[j] == p'[j]
    {
      UnchangedOutside(a, b, k, s, WireIndex(j));
    }
  }

  lemma BurstKeepsLength(a: seq<Byte>, b: seq<Byte>, k: nat, s: nat)
    requires s <= 8 && BurstAt(a, b, k, s)
    ensures |a| == |b|
  {
  }

  /** Up to the length field only one covered octet can differ, and the trailer
      cannot. */
  lemma BurstInHead(a: seq<Byte>, b: seq<Byte>, p: seq<Byte>, p': seq<Byte>, k: nat, s: nat)
    requires s <= 8 && BurstAt(a, b, k, s) && Carries(a, p) && Carries(b, p') && k <= 2
    ensures p == p'
  {
    hide Crc;
    hide Straddles;
    CoveredAgrees(a, b, p, p', k, s);
    if p != p' {
      UnchangedOutside(a, b, k, s, |a| - 1);
      hide BurstAt;
      AgreeFrom(p, p', if k == 0 then 0 else 1);
      hide AgreeExceptAt;
      OctetDiffers(p, p', if k == 0 then 0 else 1);
      assert false;
    }
  }

  lemma BurstInBody(a: seq<Byte>, b: seq<Byte>, p: seq<Byte>, p': seq<Byte>, k: nat, s: nat)
    requires s <= 8 && BurstAt(a, b, k, s) && Carries(a, p) && Carries(b, p') && 3 <= k < |a| - 2
    ensures p == p'
  {
    hide Crc;
    hide Straddles;
    hide Differ;
    CoveredAgrees(a, b, p, p', k, s);
    if p != p' {
      UnchangedOutside(a, b, k, s, |a| - 1);
      assert a[k] == p[k - 2] && b[k] == p'[k - 2] && a[k + 1] == p[k - 1] && b[k + 1] == p'[k - 1] by {
        assert WireIndex(k - 2) == k && WireIndex(k - 1) == k + 1;
      }
      AgreeFrom(p, p', k - 2);
      hide AgreeExceptAt;
      BurstDiffers(p, p', k - 2, s);
      assert false;
    }
  }

  lemma BurstInTail(a: seq<Byte>, b: seq<Byte>, p: seq<Byte>, p': seq<Byte>, k: nat, s: nat)
    requires s <= 8 && BurstAt(a, b, k, s) && Carries(a, p) && Carries(b, p') && k >= 3 && |a| - 2 <= k
    ensures p == p'
  {
    hide Crc;
    hide Straddles;
    hide Differ;
    CoveredAgrees(a, b, p, p', k, s);
    if p != p' {
      var j := |p| - 1;
      assert WireIndex(j) == k;
      AgreeFrom(p, p', j);
      hide AgreeExceptAt;
      LastDiffers(p, p', s, b[|a| - 1]);
      assert false;
    }
  }

  /** Two frames of equal length that both pass the CRC and differ only within
      eight consecutive bits are the same frame. */
  lemma BurstKeepsNothing(c: Command, c': Command, k: nat, s: nat)
    requires s <= 8 && |c.data| == |c'.data|
    requires BurstAt(EncodeCommand(c), EncodeCommand(c'), k, s)
    ensures EncodeCommand(c) == EncodeCommand(c')
  {
    hide Crc;
    hide Len16;
    hide EncodeCommand;
    hide BurstAt;
    EncodingLayout(c);
    EncodingLayout(c');
    var a, b := EncodeCommand(c), EncodeCommand(c');
    var p, p' := Covered(c.address, c.data), Covered(c'.address, c'.data);
    hide Covered;
    if k <= 2 {
      BurstInHead(a, b, p, p', k, s);
    } else if k < |a| - 2 {
      BurstInBody(a, b, p, p', k, s);
    } else {
      BurstInTail(a, b, p, p', k, s);
    }
    assert a[1] == a[1..3][0] && a[2] == a[1..3][1] && b[1] == b[1..3][0] && b[2] == b[1..3][1];
  }

  /** Every corruption confined to eight consecutive bits of an encoded command
      is rejected: it breaks either the length check or the CRC check. */
  lemma BurstIsDetected(cmd: Command, b: seq<Byte>, k: nat, s: nat)
    requires |cmd.data| <= MAX_DATA && s <= 8
    requires b != EncodeCommand(cmd) && BurstAt(EncodeCommand(cmd), b, k, s)
    ensures DecodeCommand(b).Err?
  {
    hide DecodeCommand;
    if DecodeCommand(b).Ok? {
      var c' := DecodeCommand(b).value;
      DecodeAcceptsExactlyEncodings(b, c');
      EncodingLayout(cmd);
      EncodingLayout(c');
      BurstKeepsNothing(cmd, c', k, s);
      assert false;
    }
  }

  /** In particular no single corrupted octet goes unnoticed, wherever it is. */
  lemma OctetErrorIsDetected(cmd: Command, k: nat, v: Byte)
    requires |cmd.data| <= MAX_DATA && k < |EncodeCommand(cmd)|
    requires v != EncodeCommand(cmd)[k]
    ensures DecodeCommand(EncodeCommand(cmd)[k := v]).Err?
  {
    hide Crc;
    var a := EncodeCommand(cmd);
    if k + 1 < |a| {
      DifferZero(a[k + 1], a[k + 1]);
    }
    BurstIsDetected(cmd, a[k := v], k, 0);
  }

  // -------------------------------------------------- aggregated responses

  /** A device answers with the frame shape commands use, so one datatype
      stands for both. */
  function EncodeAll(resp: seq<Command>): seq<Byte> {
    if resp == [] then [] else EncodeCommand(resp[0]) + EncodeAll(resp[1..])
  }

  function EncodeAggregated(resp: seq<Command>): seq<Byte> {
    [|resp| % 256] + EncodeAll(resp)
  }

  /** The length of the self-delimiting entry at the front of `rest`. */
  function EntryLen(rest: seq<Byte>): nat
    requires |rest| >= ADDR_HEADER_LEN + CRC_LEN
  {
    ADDR_HEADER_LEN + FromBe16(rest[1..3]) + CRC_LEN
  }

  /** `count` entries off the front of `rest`, and nothing after them. */
  function DecodeEntries(count: nat, rest: seq<Byte>): Result<seq<Command>, Error>
    decreases count
  {
    if count == 0 then (if rest == [] then Ok([]) else Err(TrailingBytes))
    else if |rest| < ADDR_HEADER_LEN + CRC_LEN then Err(ShortBuffer)
    else if |rest| < EntryLen(rest) then Err(ShortBuffer)
    else
      var head := DecodeCommand(rest[..EntryLen(rest)]);
      if head.Err? then Err(head.error)
      else
        var tail := DecodeEntries(count - 1, rest[EntryLen(rest)..]);
        if tail.Err? then tail else Ok([head.value] + tail.value)
  }

  method EncodeAggregatedResponse(resp: seq<Command>) returns (b: seq<Byte>)
    ensures b == EncodeAggregated(resp)
  {
    hide EncodeCommand;
    b := [|resp| % 256];
    for i := 0 to |resp|
      invariant b + EncodeAll(resp[i..]) == EncodeAggregated(resp)
    {
      assert resp[i..][1..] == resp[i + 1..];
      b := b + EncodeCommand(resp[i]);
    }
    assert b + EncodeAll(resp[|resp|..]) == b;
  }

  method DecodeAggregatedResponse(b: seq<Byte>) returns (r: Result<seq<Command>, Error>)
    ensures r == if |b| < 1 then Err(ShortBuffer) else DecodeEntries(b[0], b[1..])
  {
    hide DecodeCommand;
    if |b| < 1 {
      return Err(ShortBuffer);
    }
    var count := b[0];
    var rest := b[1..];
    var resp := [];
    assert Prepend([], DecodeEntries(count, rest)) == DecodeEntries(count, rest) by {
      var all := DecodeEntries(count, rest);
      assert all.Ok? ==> [] + all.value == all.value;
    }
    for i := 0 to count
      invariant Prepend(resp, DecodeEntries(count - i, rest)) == DecodeEntries(count, b[1..])
    {
      if |rest| < ADDR_HEADER_LEN + CRC_LEN {
        return Err(ShortBuffer);
      }
      var entryLen := EntryLen(rest);
      if |rest| < entryLen {
        return Err(ShortBuffer);
      }
      var entry := DecodeCommand(rest[..entryLen]);
      if entry.Err? {
        return Err(entry.error);
      }
      ghost var tail := DecodeEntries(count - i - 1, rest[entryLen..]);
      assert tail.Ok? ==> resp + ([entry.value] + tail.value) == (resp + [entry.value]) + tail.value;
      resp := resp + [entry.value];
      rest := rest[entryLen..];
    }
    if rest != [] {
      return Err(TrailingBytes);
    }
    assert resp + [] == resp;
    return Ok(resp);
  }

  /** The entry decoder accepts exactly the concatenations of encodings of
      `count` representable entries. */
  lemma {:induction false} EntriesAcceptExactly(count: nat, rest: seq<Byte>, resp: seq<Command>)
    ensures DecodeEntries(count, rest) == Ok(resp) <==>
            && |resp| == count && rest == EncodeAll(resp)
            && forall i :: 0 <= i < |resp| ==> |resp[i].data| <= MAX_DATA
    decreases count
  {
    hide DecodeCommand;
    hide EncodeCommand;
    hide EntryLen;
    if DecodeEntries(count, rest) == Ok(resp) {
      if count > 0 {
        var n := EntryLen(rest);
        var head := DecodeCommand(rest[..n]).value;
        assert resp == [head] + DecodeEntries(count - 1, rest[n..]).value;
        assert resp[1..] == DecodeEntries(count - 1, rest[n..]).value;
        EntriesAcceptExactly(count - 1, rest[n..], resp[1..]);
        DecodeAcceptsExactlyEncodings(rest[..n], head);
        assert rest == rest[..n] + rest[n..];
        forall i | 0 <= i < |resp| ensures |resp[i].data| <= MAX_DATA {
          if i > 0 {
            assert resp[i] == resp[1..][i - 1];
          }
        }
      }
    }
    if && |resp| == count && rest == EncodeAll(resp)
       && forall i :: 0 <= i < |resp| ==> |resp[i].data| <= MAX_DATA {
      if count > 0 {
        EntriesAcceptOne(resp, rest);
        EntriesAcceptExactly(count - 1, EncodeAll(resp[1..]), resp[1..]);
        assert resp == [resp[0]] + resp[1..];
      }
    }
  }

  lemma EntriesAcceptOne(resp: seq<Command>, rest: seq<Byte>)
    requires resp != [] && rest == EncodeAll(resp) && |resp[0].data| <= MAX_DATA
    ensures |rest| >= ADDR_HEADER_LEN + CRC_LEN && |rest| >= EntryLen(rest)
    ensures DecodeCommand(rest[..EntryLen(rest)]) == Ok(resp[0])
    ensures rest[EntryLen(rest)..] == EncodeAll(resp[1..])
  {
    hide DecodeCommand;
    hide EncodeCommand;
    hide Len16;
    var e := EncodeCommand(resp[0]);
    EncodingLayout(resp[0]);
    assert EntryLen(e) == |e|;
    assert rest == e + EncodeAll(resp[1..]);
    assert rest[1..3] == e[1..3];
    assert rest[..EntryLen(rest)] == e;
    DecodeAcceptsExactlyEncodings(e, resp[0]);
  }

  /** An aggregated response survives the wire exactly when its entry count
      fits the count octet and every entry fits its own length field. */
  lemma AggregatedRoundTrip(resp: seq<Command>)
    ensures var b := EncodeAggregated(resp);
            DecodeEntries(b[0], b[1..]) == Ok(resp) <==>
            |resp| <= 255 && forall i :: 0 <= i < |resp| ==> |resp[i].data| <= MAX_DATA
  {
    hide EncodeAll;
    hide DecodeEntries;
    var b := EncodeAggregated(resp);
    assert b[1..] == EncodeAll(resp);
    EntriesAcceptExactly(b[0], b[1..], resp);
  }
}
