/** The ISELED checksum as polynomial division over GF(2). A polynomial is its
    coefficients, highest first. */
module IseledPolynomial {
  import opened Bytes
  import opened Iseled

  type Poly = seq<bool>

  function Nil(n: nat): (p: Poly)
    ensures |p| == n && forall i :: 0 <= i < n ==> !p[i]
  {
    seq(n, _ => false)
  }

  /** Sum of two polynomials of one length. */
  function Add(a: Poly, b: Poly): (c: Poly)
    requires |a| == |b|
    ensures |c| == |a| && forall i :: 0 <= i < |a| ==> c[i] == (a[i] != b[i])
  {
    seq(|a|, i requires 0 <= i < |a| => a[i] != b[i])
  }

  /** x^8 + x^4 + x^3 + x^2 + 1. */
  const GENERATOR: Poly := [true, false, false, false, true, true, true, false, true]

  /** `q` times the generator. */
  function Times(q: Poly): (p: Poly)
    ensures |p| == |q| + 8
  {
    if q == [] then Nil(8)
    else Add((if q[0] then GENERATOR else Nil(9)) + Nil(|q| - 1), [false] + Times(q[1..]))
  }

  /** The coefficient of x^k in an octet. */
  predicate On(r: bv8, k: nat) {
    match k
    case 0 => r & 0x01 != 0
    case 1 => r & 0x02 != 0
    case 2 => r & 0x04 != 0
    case 3 => r & 0x08 != 0
    case 4 => r & 0x10 != 0
    case 5 => r & 0x20 != 0
    case 6 => r & 0x40 != 0
    case 7 => r & 0x80 != 0
    case _ => false
  }

  /** The eight coefficients of an octet. */
  function Coefficients(r: bv8): (p: Poly)
    ensures |p| == 8 && forall i :: 0 <= i < 8 ==> p[i] == On(r, 7 - i)
  {
    seq(8, i requires 0 <= i < 8 => On(r, 7 - i))
  }

  function MessagePoly(data: seq<Byte>): (p: Poly)
    ensures |p| == 8 * |data|
  {
    if data == [] then [] else Coefficients(Bits(data[0])) + MessagePoly(data[1..])
  }

  /** The register ahead of the message: both shifted up by the degree of the
      generator and added. */
  function Dividend(r: bv8, data: seq<Byte>): (p: Poly)
    ensures |p| == 8 * |data| + 8
  {
    Add(Coefficients(r) + Nil(8 * |data|), MessagePoly(data) + Nil(8))
  }

  // ------------------------------------------------------------- one bit

  lemma Shifted(r: bv8)
    requires r & 0x80 == 0
    ensures var s := r << 1;
            && (s & 0x80 != 0 <==> r & 0x40 != 0) && (s & 0x40 != 0 <==> r & 0x20 != 0)
            && (s & 0x20 != 0 <==> r & 0x10 != 0) && (s & 0x10 != 0 <==> r & 0x08 != 0)
            && (s & 0x08 != 0 <==> r & 0x04 != 0) && (s & 0x04 != 0 <==> r & 0x02 != 0)
            && (s & 0x02 != 0 <==> r & 0x01 != 0) && s & 0x01 == 0
  {
  }

  lemma Reduced(r: bv8)
    ensures var s := (r << 1) ^ 0x1D;
            && (s & 0x80 != 0 <==> r & 0x40 != 0) && (s & 0x40 != 0 <==> r & 0x20 != 0)
            && (s & 0x20 != 0 <==> r & 0x10 != 0) && (s & 0x10 != 0 <==> r & 0x08 == 0)
            && (s & 0x08 != 0 <==> r & 0x04 == 0) && (s & 0x04 != 0 <==> r & 0x02 == 0)
            && (s & 0x02 != 0 <==> r & 0x01 != 0) && s & 0x01 != 0
  {
  }

  /** What one shift does to each bit: up by one, and where the top bit falls out
      the lower bits of the generator are added. */
  lemma ShiftedBits(r: bv8)
    ensures var s, top := ShiftBit(r), On(r, 7);
            && On(s, 7) == On(r, 6) && On(s, 6) == On(r, 5) && On(s, 5) == On(r, 4)
            && On(s, 4) == (On(r, 3) != top) && On(s, 3) == (On(r, 2) != top)
            && On(s, 2) == (On(r, 1) != top) && On(s, 1) == On(r, 0) && On(s, 0) == top
  {
    if r & 0x80 != 0 {
      Reduced(r);
    } else {
      Shifted(r);
    }
  }

  lemma BitStep(r: bv8)
    ensures Coefficients(r) + [false] ==
            Add(if On(r, 7) then GENERATOR else Nil(9), [false] + Coefficients(ShiftBit(r)))
  {
    ShiftedBits(r);
    hide On;
    hide ShiftBit;
    hide Coefficients;
    Align(Coefficients(r), Coefficients(ShiftBit(r)));
  }

  lemma Align(a: Poly, b: Poly)
    requires |a| == 8 && |b| == 8 && b[0] == a[1] && b[1] == a[2] && b[2] == a[3]
    requires b[3] == (a[4] != a[0]) && b[4] == (a[5] != a[0]) && b[5] == (a[6] != a[0]) && b[6] == a[7] && b[7] == a[0]
    ensures a + [false] == Add(if a[0] then GENERATOR else Nil(9), [false] + b)
  {
    var g := if a[0] then GENERATOR else Nil(9);
    assert forall i :: 0 <= i < 9 ==> (a + [false])[i] == (g[i] != ([false] + b)[i]);
  }

  // ------------------------------------------------------------ eight bits

  /** The quotient bits a run of shifts produces. */
  function ShiftQuotient(r: bv8, n: nat): (q: Poly)
    ensures |q| == n
    decreases n
  {
    if n == 0 then [] else [On(r, 7)] + ShiftQuotient(ShiftBit(r), n - 1)
  }

  lemma {:induction false} ShiftsDivide(r: bv8, n: nat)
    ensures Coefficients(r) + Nil(n) == Add(Times(ShiftQuotient(r, n)), Nil(n) + Coefficients(ShiftBits(r, n)))
    decreases n
  {
    hide Coefficients;
    hide ShiftBit;
    hide On;
    var c := Coefficients(r);
    if n == 0 {
      assert c + [] == c;
      assert Nil(0) + c == c;
    } else {
      var s, q := ShiftBit(r), ShiftQuotient(ShiftBit(r), n - 1);
      BitStep(r);
      ShiftsDivide(s, n - 1);
      var g := if On(r, 7) then GENERATOR else Nil(9);
      var t := Coefficients(ShiftBits(r, n));
      assert ShiftQuotient(r, n)[1..] == q;
      assert Times(ShiftQuotient(r, n)) == Add(g + Nil(n - 1), [false] + Times(q));
      DivideOn(c, g, Coefficients(s), Times(q), t, n);
    }
  }

  /** Carrying a division on: pointwise bookkeeping. */
  lemma DivideOn(c: Poly, g: Poly, s: Poly, tq: Poly, t: Poly, n: nat)
    requires n > 0 && |c| == 8 && |g| == 9 && |s| == 8 && |tq| == n + 7 && |t| == 8
    requires c + [false] == Add(g, [false] + s)
    requires s + Nil(n - 1) == Add(tq, Nil(n - 1) + t)
    ensures c + Nil(n) == Add(Add(g + Nil(n - 1), [false] + tq), Nil(n) + t)
  {
    var left, right := c + Nil(n), Add(Add(g + Nil(n - 1), [false] + tq), Nil(n) + t);
    forall i | 0 <= i < n + 8 ensures left[i] == right[i] {
      assert left[i] == if i < 9 then (c + [false])[i] else false;
      if i > 0 {
        assert (s + Nil(n - 1))[i - 1] == (tq[i - 1] != (Nil(n - 1) + t)[i - 1]);
        assert (Nil(n) + t)[i] == (Nil(n - 1) + t)[i - 1];
      }
    }
  }

  // --------------------------------------------------------- the whole message

  lemma {:induction false} TimesAppend(a: Poly, b: Poly)
    ensures Times(a + b) == Add(Times(a) + Nil(|b|), Nil(|a|) + Times(b))
  {
    hide Times;
    if a == [] {
      assert a + b == b;
      NoFactor();
      NothingAdded(Times(b), |b|);
    } else {
      TimesAppend(a[1..], b);
      assert (a + b)[1..] == a[1..] + b;
      TimesFront(a);
      TimesFront(a + b);
      TimesOn(if a[0] then GENERATOR else Nil(9), Times(a[1..]), Times(b), |a|, |b|);
    }
  }

  lemma NoFactor()
    ensures Times([]) == Nil(8)
  {
  }

  lemma TimesFront(q: Poly)
    requires q != []
    ensures Times(q) == Add((if q[0] then GENERATOR else Nil(9)) + Nil(|q| - 1), [false] + Times(q[1..]))
  {
  }

  lemma NothingAdded(t: Poly, n: nat)
    requires |t| == n + 8
    ensures t == Add(Nil(8) + Nil(n), Nil(0) + t)
  {
    assert Nil(0) + t == t;
  }

  lemma TimesOn(g: Poly, ta: Poly, tb: Poly, n: nat, k: nat)
    requires n > 0 && |g| == 9 && |ta| == n + 7 && |tb| == k + 8
    ensures Add(g + Nil(n + k - 1), [false] + Add(ta + Nil(k), Nil(n - 1) + tb)) ==
            Add(Add(g + Nil(n - 1), [false] + ta) + Nil(k), Nil(n) + tb)
  {
    var left := Add(g + Nil(n + k - 1), [false] + Add(ta + Nil(k), Nil(n - 1) + tb));
    var right := Add(Add(g + Nil(n - 1), [false] + ta) + Nil(k), Nil(n) + tb);
    forall i | 0 <= i < n + k + 8 ensures left[i] == right[i] {
      if i > 0 {
        assert (Nil(n) + tb)[i] == (Nil(n - 1) + tb)[i - 1];
        assert (ta + Nil(k))[i - 1] == if i < n + 8 then ([false] + ta)[i] else false;
      }
    }
  }

  function Quotient(r: bv8, data: seq<Byte>): (q: Poly)
    ensures |q| == 8 * |data|
    decreases data
  {
    if data == [] then []
    else
      var r1 := Xor(r, Bits(data[0]));
      ShiftQuotient(r1, 8) + Quotient(ShiftBits(r1, 8), data[1..])
  }

  lemma XorAdds(a: bv8, b: bv8)
    ensures Coefficients(Xor(a, b)) == Add(Coefficients(a), Coefficients(b))
  {
    hide On;
    hide Xor;
    hide Coefficients;
    XorBits(a, b);
  }

  lemma XorBits(a: bv8, b: bv8)
    ensures forall k :: 0 <= k < 8 ==> On(Xor(a, b), k) == (On(a, k) != On(b, k))
  {
    hide On;
    hide Xor;
    forall k | 0 <= k < 8 ensures On(Xor(a, b), k) == (On(a, k) != On(b, k)) {
      XorBit(a, b, k);
    }
  }

  lemma XorBit(a: bv8, b: bv8, k: nat)
    requires k < 8
    ensures On(Xor(a, b), k) == (On(a, k) != On(b, k))
  {
    hide On;
    hide Xor;
    if k == 0 {
      XorBit0(a, b);
    } else if k == 1 {
      XorBit1(a, b);
    } else if k == 2 {
      XorBit2(a, b);
    } else if k == 3 {
      XorBit3(a, b);
    } else if k == 4 {
      XorBit4(a, b);
    } else if k == 5 {
      XorBit5(a, b);
    } else if k == 6 {
      XorBit6(a, b);
    } else {
      XorBit7(a, b);
    }
  }

  lemma XorBit0(a: bv8, b: bv8)
    ensures On(Xor(a, b), 0) == (On(a, 0) != On(b, 0))
  {
  }

  lemma XorBit1(a: bv8, b: bv8)
    ensures On(Xor(a, b), 1) == (On(a, 1) != On(b, 1))
  {
  }

  lemma XorBit2(a: bv8, b: bv8)
    ensures On(Xor(a, b), 2) == (On(a, 2) != On(b, 2))
  {
  }

  lemma XorBit3(a: bv8, b: bv8)
    ensures On(Xor(a, b), 3) == (On(a, 3) != On(b, 3))
  {
  }

  lemma XorBit4(a: bv8, b: bv8)
    ensures On(Xor(a, b), 4) == (On(a, 4) != On(b, 4))
  {
  }

  lemma XorBit5(a: bv8, b: bv8)
    ensures On(Xor(a, b), 5) == (On(a, 5) != On(b, 5))
  {
  }

  lemma XorBit6(a: bv8, b: bv8)
    ensures On(Xor(a, b), 6) == (On(a, 6) != On(b, 6))
  {
  }

  lemma XorBit7(a: bv8, b: bv8)
    ensures On(Xor(a, b), 7) == (On(a, 7) != On(b, 7))
  {
  }

  /** The register is the remainder: register and message together are a multiple
      of the generator plus the register that absorbing the message leaves. */
  lemma {:induction false} AbsorbDivides(r: bv8, data: seq<Byte>)
    ensures Dividend(r, data) == Add(Times(Quotient(r, data)), Nil(8 * |data|) + Coefficients(Absorb(r, data)))
    decreases data
  {
    hide Coefficients;
    hide Xor;
    hide Bits;
    hide Times;
    hide ShiftBits;
    hide ShiftQuotient;
    if data == [] {
      NoFactor();
      var c := Coefficients(r);
      assert forall i :: 0 <= i < 8 ==> Dividend(r, data)[i] == c[i];
      assert Nil(0) + c == c;
    } else {
      var m, rest := Bits(data[0]), data[1..];
      var r1 := Xor(r, m);
      var r8, n := ShiftBits(r1, 8), 8 * |rest|;
      var q, q' := ShiftQuotient(r1, 8), Quotient(r8, rest);
      XorAdds(r, m);
      ShiftsDivide(r1, 8);
      AbsorbDivides(r8, rest);
      TimesAppend(q, q');
      assert MessagePoly(data) == Coefficients(m) + MessagePoly(rest);
      assert Quotient(r, data) == q + q' && Absorb(r, data) == Absorb(r8, rest);
      hide MessagePoly;
      hide Quotient;
      hide Absorb;
      OctetOn(Coefficients(r), Coefficients(m), Coefficients(r1), Coefficients(r8), Times(q), Times(q'),
              MessagePoly(rest), Coefficients(Absorb(r8, rest)), n);
    }
  }

  lemma OctetOn(r: Poly, m: Poly, r1: Poly, r8: Poly, tq: Poly, tq': Poly, rest: Poly, t: Poly, n: nat)
    requires |r| == |m| == |r1| == |r8| == |t| == 8 && |tq| == 16 && |tq'| == n + 8 && |rest| == n
    requires r1 == Add(r, m) && r1 + Nil(8) == Add(tq, Nil(8) + r8)
    requires Add(r8 + Nil(n), rest + Nil(8)) == Add(tq', Nil(n) + t)
    ensures Add(r + Nil(n + 8), (m + rest) + Nil(8)) == Add(Add(tq + Nil(n), Nil(8) + tq'), Nil(n + 8) + t)
  {
    var left := Add(r + Nil(n + 8), (m + rest) + Nil(8));
    var right := Add(Add(tq + Nil(n), Nil(8) + tq'), Nil(n + 8) + t);
    forall i | 0 <= i < n + 16 ensures left[i] == right[i] {
      assert i < 16 ==> (r1 + Nil(8))[i] == (tq[i] != (Nil(8) + r8)[i]);
      if i >= 8 {
        assert (r8 + Nil(n))[i - 8] != (rest + Nil(8))[i - 8] <==> tq'[i - 8] != (Nil(n) + t)[i - 8];
        assert ((m + rest) + Nil(8))[i] == (rest + Nil(8))[i - 8];
        assert (Nil(n + 8) + t)[i] == (Nil(n) + t)[i - 8];
      }
    }
  }

  /** The checksum, its final complement undone, is the remainder of the message
      behind eight ones, shifted up by eight, on division by
      x^8 + x^4 + x^3 + x^2 + 1. */
  lemma CrcIsRemainder(data: seq<Byte>)
    ensures exists q: Poly :: |q| == 8 * |data| &&
              Dividend(0xFF, data) == Add(Times(q), Nil(8 * |data|) + Coefficients(Bits(Crc(data)) ^ 0xFF))
  {
    AbsorbDivides(0xFF, data);
    hide Absorb;
    ComplementUndone(Absorb(0xFF, data));
    BitsOfByte(CrcBits(data));
    assert |Quotient(0xFF, data)| == 8 * |data|;
  }

  lemma ComplementUndone(r: bv8)
    ensures Xor(r, 0xFF) ^ 0xFF == r
  {
  }
}
