/** 32-bit words as numbers, with their bits as pins. */
module Words {
  import opened Bytes

  function Pow2(n: nat): nat {
    if n == 0 then 1 else 2 * Pow2(n - 1)
  }

  /** Bit `k` of a number. */
  predicate Pin(v: nat, k: nat)
    decreases k
  {
    if k == 0 then v % 2 == 1 else Pin(v / 2, k - 1)
  }

  /** The low `n` bits of two numbers, combined bit by bit. */
  function Combine(op: (bool, bool) -> bool, a: nat, b: nat, n: nat): (r: nat)
    ensures r < Pow2(n)
  {
    if n == 0 then 0
    else (if op(a % 2 == 1, b % 2 == 1) then 1 else 0) + 2 * Combine(op, a / 2, b / 2, n - 1)
  }

  lemma {:induction false} ZeroHasNoPins(k: nat)
    ensures !Pin(0, k)
  {
    if k > 0 {
      ZeroHasNoPins(k - 1);
    }
  }

  lemma {:induction false} CombinePins(op: (bool, bool) -> bool, a: nat, b: nat, n: nat, k: nat)
    ensures Pin(Combine(op, a, b, n), k) <==> k < n && op(Pin(a, k), Pin(b, k))
    decreases n
  {
    if n == 0 {
      ZeroHasNoPins(k);
    } else if k > 0 {
      CombinePins(op, a / 2, b / 2, n - 1, k - 1);
      assert Combine(op, a, b, n) / 2 == Combine(op, a / 2, b / 2, n - 1);
    }
  }

  /** A number is its bits. */
  lemma {:induction false} SameBits(a: nat, b: nat, n: nat)
    requires a < Pow2(n) && b < Pow2(n) && forall k :: 0 <= k < n ==> Pin(a, k) == Pin(b, k)
    ensures a == b
  {
    if n > 0 {
      forall k | 0 <= k < n - 1 ensures Pin(a / 2, k) == Pin(b / 2, k) {
        assert Pin(a, k + 1) == Pin(b, k + 1);
      }
      SameBits(a / 2, b / 2, n - 1);
      assert Pin(a, 0) == Pin(b, 0);
    }
  }

  lemma WordRange()
    ensures Pow2(32) == 0x1_0000_0000
  {
    assert Pow2(8) == 256;
    assert Pow2(16) == 0x1_0000;
    assert Pow2(24) == 0x100_0000;
  }

  function And(a: Word32, b: Word32): Word32 {
    WordRange();
    Combine((x, y) => x && y, a, b, 32)
  }

  function Or(a: Word32, b: Word32): Word32 {
    WordRange();
    Combine((x, y) => x || y, a, b, 32)
  }

  function Xor(a: Word32, b: Word32): Word32 {
    WordRange();
    Combine((x, y) => x != y, a, b, 32)
  }

  /** `a` without the bits of `b`. */
  function Except(a: Word32, b: Word32): Word32 {
    WordRange();
    Combine((x, y) => x && !y, a, b, 32)
  }

  lemma PinsOf(a: Word32, b: Word32, k: nat)
    requires k < 32
    ensures Pin(And(a, b), k) <==> Pin(a, k) && Pin(b, k)
    ensures Pin(Or(a, b), k) <==> Pin(a, k) || Pin(b, k)
    ensures Pin(Xor(a, b), k) <==> Pin(a, k) != Pin(b, k)
    ensures Pin(Except(a, b), k) <==> Pin(a, k) && !Pin(b, k)
  {
    hide Pin;
    hide Combine;
    CombinePins((x, y) => x && y, a, b, 32, k);
    CombinePins((x, y) => x || y, a, b, 32, k);
    CombinePins((x, y) => x != y, a, b, 32, k);
    CombinePins((x, y) => x && !y, a, b, 32, k);
  }

  lemma SamePins(a: Word32, b: Word32)
    requires forall k :: 0 <= k < 32 ==> Pin(a, k) == Pin(b, k)
    ensures a == b
  {
    hide Pin;
    hide Pow2;
    WordRange();
    SameBits(a, b, 32);
  }

  /** The low `n` bits, all of them from 32 on. */
  function LowBits(n: nat): Word32 {
    LowBitsFit(n);
    Pow2(if n >= 32 then 32 else n) - 1
  }

  lemma {:induction false} Pow2Grows(m: nat, n: nat)
    requires m <= n
    ensures 1 <= Pow2(m) <= Pow2(n)
    decreases n
  {
    if m < n {
      Pow2Grows(m, n - 1);
    } else if n > 0 {
      Pow2Grows(m - 1, n - 1);
    }
  }

  lemma LowBitsFit(n: nat)
    ensures 1 <= Pow2(if n >= 32 then 32 else n) <= 0x1_0000_0000
  {
    hide Pow2;
    WordRange();
    Pow2Grows(if n >= 32 then 32 else n, 32);
  }

  lemma {:induction false} OnesPins(n: nat, k: nat)
    ensures Pow2(n) >= 1 && (Pin(Pow2(n) - 1, k) <==> k < n)
    decreases n
  {
    if n == 0 {
      ZeroHasNoPins(k);
    } else {
      OnesPins(n - 1, if k == 0 then 0 else k - 1);
      assert (Pow2(n) - 1) / 2 == Pow2(n - 1) - 1;
    }
  }

  lemma LowBitsPins(n: nat, k: nat)
    requires k < 32
    ensures Pin(LowBits(n), k) <==> k < n
  {
    hide Pin;
    hide Pow2;
    OnesPins(if n >= 32 then 32 else n, k);
  }

  /** A small number has no high bits. */
  lemma {:induction false} SmallHasLowPins(v: nat, n: nat, k: nat)
    requires v < Pow2(n) && Pin(v, k)
    ensures k < n
    decreases n
  {
    if n == 0 {
      ZeroHasNoPins(k);
    } else if k > 0 {
      SmallHasLowPins(v / 2, n - 1, k - 1);
    }
  }

  lemma HasPinIsNotZero(v: nat, k: nat)
    requires Pin(v, k)
    ensures v != 0
  {
    if v == 0 {
      ZeroHasNoPins(k);
    }
  }

  /** Every bit of `a` is one of `b`. */
  predicate Inside(a: Word32, b: Word32) {
    forall k :: 0 <= k < 32 && Pin(a, k) ==> Pin(b, k)
  }

  lemma NothingLeft(a: Word32, b: Word32)
    ensures Except(a, b) == 0 <==> Inside(a, b)
  {
    hide Except;
    hide Pin;
    if Inside(a, b) {
      forall k | 0 <= k < 32 ensures Pin(Except(a, b), k) == Pin(0, k) {
        PinsOf(a, b, k);
        ZeroHasNoPins(k);
      }
      SamePins(Except(a, b), 0);
    } else {
      var k :| 0 <= k < 32 && Pin(a, k) && !Pin(b, k);
      PinsOf(a, b, k);
      HasPinIsNotZero(Except(a, b), k);
    }
  }
}
