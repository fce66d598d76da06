/** Octets, machine words and their big-endian wire form. */
module Bytes {

  type Byte = b: int | 0 <= b < 0x100
  type Word16 = w: int | 0 <= w < 0x1_0000
  type Word32 = w: int | 0 <= w < 0x1_0000_0000
  type Word64 = w: int | 0 <= w < 0x1_0000_0000_0000_0000

  function Be16(w: Word16): (s: seq<Byte>)
    ensures |s| == 2 && FromBe16(s) == w
  {
    [w / 0x100, w % 0x100]
  }

  function FromBe16(s: seq<Byte>): Word16
    requires |s| == 2
  {
    (s[0] as int) * 0x100 + s[1]
  }

  function Be32(w: Word32): (s: seq<Byte>)
    ensures |s| == 4 && FromBe32(s) == w
  {
    var s := Be16(w / 0x1_0000) + Be16(w % 0x1_0000);
    assert s[..2] == Be16(w / 0x1_0000) && s[2..] == Be16(w % 0x1_0000);
    s
  }

  function FromBe32(s: seq<Byte>): Word32
    requires |s| == 4
  {
    FromBe16(s[..2]) * 0x1_0000 + FromBe16(s[2..])
  }

  function Be64(w: Word64): (s: seq<Byte>)
    ensures |s| == 8 && FromBe64(s) == w
  {
    var s := Be32(w / 0x1_0000_0000) + Be32(w % 0x1_0000_0000);
    assert s[..4] == Be32(w / 0x1_0000_0000) && s[4..] == Be32(w % 0x1_0000_0000);
    s
  }

  function FromBe64(s: seq<Byte>): Word64
    requires |s| == 8
  {
    FromBe32(s[..4]) * 0x1_0000_0000 + FromBe32(s[4..])
  }

  /** Reading and writing are inverse in the other direction too, so no two
      octet strings read as the same word. */
  lemma Be16OfFrom(s: seq<Byte>)
    requires |s| == 2
    ensures Be16(FromBe16(s)) == s
  {
  }

  lemma Be32OfFrom(s: seq<Byte>)
    requires |s| == 4
    ensures Be32(FromBe32(s)) == s
  {
    Be16OfFrom(s[..2]);
    Be16OfFrom(s[2..]);
    var w := FromBe32(s);
    assert w / 0x1_0000 == FromBe16(s[..2]) && w % 0x1_0000 == FromBe16(s[2..]);
  }

  lemma Be64OfFrom(s: seq<Byte>)
    requires |s| == 8
    ensures Be64(FromBe64(s)) == s
  {
    Be32OfFrom(s[..4]);
    Be32OfFrom(s[4..]);
    var w := FromBe64(s);
    assert w / 0x1_0000_0000 == FromBe32(s[..4]) && w % 0x1_0000_0000 == FromBe32(s[4..]);
  }

  function Min(a: int, b: int): int {
    if a <= b then a else b
  }

  function Max(a: int, b: int): int {
    if a <= b then b else a
  }

  function Zeros(n: nat): (s: seq<Byte>)
    ensures |s| == n && forall i :: 0 <= i < n ==> s[i] == 0
  {
    seq(n, _ => 0)
  }

  predicate AllZero(s: seq<Byte>) {
    forall i :: 0 <= i < |s| ==> s[i] == 0
  }

  function Concat(parts: seq<seq<Byte>>): seq<Byte> {
    if parts == [] then [] else parts[0] + Concat(parts[1..])
  }

  lemma {:induction false} ConcatAppend(a: seq<seq<Byte>>, b: seq<seq<Byte>>)
    ensures Concat(a + b) == Concat(a) + Concat(b)
  {
    if a == [] {
      assert a + b == b;
    } else {
      assert (a + b)[1..] == a[1..] + b;
      ConcatAppend(a[1..], b);
    }
  }
}

/** Octets as two nibbles, and the bits of a nibble. */
module Nibbles {
  import opened Bytes

  type Half = n: int | 0 <= n < 16

  datatype Nibble = Nibble(b3: bool, b2: bool, b1: bool, b0: bool)

  /** A bit of weight `w`. */
  function Weight(b: bool, w: nat): nat {
    if b then w else 0
  }

  function ValueOf(n: Nibble): Half {
    Weight(n.b3, 8) + Weight(n.b2, 4) + Weight(n.b1, 2) + Weight(n.b0, 1)
  }

  function NibbleOf(x: Half): (n: Nibble)
    ensures ValueOf(n) == x
  {
    var b3 := x >= 8;
    var r3 := x - Weight(b3, 8);
    var b2 := r3 >= 4;
    var r2 := r3 - Weight(b2, 4);
    Nibble(b3, b2, r2 >= 2, r2 == 1 || r2 == 3)
  }

  lemma NibbleOfValue(n: Nibble)
    ensures NibbleOf(ValueOf(n)) == n
  {
  }

  function Octet(hi: Half, lo: Half): Byte {
    hi * 16 + lo
  }

  function High(b: Byte): Half {
    b / 16
  }

  function Low(b: Byte): Half {
    b % 16
  }

  lemma HalvesOfOctet(hi: Half, lo: Half)
    ensures High(Octet(hi, lo)) == hi && Low(Octet(hi, lo)) == lo
  {
  }

  lemma OctetOfHalves(b: Byte)
    ensures Octet(High(b), Low(b)) == b
  {
  }
}

/** Results of fallible operations. */
module Outcomes {

  datatype Option<+T> = None | Some(value: T)

  datatype Result<+T, +E> = Ok(value: T) | Err(error: E)

  /** The elements decoded so far in front of what decoding the rest gives. */
  function Prepend<T, E>(done: seq<T>, r: Result<seq<T>, E>): Result<seq<T>, E> {
    if r.Ok? then Ok(done + r.value) else r
  }
}
