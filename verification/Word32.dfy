/**
 Words of 32 bits, as numbers. The bitwise operations are given bit by bit, and what they do to the
 numbers is proved: the complement, the shift and the rotation, and how `and` and `xor` share out a sum.
 */
module Word32 {

  type uint32 = x: int | 0 <= x < 0x1_0000_0000

  function Pow2(k: nat): (p: nat)
    ensures p > 0
  {
    if k == 0 then 1 else 2 * Pow2(k - 1)
  }

  /** Bit i of a number, counting from the lowest. */
  predicate Bit(x: nat, i: nat) { if i == 0 then x % 2 == 1 else Bit(x / 2, i - 1) }

  type Bits = nat -> bool

  function BitsOf(x: nat): Bits { (i: nat) => Bit(x, i) }

  function Above(f: Bits): Bits { (i: nat) => f(i + 1) }

  /** The number with the given k lowest bits and no others. */
  function FromBits(f: Bits, k: nat): (x: nat)
    ensures x < Pow2(k)
    decreases k
  {
    if k == 0 then 0 else (if f(0) then 1 else 0) + 2 * FromBits(Above(f), k - 1)
  }

  lemma {:induction false} BitsAreGiven(f: Bits, k: nat, i: nat)
    ensures Bit(FromBits(f, k), i) <==> i < k && f(i)
    decreases k
  {
    if k == 0 {
      NoBits(i);
    } else if i > 0 {
      BitsAreGiven(Above(f), k - 1, i - 1);
    }
  }

  lemma {:induction false} NoBits(i: nat)
    ensures !Bit(0, i)
  {
    if i > 0 { NoBits(i - 1); }
  }

  lemma {:induction false} SameBits(f: Bits, g: Bits, k: nat)
    requires forall i: nat | i < k :: f(i) == g(i)
    ensures FromBits(f, k) == FromBits(g, k)
    decreases k
  {
    if k > 0 { SameBits(Above(f), Above(g), k - 1); }
  }

  /** A number below 2^k is made of its k lowest bits. */
  lemma {:induction false} OwnBits(x: nat, k: nat)
    requires x < Pow2(k)
    ensures FromBits(BitsOf(x), k) == x
    decreases k
  {
    if k > 0 {
      OwnBits(x / 2, k - 1);
      SameBits(Above(BitsOf(x)), BitsOf(x / 2), k - 1);
    }
  }

  lemma {:induction false} TopBit(f: Bits, k: nat)
    ensures FromBits(f, k + 1) == FromBits(f, k) + (if f(k) then Pow2(k) else 0)
    decreases k
  {
    if k > 0 { TopBit(Above(f), k - 1); }
  }

  lemma TwoTo32()
    ensures Pow2(31) == 0x8000_0000 && Pow2(32) == 0x1_0000_0000
  {
    assert Pow2(4) == 16 && Pow2(8) == 0x100 && Pow2(12) == 0x1000 && Pow2(16) == 0x1_0000;
    assert Pow2(20) == 0x10_0000 && Pow2(24) == 0x100_0000 && Pow2(28) == 0x1000_0000;
  }

  // ---------------------------------------------------------------- the operations

  function Word(f: Bits): uint32 {
    TwoTo32();
    FromBits(f, 32)
  }

  function AndBits(x: nat, y: nat): Bits { (i: nat) => Bit(x, i) && Bit(y, i) }

  function XorBits(x: nat, y: nat): Bits { (i: nat) => Bit(x, i) != Bit(y, i) }

  function NotBits(x: nat): Bits { (i: nat) => !Bit(x, i) }

  function RotatedBits(x: nat, n: nat, k: nat): Bits
    requires n <= k
  {
    (i: nat) => Bit(x, if i + n < k then i + n else i + n - k)
  }

  function ShiftedBits(x: nat, n: nat, k: nat): Bits { (i: nat) => i + n < k && Bit(x, i + n) }

  function And32(x: uint32, y: uint32): uint32 { Word(AndBits(x, y)) }

  function Xor32(x: uint32, y: uint32): uint32 { Word(XorBits(x, y)) }

  function Not32(x: uint32): uint32 { Word(NotBits(x)) }

  function RotateRight32(x: uint32, n: nat): uint32 { Word(RotatedBits(x, n % 32, 32)) }

  function ShiftRight32(x: uint32, n: nat): uint32 { Word(ShiftedBits(x, n, 32)) }

  function Add32(x: uint32, y: uint32): uint32 { (x + y) % 0x1_0000_0000 }

  // ---------------------------------------------------------------- what they do, at any width

  lemma {:induction false} SumOfBits(x: nat, y: nat, k: nat)
    requires x < Pow2(k) && y < Pow2(k)
    ensures x + y == FromBits(XorBits(x, y), k) + 2 * FromBits(AndBits(x, y), k)
    decreases k
  {
    if k > 0 {
      SumOfBits(x / 2, y / 2, k - 1);
      SameBits(Above(AndBits(x, y)), AndBits(x / 2, y / 2), k - 1);
      SameBits(Above(XorBits(x, y)), XorBits(x / 2, y / 2), k - 1);
    }
  }

  lemma {:induction false} ComplementOfBits(x: nat, k: nat)
    requires x < Pow2(k)
    ensures x + FromBits(NotBits(x), k) == Pow2(k) - 1
    decreases k
  {
    if k > 0 {
      ComplementOfBits(x / 2, k - 1);
      SameBits(Above(NotBits(x)), NotBits(x / 2), k - 1);
    }
  }

  lemma ShiftStep(x: nat, n: nat, k: nat)
    ensures FromBits(ShiftedBits(x, n + 1, k), k) == FromBits(ShiftedBits(x, n, k), k) / 2
  {
    var y := FromBits(ShiftedBits(x, n, k), k);
    OwnBits(y / 2, k);
    forall i: nat | i < k ensures ShiftedBits(x, n + 1, k)(i) == BitsOf(y / 2)(i) {
      BitsAreGiven(ShiftedBits(x, n, k), k, i + 1);
    }
    SameBits(ShiftedBits(x, n + 1, k), BitsOf(y / 2), k);
  }

  /** Turning by one place more: everything moves down, the lowest bit comes in at the top. */
  lemma RotationStep(x: nat, n: nat, k: nat)
    requires n < k
    ensures var y := FromBits(RotatedBits(x, n, k), k);
      FromBits(RotatedBits(x, n + 1, k), k) == y / 2 + (if y % 2 == 1 then Pow2(k - 1) else 0)
  {
    var here, next := RotatedBits(x, n, k), RotatedBits(x, n + 1, k);
    var y := FromBits(here, k);
    forall i: nat | i < k - 1 ensures next(i) == BitsOf(y / 2)(i) {
      BitsAreGiven(here, k, i + 1);
    }
    assert next(k - 1) == here(0);
    BitsAreGiven(here, k, 0);
    TopBit(next, k - 1);
    SameBits(next, BitsOf(y / 2), k - 1);
    OwnBits(y / 2, k - 1);
  }

  // ---------------------------------------------------------------- and on words

  /** A sum is the bits that differ, and twice the bits in common: the carries. */
  lemma AndXorShareASum(x: uint32, y: uint32)
    ensures x + y == Xor32(x, y) + 2 * And32(x, y)
  {
    TwoTo32();
    SumOfBits(x, y, 32);
  }

  lemma BitsOfAndXor(x: uint32, y: uint32, i: nat)
    requires i < 32
    ensures Bit(And32(x, y), i) <==> Bit(x, i) && Bit(y, i)
    ensures Bit(Xor32(x, y), i) <==> Bit(x, i) != Bit(y, i)
  {
    BitsAreGiven(AndBits(x, y), 32, i);
    BitsAreGiven(XorBits(x, y), 32, i);
  }

  lemma BitsOfNot(x: uint32, i: nat)
    requires i < 32
    ensures Bit(Not32(x), i) <==> !Bit(x, i)
  {
    BitsAreGiven(NotBits(x), 32, i);
  }

  lemma NotIsComplement(x: uint32)
    ensures Not32(x) == 0xffff_ffff - x
  {
    TwoTo32();
    ComplementOfBits(x, 32);
  }

  lemma Unmoved(x: nat, k: nat)
    requires x < Pow2(k)
    ensures FromBits(ShiftedBits(x, 0, k), k) == x && FromBits(RotatedBits(x, 0, k), k) == x
  {
    OwnBits(x, k);
    SameBits(BitsOf(x), ShiftedBits(x, 0, k), k);
    SameBits(BitsOf(x), RotatedBits(x, 0, k), k);
  }

  /** Shifting by nothing changes nothing, and each place more halves. */
  lemma ShiftHalves(x: uint32, n: nat)
    ensures ShiftRight32(x, 0) == x && ShiftRight32(x, n + 1) == ShiftRight32(x, n) / 2
  {
    TwoTo32();
    Unmoved(x, 32);
    ShiftStep(x, n, 32);
  }

  /** The number y turned right by one place, the bit that falls out coming in at the top. */
  function TurnedOnce(y: uint32): nat { y / 2 + (if y % 2 == 1 then 0x8000_0000 else 0) }

  /** Rotating by nothing changes nothing, and each place more turns once. */
  lemma RotationTurns(x: uint32, n: nat)
    requires n < 31
    ensures RotateRight32(x, 0) == x && RotateRight32(x, n + 1) == TurnedOnce(RotateRight32(x, n))
  {
    TwoTo32();
    assert RotateRight32(x, 0) == x by { Unmoved(x, 32); }
    RotatedWord(x, n, 32);
    RotatedWord(x, n + 1, 32);
    TurnedWord(x, n, 32);
  }

  lemma RotatedWord(x: uint32, n: nat, k: nat)
    requires k == 32 && n < k
    ensures RotateRight32(x, n) == FromBits(RotatedBits(x, n, k), k)
  {
    assert n % 32 == n;
  }

  lemma TurnedWord(x: uint32, n: nat, k: nat)
    requires k == 32 && n + 1 < k && FromBits(RotatedBits(x, n, k), k) < 0x1_0000_0000
    ensures FromBits(RotatedBits(x, n + 1, k), k) == TurnedOnce(FromBits(RotatedBits(x, n, k), k))
  {
    TwoTo32();
    RotationStep(x, n, k);
    assert Pow2(k - 1) == 0x8000_0000;
  }
}
