/** Bitwise `|` on non-negative integers, the operation the codec uses to pack blocks. */
module Bits {

  /** 2^k. Proof helper: its contract only keeps divisions by it well defined. */
  function Pow2(k: nat): (r: nat)
    ensures r >= 1
  {
    if k == 0 then 1 else 2 * Pow2(k - 1)
  }

  /** `a | b`, defined bit by bit from the least significant end. */
  function BitOr(a: nat, b: nat): (r: nat)
    ensures a <= r && b <= r
    ensures r <= a + b
    decreases a + b
  {
    if a == 0 then b
    else if b == 0 then a
    else 2 * BitOr(a / 2, b / 2) + (if a % 2 == 1 || b % 2 == 1 then 1 else 0)
  }

  /** Bit k of x. */
  function Bit(x: nat, k: nat): nat {
    (x / Pow2(k)) % 2
  }

  /** `BitOr` is the bitwise or: bit k of `a | b` is set exactly when bit k of `a` or of `b` is. */
  lemma {:induction false} BitOrBits(a: nat, b: nat, k: nat)
    ensures Bit(BitOr(a, b), k) == 1 <==> Bit(a, k) == 1 || Bit(b, k) == 1
    decreases k
  {
    if a != 0 && b != 0 && k > 0 {
      var r := BitOr(a, b);
      assert r / 2 == BitOr(a / 2, b / 2);
      ShiftByHalves(r, k);
      ShiftByHalves(a, k);
      ShiftByHalves(b, k);
      BitOrBits(a / 2, b / 2, k - 1);
    }
  }

  /** Shifting right by k bits is shifting right by one bit and then by k - 1. */
  lemma ShiftByHalves(x: nat, k: nat)
    requires k > 0
    ensures x / Pow2(k) == (x / 2) / Pow2(k - 1)
  {
    var p := Pow2(k - 1);
    var q, s := (x / 2) / p, (x / 2) % p;
    assert x == 2 * p * q + (2 * s + x % 2);
    DivUnique(x, 2 * p, q, 2 * s + x % 2);
  }

  /** The quotient is determined by any decomposition with a remainder in range. */
  lemma DivUnique(x: nat, d: nat, q: nat, s: nat)
    requires d > 0 && s < d && x == d * q + s
    ensures x / d == q
  {
    var k := x / d - q;
    assert d * k == s - x % d;
  }

  /** The powers of two the codec's shifts use. */
  lemma Pow2Values()
    ensures Pow2(6) == 0x40 && Pow2(8) == 0x100 && Pow2(12) == 0x1000
    ensures Pow2(16) == 0x1_0000 && Pow2(18) == 0x4_0000 && Pow2(24) == 0x100_0000
  {
    assert Pow2(6) == 0x40;
    assert Pow2(12) == 0x1000;
    assert Pow2(16) == 0x1_0000;
    assert Pow2(18) == 0x4_0000;
    assert Pow2(22) == 0x40_0000;
  }

  /** When `a` has no bits below bit k and `b` no bits from bit k up, `a | b` is `a + b`. */
  lemma {:induction false} BitOrDisjoint(q: nat, b: nat, k: nat)
    requires b < Pow2(k)
    ensures BitOr(q * Pow2(k), b) == q * Pow2(k) + b
  {
    if k > 0 && q != 0 && b != 0 {
      var p := Pow2(k - 1);
      var a := q * Pow2(k);
      assert a == 2 * (q * p);
      BitOrDisjoint(q, b / 2, k - 1);
      assert BitOr(a, b) == 2 * BitOr(q * p, b / 2) + b % 2;
    }
  }

  /** `BitOrDisjoint` at the bit positions the codec shifts by: `(q << k) | b` is `q * 2^k + b` for b below bit k. */
  lemma BitOrAt(q: nat, b: nat, k: nat)
    requires k in {6, 8, 12, 16, 18, 24}
    requires b < (match k case 6 => 0x40 case 8 => 0x100 case 12 => 0x1000 case 16 => 0x1_0000 case 18 => 0x4_0000 case _ => 0x100_0000)
    ensures k == 6 ==> BitOr(q * 0x40, b) == q * 0x40 + b
    ensures k == 8 ==> BitOr(q * 0x100, b) == q * 0x100 + b
    ensures k == 12 ==> BitOr(q * 0x1000, b) == q * 0x1000 + b
    ensures k == 16 ==> BitOr(q * 0x1_0000, b) == q * 0x1_0000 + b
    ensures k == 18 ==> BitOr(q * 0x4_0000, b) == q * 0x4_0000 + b
    ensures k == 24 ==> BitOr(q * 0x100_0000, b) == q * 0x100_0000 + b
  {
    Pow2Values();
    BitOrDisjoint(q, b, k);
  }

  /** Doubling both operands commutes with `|`. */
  lemma BitOrDouble(x: nat, y: nat)
    ensures BitOr(2 * x, 2 * y) == 2 * BitOr(x, y)
  {
    if x != 0 && y != 0 {
      assert (2 * x) / 2 == x && (2 * y) / 2 == y;
      assert (2 * x) % 2 == 0 && (2 * y) % 2 == 0;
    }
  }

  /** `x << k`, as repeated doubling. */
  function Shl(x: nat, k: nat): (r: nat)
    ensures r == x * Pow2(k)
  {
    if k == 0 then x
    else
      var p := Pow2(k - 1);
      assert x * (2 * p) == 2 * (x * p);
      2 * Shl(x, k - 1)
  }

  /** Shifting both operands left by k bits commutes with `|`. */
  lemma {:induction false} BitOrShift(x: nat, y: nat, k: nat)
    ensures BitOr(Shl(x, k), Shl(y, k)) == Shl(BitOr(x, y), k)
  {
    if k > 0 {
      BitOrShift(x, y, k - 1);
      BitOrDouble(Shl(x, k - 1), Shl(y, k - 1));
    }
  }

  /** `x | 1` sets the lowest bit: it adds one exactly when `x` is even. */
  lemma BitOrOne(x: nat)
    ensures BitOr(x, 1) == (if x % 2 == 0 then x + 1 else x)
  {
  }
}
