/**
  Shifts, masks and the bitwise or and and of C on unsigned words, as arithmetic.
*/
module Bits {
  /** `a | b` on unsigned words. */
  function BitOr(a: nat, b: nat): nat
    decreases a + b
  {
    if a + b == 0 then 0
    else 2 * BitOr(a / 2, b / 2) + (if a % 2 == 1 || b % 2 == 1 then 1 else 0)
  }

  /** The shift of `a` by `k` to the left. */
  function Shift(a: nat, k: nat): nat {
    if k == 0 then a else 2 * Shift(a, k - 1)
  }

  lemma OrDouble(a: nat, b: nat, bit: nat)
    requires bit < 2
    ensures BitOr(2 * a, 2 * b + bit) == 2 * BitOr(a, b) + bit
  {
    assert (2 * a) / 2 == a && (2 * a) % 2 == 0;
    assert (2 * b + bit) / 2 == b && (2 * b + bit) % 2 == bit;
  }

  /** Bits below `k` are kept apart from those at or above it. */
  lemma {:induction false} OrLow(a: nat, b: nat, low: nat, k: nat)
    requires low < Shift(1, k)
    ensures BitOr(Shift(a, k), Shift(b, k) + low) == Shift(BitOr(a, b), k) + low
  {
    if k > 0 {
      OrLow(a, b, low / 2, k - 1);
      OrDouble(Shift(a, k - 1), Shift(b, k - 1) + low / 2, low % 2);
      assert 2 * (Shift(b, k - 1) + low / 2) + low % 2 == Shift(b, k) + low;
    }
  }

  lemma {:induction false} OrZero(a: nat)
    ensures BitOr(a, 0) == a && BitOr(0, a) == a
  {
    if a > 0 { OrZero(a / 2); }
  }

  lemma {:induction false} OrSymmetric(a: nat, b: nat)
    ensures BitOr(a, b) == BitOr(b, a)
    decreases a + b
  {
    if a + b > 0 { OrSymmetric(a / 2, b / 2); }
  }

  lemma {:induction false} ShiftZero(k: nat)
    ensures Shift(0, k) == 0
  {
    if k > 0 { ShiftZero(k - 1); }
  }

  lemma ByteOr(lead: nat, low: nat, k: nat)
    requires low < Shift(1, k)
    ensures BitOr(Shift(lead, k), low) == Shift(lead, k) + low
  {
    OrLow(lead, 0, low, k);
    ShiftZero(k);
    OrZero(lead);
  }

  /** `a & b` on unsigned words. */
  function BitAnd(a: nat, b: nat): nat
    decreases a + b
  {
    if a == 0 || b == 0 then 0
    else 2 * BitAnd(a / 2, b / 2) + (if a % 2 == 1 && b % 2 == 1 then 1 else 0)
  }

  lemma AndBit(a: nat, m: nat, ones: bool)
    ensures BitAnd(a, 2 * m + if ones then 1 else 0) == 2 * BitAnd(a / 2, m) + if ones then a % 2 else 0
  {
    var b := 2 * m + if ones then 1 else 0;
    assert b / 2 == m && (b % 2 == 1 <==> ones);
  }

  lemma AndPair(a: nat, m: nat, ones: bool)
    ensures BitAnd(a, 4 * m + if ones then 3 else 0) == 4 * BitAnd(a / 4, m) + if ones then a % 4 else 0
  {
    var q := a / 2;
    AndBit(a, 2 * m + (if ones then 1 else 0), ones);
    AndBit(q, m, ones);
    assert q / 2 == a / 4 && a % 4 == 2 * (q % 2) + a % 2;
    assert 2 * (2 * m + (if ones then 1 else 0)) + (if ones then 1 else 0) == 4 * m + if ones then 3 else 0;
  }

  lemma AndNibble(a: nat, m: nat, ones: bool)
    ensures BitAnd(a, 16 * m + if ones then 15 else 0) == 16 * BitAnd(a / 16, m) + if ones then a % 16 else 0
  {
    var q := a / 4;
    AndPair(a, 4 * m + (if ones then 3 else 0), ones);
    AndPair(q, m, ones);
    assert q / 4 == a / 16 && a % 16 == 4 * (q % 4) + a % 4;
    assert 4 * (4 * m + (if ones then 3 else 0)) + (if ones then 3 else 0) == 16 * m + if ones then 15 else 0;
  }

  /** A mask whose low byte is all ones or zero keeps, or drops, the low byte. */
  lemma AndByte(a: nat, m: nat, ones: bool)
    ensures BitAnd(a, 256 * m + if ones then 255 else 0) == 256 * BitAnd(a / 256, m) + if ones then a % 256 else 0
  {
    var q := a / 16;
    AndNibble(a, 16 * m + (if ones then 15 else 0), ones);
    AndNibble(q, m, ones);
    assert q / 16 == a / 256 && a % 256 == 16 * (q % 16) + a % 16;
    assert 16 * (16 * m + (if ones then 15 else 0)) + (if ones then 15 else 0) == 256 * m + if ones then 255 else 0;
  }
}
