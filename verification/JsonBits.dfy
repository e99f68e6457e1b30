/**
  The bit arithmetic of json_parse_string against section 3 of RFC 3629.

  The shifts and masks of the source are quotients and remainders by powers of two; `|` is
  spelled out, because nothing but the choice of constants keeps its operands disjoint.
*/
module JsonBits {
  import opened Bits
  import opened JsonSyntax
  import opened JsonDom

  /** The four marks a UTF-8 byte can carry, in front of fewer bits than they leave free. */
  lemma MarkedByte(low: nat)
    ensures low < 0x40 ==> BitOr(0x80, low) == 0x80 + low
    ensures low < 0x20 ==> BitOr(0xC0, low) == 0xC0 + low
    ensures low < 0x10 ==> BitOr(0xE0, low) == 0xE0 + low
  {
    assert Shift(2, 6) == 0x80 && Shift(3, 6) == 0xC0 && Shift(14, 4) == 0xE0;
    assert Shift(1, 6) == 0x40 && Shift(1, 4) == 0x10;
    if low < 0x40 {
      ByteOr(2, low, 6);
      ByteOr(3, low, 6);
    }
    if low < 0x10 {
      ByteOr(14, low, 4);
    }
  }

  /** The lead byte of four, with the excess described at `FourBytes`. */
  lemma LeadByte(low: nat)
    requires low < 0x10
    ensures BitOr(0xF0, 0x4000 + low) == 0x40F0 + low
  {
    assert Shift(15, 4) == 0xF0 && Shift(0x400, 4) == 0x4000 && Shift(1, 4) == 0x10 && Shift(0x40F, 4) == 0x40F0;
    OrLow(15, 0x400, low, 4);
    assert Shift(0x40, 4) == 0x400 && Shift(0, 4) == 0;
    OrLow(0x40, 0, 15, 4);
    OrZero(0x40);
    OrSymmetric(15, 0x400);
  }

  /** Conversion of an unsigned word to `char`. */
  function ToChar(n: nat): char {
    (n % 0x100) as char
  }

  lemma KeepsByte(n: nat)
    requires n < 0x100
    ensures ToChar(n) == n as char && ToChar(n + 0x4000) == n as char
  {}

  lemma TwoBytes(cp: nat)
    requires 0x80 <= cp < 0x800
    ensures Utf8(cp) == [ToChar(BitOr(0xC0, cp / 0x40)), ToChar(BitOr(0x80, cp % 0x40))]
  {
    var a, b := cp / 0x40, cp % 0x40;
    assert a < 0x20;
    MarkedByte(a);
    MarkedByte(b);
    KeepsByte(0xC0 + a);
    KeepsByte(0x80 + b);
  }

  lemma ThreeBytes(cp: nat)
    requires 0x800 <= cp < 0x10000 && IsScalar(cp)
    ensures Utf8(cp) == [ToChar(BitOr(0xE0, cp / 0x1000)), ToChar(BitOr(0x80, cp / 0x40 % 0x40)),
                         ToChar(BitOr(0x80, cp % 0x40))]
  {
    var a, b, c := cp / 0x1000, cp / 0x40 % 0x40, cp % 0x40;
    assert a < 0x10;
    MarkedByte(a);
    MarkedByte(b);
    MarkedByte(c);
    KeepsByte(0xE0 + a);
    KeepsByte(0x80 + b);
    KeepsByte(0x80 + c);
  }

  /** What is added to the shifted halves of a pair; the subtractions go below zero and wrap as a 32-bit word. */
  const SURROGATE_OFFSET: nat := (0x10000 - 0xD800 * 0x400 - 0xDC00) % 0x1_0000_0000

  /** The sum that makes a code point of two halves, as a 64-bit word. */
  function WrappedPair(high: nat, low: nat): nat {
    (high * 0x400 + low + SURROGATE_OFFSET) % 0x1_0000_0000_0000_0000
  }

  /** The code point of a surrogate pair, by section 7 of RFC 8259. */
  function Combined(high: nat, low: nat): (cp: nat)
    requires IsHighSurrogate(high) && IsLowSurrogate(low)
    ensures IsScalar(cp) && cp >= 0x10000
  {
    0x10000 + (high - 0xD800) * 0x400 + (low - 0xDC00)
  }

  lemma Excess(n: nat)
    ensures var cp := n + 0x1_0000_0000;
            && cp / 0x40000 == n / 0x40000 + 0x4000
            && cp / 0x1000 % 0x40 == n / 0x1000 % 0x40
            && cp / 0x40 % 0x40 == n / 0x40 % 0x40
            && cp % 0x40 == n % 0x40
  {
    ExcessOver(n);
    ExcessDrops(n / 0x1000, n / 0x40, n);
  }

  lemma ExcessOver(n: nat)
    ensures (n + 0x1_0000_0000) / 0x40000 == n / 0x40000 + 0x4000
    ensures (n + 0x1_0000_0000) / 0x1000 == n / 0x1000 + 0x10_0000
    ensures (n + 0x1_0000_0000) / 0x40 == n / 0x40 + 0x400_0000
  {}

  lemma ExcessDrops(a: nat, b: nat, c: nat)
    ensures (a + 0x10_0000) % 0x40 == a % 0x40 && (b + 0x400_0000) % 0x40 == b % 0x40
    ensures (c + 0x1_0000_0000) % 0x40 == c % 0x40
  {}

  /** The 32-bit wrap leaves an excess of 2^32 in the 64-bit word ... */
  lemma PairExceeds(high: nat, low: nat)
    requires IsHighSurrogate(high) && IsLowSurrogate(low)
    ensures WrappedPair(high, low) == Combined(high, low) + 0x1_0000_0000
  {}

  /** ... and no byte written shows it. */
  lemma FourBytes(n: nat)
    requires 0x10000 <= n < 0x110000
    ensures var cp := n + 0x1_0000_0000;
            Utf8(n) == [ToChar(BitOr(0xF0, cp / 0x40000)), ToChar(BitOr(0x80, cp / 0x1000 % 0x40)),
                        ToChar(BitOr(0x80, cp / 0x40 % 0x40)), ToChar(BitOr(0x80, cp % 0x40))]
  {
    Excess(n);
    var a, b, c, d := n / 0x40000, n / 0x1000 % 0x40, n / 0x40 % 0x40, n % 0x40;
    assert a < 0x10;
    LeadByte(a);
    MarkedByte(b);
    MarkedByte(c);
    MarkedByte(d);
    KeepsByte(0xF0 + a);
    KeepsByte(0x80 + b);
    KeepsByte(0x80 + c);
    KeepsByte(0x80 + d);
  }
}
