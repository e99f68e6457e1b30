/**
  Numbers as texts: what decimal and hexadecimal digits read as, and what a number is written as.
*/
module Numerals {
  import opened JsonSyntax

  /** One more than the largest unsigned long, and than the largest uintmax_t. */
  const LONG_WORD: nat := 0x1_0000_0000_0000_0000

  /** The longest run of hexadecimal digits at the front. */
  function LeadHex(r: string): string {
    if r != "" && IsHex(r[0]) then [r[0]] + LeadHex(r[1..]) else ""
  }

  function LeadDecimal(r: string): string {
    if r != "" && IsDigit(r[0]) then [r[0]] + LeadDecimal(r[1..]) else ""
  }

  /** The digits read left to right, in front of an accumulator. */
  function HexFold(acc: nat, h: string): nat
    requires forall i | 0 <= i < |h| :: IsHex(h[i])
    decreases |h|
  {
    if h == "" then acc else HexFold(acc * 16 + HexDigit(h[0]), h[1..])
  }

  function DecFold(acc: nat, d: string): nat
    requires AllDigits(d)
    decreases |d|
  {
    if d == "" then acc else DecFold(acc * 10 + (d[0] as int - '0' as int), d[1..])
  }

  lemma {:induction false} LeadHexIsHex(r: string)
    ensures forall i | 0 <= i < |LeadHex(r)| :: IsHex(LeadHex(r)[i])
  {
    if r != "" && IsHex(r[0]) { LeadHexIsHex(r[1..]); }
  }

  lemma {:induction false} LeadDecimalIsDigits(r: string)
    ensures AllDigits(LeadDecimal(r))
  {
    if r != "" && IsDigit(r[0]) { LeadDecimalIsDigits(r[1..]); }
  }

  /** The decimal form of a number, without leading zeros. */
  function Decimal(n: nat): string {
    if n < 10 then [('0' as int + n) as char] else Decimal(n / 10) + [('0' as int + n % 10) as char]
  }

  lemma {:induction false} HexFoldSnoc(acc: nat, h: string, c: char)
    requires IsHex(c) && forall i | 0 <= i < |h| :: IsHex(h[i])
    ensures HexFold(acc, h + [c]) == HexFold(acc, h) * 16 + HexDigit(c)
    decreases |h|
  {
    if h == "" {
      assert (h + [c])[1..] == "";
    } else {
      assert (h + [c])[1..] == h[1..] + [c];
      HexFoldSnoc(acc * 16 + HexDigit(h[0]), h[1..], c);
    }
  }

  lemma {:induction false} LeadHexAll(h: string)
    requires forall i | 0 <= i < |h| :: IsHex(h[i])
    ensures LeadHex(h) == h
  {
    if h != "" {
      LeadHexAll(h[1..]);
      assert h == [h[0]] + h[1..];
    }
  }

  lemma DigitOf(n: nat)
    requires n < 10
    ensures IsDigit(('0' as int + n) as char) && (('0' as int + n) as char) as int - '0' as int == n
  {}

  lemma {:induction false} DecimalIsDigits(n: nat)
    ensures Decimal(n) != "" && AllDigits(Decimal(n)) && DecFold(0, Decimal(n)) == n
  {
    DigitOf(n % 10);
    if n >= 10 {
      DecimalIsDigits(n / 10);
      DecFoldSnoc(0, Decimal(n / 10), ('0' as int + n % 10) as char);
    }
  }

  lemma {:induction false} DecFoldSnoc(acc: nat, d: string, c: char)
    requires AllDigits(d) && IsDigit(c)
    ensures AllDigits(d + [c]) && DecFold(acc, d + [c]) == DecFold(acc, d) * 10 + (c as int - '0' as int)
    decreases |d|
  {
    if d == "" {
      assert (d + [c])[1..] == "";
    } else {
      assert (d + [c])[1..] == d[1..] + [c];
      DecFoldSnoc(acc * 10 + (d[0] as int - '0' as int), d[1..], c);
    }
  }

  ghost predicate NoDigitFirst(k: string) {
    k != "" ==> !IsDigit(k[0])
  }

  lemma {:induction false} LeadDecimalOf(d: string, k: string)
    requires AllDigits(d) && NoDigitFirst(k)
    ensures LeadDecimal(d + k) == d
    decreases |d|
  {
    if d == "" {
      assert d + k == k;
    } else {
      assert (d + k)[0] == d[0] && (d + k)[1..] == d[1..] + k;
      LeadDecimalOf(d[1..], k);
      assert d == [d[0]] + d[1..];
    }
  }

  // ------------------------------------------------------------------ hexadecimal digits, one by one

  /** The digits hexadecimal numbers are written with. */
  const LOWER: string := "0123456789abcdef"
  const UPPER: string := "0123456789ABCDEF"

  lemma DigitWorth(d: nat, c: char)
    requires d < 16 && (c == LOWER[d] || c == UPPER[d])
    ensures IsHex(c) && HexDigit(c) == d
  {}

  /** No other character is a hexadecimal digit. */
  lemma HexWhen(c: char)
    ensures IsHex(c) <==> c in LOWER || c in UPPER
  {
    if IsHex(c) {
      var d := HexDigit(c);
      assert c == LOWER[d] || c == UPPER[d];
    }
  }

  lemma DigitWhen(c: char)
    ensures IsDigit(c) <==> c in "0123456789"
  {
    if IsDigit(c) {
      assert c == "0123456789"[c as int - '0' as int];
    }
  }

  /** `h` writes the digits `ds`, each in either case. */
  ghost predicate Spells(h: string, ds: seq<nat>) {
    |h| == |ds| && forall i | 0 <= i < |ds| :: ds[i] < 16 && (h[i] == LOWER[ds[i]] || h[i] == UPPER[ds[i]])
  }

  /** The number with these digits, the most significant first. */
  function Base16(ds: seq<nat>): nat
    decreases |ds|
  {
    if ds == [] then 0 else Base16(ds[..|ds| - 1]) * 16 + ds[|ds| - 1]
  }

  lemma {:induction false} SpelledIsRead(h: string, ds: seq<nat>)
    requires Spells(h, ds)
    ensures forall i | 0 <= i < |h| :: IsHex(h[i])
    ensures HexFold(0, h) == Base16(ds)
    decreases |h|
  {
    if h != "" {
      var n := |h| - 1;
      assert h == h[..n] + [h[n]];
      SpelledIsRead(h[..n], ds[..n]);
      DigitWorth(ds[n], h[n]);
      HexFoldSnoc(0, h[..n], h[n]);
    }
  }

  /** The four digits of a number below 0x10000. */
  function FourOf(n: nat): seq<nat> {
    [n / 0x1000, n / 0x100 % 16, n / 0x10 % 16, n % 16]
  }

  lemma Base16Snoc(ds: seq<nat>, d: nat)
    ensures Base16(ds + [d]) == Base16(ds) * 16 + d
  {
    assert (ds + [d])[..|ds|] == ds;
  }

  lemma FourPlaces(a: nat, b: nat, c: nat, d: nat)
    ensures Base16([a, b, c, d]) == 0x1000 * a + 0x100 * b + 0x10 * c + d
  {
    assert [a, b, c, d] == [] + [a] + [b] + [c] + [d];
    Base16Snoc([], a);
    Base16Snoc([] + [a], b);
    Base16Snoc([] + [a] + [b], c);
    Base16Snoc([] + [a] + [b] + [c], d);
  }

  lemma FourOfRead(n: nat)
    ensures Base16(FourOf(n)) == n
  {
    FourPlaces(n / 0x1000, n / 0x100 % 16, n / 0x10 % 16, n % 16);
    FourParts(n);
  }

  /** The four digits in either case are the number. */
  lemma FourSpelled(n: nat, h: string)
    requires n < 0x10000 && Spells(h, FourOf(n))
    ensures FourHex(h) && HexValue(h) == n
  {
    var ds := FourOf(n);
    DigitWorth(ds[0], h[0]);
    DigitWorth(ds[1], h[1]);
    DigitWorth(ds[2], h[2]);
    DigitWorth(ds[3], h[3]);
    FourParts(n);
  }

  lemma FourParts(n: nat)
    ensures n == 0x1000 * (n / 0x1000) + 0x100 * (n / 0x100 % 16) + 0x10 * (n / 0x10 % 16) + n % 16
  {
    assert n / 0x100 == n / 0x10 / 16;
    assert n / 0x1000 == n / 0x100 / 16;
  }

  // ------------------------------------------------------------------ upper case

  function InUpper(c: char): char {
    if 'a' <= c <= 'z' then (c as int - 32) as char else c
  }

  function Uppercase(s: string): (u: string)
    ensures |u| == |s| && forall i | 0 <= i < |s| :: u[i] == InUpper(s[i])
  {
    seq(|s|, i requires 0 <= i < |s| => InUpper(s[i]))
  }

  lemma UpperDigit(c: char)
    ensures IsHex(InUpper(c)) <==> IsHex(c)
    ensures IsHex(c) ==> HexDigit(InUpper(c)) == HexDigit(c)
  {}

  lemma UppercaseTail(s: string)
    requires s != ""
    ensures Uppercase(s)[1..] == Uppercase(s[1..])
  {}

  lemma {:induction false} UppercaseLead(r: string)
    ensures LeadHex(Uppercase(r)) == Uppercase(LeadHex(r))
    decreases |r|
  {
    if r != "" && IsHex(r[0]) {
      UpperDigit(r[0]);
      UppercaseTail(r);
      UppercaseLead(r[1..]);
    } else if r != "" {
      UpperDigit(r[0]);
    }
  }

  lemma {:induction false} UppercaseFold(acc: nat, h: string)
    requires forall i | 0 <= i < |h| :: IsHex(h[i])
    ensures forall i | 0 <= i < |h| :: IsHex(Uppercase(h)[i])
    ensures HexFold(acc, Uppercase(h)) == HexFold(acc, h)
    decreases |h|
  {
    forall i | 0 <= i < |h| ensures IsHex(Uppercase(h)[i]) { UpperDigit(h[i]); }
    if h != "" {
      UpperDigit(h[0]);
      UppercaseTail(h);
      UppercaseFold(acc * 16 + HexDigit(h[0]), h[1..]);
    }
  }
}
