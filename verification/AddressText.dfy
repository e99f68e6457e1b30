/**
  The number texts the program reads and writes with the C++ library: std::stoi on channels,
  std::stoul and stream formatting on camera addresses.
*/
module AddressText {
  import opened Bits
  import opened JsonSyntax
  import opened Numerals
  import opened Wrappers

  // ------------------------------------------------------------------ reading

  /** std::isspace in the "C" locale, which strtol and strtoul skip. */
  predicate IsCSpace(c: char) {
    c == ' ' || 9 <= c as int <= 13
  }

  function SkipCSpace(r: string): (s: string)
    ensures |s| <= |r|
  {
    if r != "" && IsCSpace(r[0]) then SkipCSpace(r[1..]) else r
  }

  const WORD: nat := 0x1_0000_0000

  /** What follows the sign that a number may begin with. */
  function AfterSign(r: string): (s: string)
    ensures |s| <= |r|
  {
    if r != "" && (r[0] == '-' || r[0] == '+') then r[1..] else r
  }

  /** What follows the prefix that a hexadecimal number may begin with. */
  function AfterPrefix(r: string): string {
    if |r| > 2 && r[0] == '0' && (r[1] == 'x' || r[1] == 'X') && IsHex(r[2]) then r[2..] else r
  }

  /** std::stoul(s, nullptr, 16); None where it throws. */
  function Stoul16(s: string): Option<nat> {
    var r := SkipCSpace(s);
    var minus := r != "" && r[0] == '-';
    var digits := AfterPrefix(AfterSign(r));
    LeadHexIsHex(digits);
    var h := LeadHex(digits);
    if h == "" then None
    else
      var v: nat := HexFold(0, h);
      if v >= LONG_WORD then None
      else if minus && v > 0 then
        var negated: nat := LONG_WORD - v;
        Some(negated)
      else Some(v)
  }

  /** std::stoi(s); None where it throws. */
  function Stoi(s: string): Option<int> {
    var r := SkipCSpace(s);
    var minus := r != "" && r[0] == '-';
    LeadDecimalIsDigits(AfterSign(r));
    var d := LeadDecimal(AfterSign(r));
    if d == "" then None
    else
      var n: int := DecFold(0, d);
      var v := if minus then -n else n;
      if -0x8000_0000 <= v < 0x8000_0000 then Some(v) else None
  }

  /**
    std::stoi reads the decimal form of every int, with a minus sign or without, whatever follows that
    is no digit, and throws on every other number.
  */
  lemma StoiReads(n: int, k: string)
    requires n >= 0 && NoDigitFirst(k)
    ensures Stoi(Decimal(n) + k) == if n <= 2147483647 then Some(n) else None
    ensures Stoi("-" + (Decimal(n) + k)) == if n <= 2147483648 then Some(-n) else None
  {
    var d := Decimal(n);
    DecimalIsDigits(n);
    LeadDecimalOf(d, k);
    DigitsAreRead(d + k, d, n);
  }

  lemma DigitsAreRead(r: string, d: string, n: int)
    requires d != "" && AllDigits(d) && LeadDecimal(r) == d && DecFold(0, d) == n
    ensures Stoi(r) == if n <= 2147483647 then Some(n) else None
    ensures Stoi("-" + r) == if n <= 2147483648 then Some(-n) else None
  {
    assert r != "" && IsDigit(r[0]);
    assert SkipCSpace(r) == r;
    var m := "-" + r;
    assert m[0] == '-' && m[1..] == r;
    assert SkipCSpace(m) == m;
    assert Stoi(r) == if n <= 2147483647 then Some(n) else None;
  }

  // ------------------------------------------------------------------ writing

  function HexChar(d: nat): (c: char)
    requires d < 16
    ensures IsHex(c) && HexDigit(c) == d && c != 'x' && c != 'X'
  {
    if d < 10 then ('0' as int + d) as char else ('A' as int + (d - 10)) as char
  }

  /** The last `n` hexadecimal digits of `v`, upper case. */
  function HexDigits(v: nat, n: nat): (h: string)
    ensures |h| == n
    ensures forall i | 0 <= i < n :: IsHex(h[i]) && h[i] != 'x' && h[i] != 'X'
  {
    if n == 0 then "" else HexDigits(v / 16, n - 1) + [HexChar(v % 16)]
  }

  /** The stream formatting of a 32-bit word: 0x and eight upper-case digits, filled with zeros. */
  function HexAddress(v: nat): string {
    "0x" + HexDigits(v, 8)
  }

  /** The four bytes of a word in decimal, most significant first, with points between them. */
  function Dotted(v: nat): string {
    Decimal(v / 0x100_0000 % 0x100) + "." + Decimal(v / 0x1_0000 % 0x100) + "."
    + Decimal(v / 0x100 % 0x100) + "." + Decimal(v % 0x100)
  }

  /**
    The four bytes of a 32-bit word in reverse: each is masked out and shifted to its new place, and
    the four are or-ed (alarm_server.cpp:157-160).
  */
  function Swap(v: nat): nat {
    BitOr(BitOr(BitOr(BitAnd(v, 0xFF) * 0x100_0000 % WORD, BitAnd(v, 0xFF00) * 0x100 % WORD),
                BitAnd(v, 0xFF_0000) / 0x100),
          BitAnd(v, 0xFF00_0000) / 0x100_0000)
  }

  // ------------------------------------------------------------------ writing, then reading

  function Pow16(n: nat): nat {
    if n == 0 then 1 else 16 * Pow16(n - 1)
  }

  lemma {:induction false} HexDigitsRead(v: nat, n: nat)
    requires v < Pow16(n)
    ensures HexFold(0, HexDigits(v, n)) == v
  {
    if n > 0 {
      HexDigitsRead(v / 16, n - 1);
      HexFoldSnoc(0, HexDigits(v / 16, n - 1), HexChar(v % 16));
    }
  }

  /** std::stoul undoes the eight-digit form. */
  lemma StoulReadsHex(v: nat)
    requires v < WORD
    ensures Stoul16(HexAddress(v)[2..]) == Some(v)
  {
    var h := HexDigits(v, 8);
    assert HexAddress(v)[2..] == h;
    assert Pow16(8) == WORD by {
      assert Pow16(4) == 0x1_0000;
    }
    HexDigitsRead(v, 8);
    LeadHexAll(h);
    assert !IsCSpace(h[0]) && h[0] != '-' && h[0] != '+';
  }

  lemma {:induction false} ShiftIsTimes(a: nat, k: nat)
    ensures Shift(a, k) == a * Shift(1, k)
  {
    if k > 0 { ShiftIsTimes(a, k - 1); }
  }

  lemma Shifts()
    ensures Shift(1, 8) == 0x100 && Shift(1, 16) == 0x1_0000 && Shift(1, 24) == 0x100_0000
  {
    assert Shift(1, 4) == 0x10;
    assert Shift(1, 8) == 0x100;
    assert Shift(1, 12) == 0x1000;
    assert Shift(1, 16) == 0x1_0000;
    assert Shift(1, 20) == 0x10_0000;
  }

  lemma OrIsSum(lead: nat, low: nat, k: nat, unit: nat)
    requires Shift(1, k) == unit && low < unit
    ensures BitOr(lead * unit, low) == lead * unit + low
  {
    ShiftIsTimes(lead, k);
    ByteOr(lead, low, k);
  }

  lemma OrByte24(x: nat, lead: nat, b: nat)
    requires x == lead * 0x100_0000 && b < 0x100
    ensures BitOr(x, b * 0x1_0000) == (lead * 0x100 + b) * 0x1_0000
  {
    Shifts();
    OrIsSum(lead, b * 0x1_0000, 24, 0x100_0000);
  }

  lemma OrByte16(x: nat, lead: nat, c: nat)
    requires x == lead * 0x1_0000 && c < 0x100
    ensures BitOr(x, c * 0x100) == (lead * 0x100 + c) * 0x100
  {
    Shifts();
    OrIsSum(lead, c * 0x100, 16, 0x1_0000);
  }

  lemma OrByte8(x: nat, lead: nat, d: nat)
    requires x == lead * 0x100 && d < 0x100
    ensures BitOr(x, d) == lead * 0x100 + d
  {
    Shifts();
    OrIsSum(lead, d, 8, 0x100);
  }

  /** Four bytes in their places do not overlap, so their bitwise or is their sum. */
  lemma OrOfBytes(a: nat, b: nat, c: nat, d: nat)
    requires a < 0x100 && b < 0x100 && c < 0x100 && d < 0x100
    ensures BitOr(BitOr(BitOr(a * 0x100_0000, b * 0x1_0000), c * 0x100), d) == Quad(a, b, c, d)
  {
    var x := BitOr(a * 0x100_0000, b * 0x1_0000);
    OrByte24(a * 0x100_0000, a, b);
    var y := BitOr(x, c * 0x100);
    OrByte16(x, a * 0x100 + b, c);
    OrByte8(y, (a * 0x100 + b) * 0x100 + c, d);
  }

  lemma MaskSplits(y: nat, z: nat, mask: nat)
    requires z < 0x100
    ensures BitAnd(y * 0x100 + z, 0x100 * mask) == 0x100 * BitAnd(y, mask)
    ensures BitAnd(y * 0x100 + z, 0xFF) == z
  {
    var v := y * 0x100 + z;
    assert v / 0x100 == y && v % 0x100 == z;
    AndByte(v, mask, false);
    AndByte(v, 0, true);
    assert BitAnd(y, 0) == 0;
  }

  /** The masks of the three bytes. */
  lemma UpperMasks(a: nat, b: nat, c: nat)
    requires a < 0x100 && b < 0x100 && c < 0x100
    ensures var v := (a * 0x100 + b) * 0x100 + c;
            BitAnd(v, 0xFF) == c && BitAnd(v, 0xFF00) == b * 0x100 && BitAnd(v, 0xFF_0000) == a * 0x1_0000
  {
    MaskSplits(a * 0x100 + b, c, 0xFF);
    MaskSplits(a * 0x100 + b, c, 0xFF00);
    MaskSplits(a, b, 0xFF);
    MaskSplits(0, a, 0);
  }

  /** The four masks pick out the four bytes. */
  lemma MasksPick(a: nat, b: nat, c: nat, d: nat)
    requires a < 0x100 && b < 0x100 && c < 0x100 && d < 0x100
    ensures var v := Quad(a, b, c, d);
            && BitAnd(v, 0xFF) == d && BitAnd(v, 0xFF00) == c * 0x100
            && BitAnd(v, 0xFF_0000) == b * 0x1_0000 && BitAnd(v, 0xFF00_0000) == a * 0x100_0000
  {
    var v1 := (a * 0x100 + b) * 0x100 + c;
    assert Quad(a, b, c, d) == v1 * 0x100 + d;
    UpperMasks(a, b, c);
    MaskSplits(v1, d, 0xFF);
    MaskSplits(v1, d, 0xFF00);
    MaskSplits(v1, d, 0xFF_0000);
  }

  lemma BytesMove(a: nat, b: nat, c: nat, d: nat)
    requires a < 0x100 && b < 0x100 && c < 0x100 && d < 0x100
    ensures d * 0x100_0000 % WORD == d * 0x100_0000 && c * 0x100 * 0x100 % WORD == c * 0x1_0000
    ensures b * 0x1_0000 / 0x100 == b * 0x100 && a * 0x100_0000 / 0x100_0000 == a
  {}

  /** The swap reverses the four bytes. */
  lemma SwapBytes(a: nat, b: nat, c: nat, d: nat)
    requires a < 0x100 && b < 0x100 && c < 0x100 && d < 0x100
    ensures Quad(a, b, c, d) < WORD && Swap(Quad(a, b, c, d)) == Quad(d, c, b, a)
  {
    MasksPick(a, b, c, d);
    BytesMove(a, b, c, d);
    OrOfBytes(d, c, b, a);
  }

  /** Swapping twice is the identity. */
  lemma SwapTwice(v: nat)
    requires v < WORD
    ensures Swap(v) < WORD && Swap(Swap(v)) == v
  {
    var a, b, c, d := v / 0x100_0000, v / 0x1_0000 % 0x100, v / 0x100 % 0x100, v % 0x100;
    FourBytesOf(v);
    SwapBytes(a, b, c, d);
    SwapBytes(d, c, b, a);
  }

  function Quad(a: nat, b: nat, c: nat, d: nat): nat {
    a * 0x100_0000 + b * 0x1_0000 + c * 0x100 + d
  }

  lemma FourBytesOf(v: nat)
    requires v < WORD
    ensures v / 0x100_0000 < 0x100
    ensures v == Quad(v / 0x100_0000, v / 0x1_0000 % 0x100, v / 0x100 % 0x100, v % 0x100)
  {
    assert v / 0x1_0000 == v / 0x100 / 0x100;
    assert v / 0x100_0000 == v / 0x1_0000 / 0x100;
  }

  lemma BytesOfQuad(a: nat, b: nat, c: nat, d: nat)
    requires a < 0x100 && b < 0x100 && c < 0x100 && d < 0x100
    ensures var v := Quad(a, b, c, d);
            && v < WORD && v % 0x100 == d && v / 0x100 % 0x100 == c && v / 0x1_0000 % 0x100 == b
            && v / 0x100_0000 == a && v / 0x100_0000 % 0x100 == a
  {
    var v := Quad(a, b, c, d);
    assert v == (a * 0x1_0000 + b * 0x100 + c) * 0x100 + d;
    assert v / 0x100 == a * 0x1_0000 + b * 0x100 + c;
    assert v / 0x1_0000 == v / 0x100 / 0x100 == a * 0x100 + b;
    assert v / 0x100_0000 == v / 0x1_0000 / 0x100 == a;
  }

  // ------------------------------------------------------------------ any hexadecimal text

  ghost predicate AllHex(h: string) {
    forall i | 0 <= i < |h| :: IsHex(h[i])
  }

  /** Not more of the digits before it, and not an `x` that would make a prefix of them. */
  ghost predicate EndsHex(h: string, k: string) {
    && (k != "" ==> !IsHex(k[0]))
    && !(h == "0" && |k| >= 2 && (k[0] == 'x' || k[0] == 'X') && IsHex(k[1]))
  }

  lemma {:induction false} LeadHexOf(h: string, k: string)
    requires AllHex(h) && (k != "" ==> !IsHex(k[0]))
    ensures LeadHex(h + k) == h
    decreases |h|
  {
    if h == "" {
      assert h + k == k;
    } else {
      assert (h + k)[0] == h[0] && (h + k)[1..] == h[1..] + k;
      LeadHexOf(h[1..], k);
      assert h == [h[0]] + h[1..];
    }
  }

  /** std::stoul reads the longest run of digits, in either case, unless a long cannot hold it. */
  lemma StoulReads(h: string, k: string)
    requires h != "" && AllHex(h) && EndsHex(h, k)
    ensures Stoul16(h + k) == if HexFold(0, h) < LONG_WORD then Some(HexFold(0, h)) else None
  {
    var r := h + k;
    LeadHexOf(h, k);
    assert r[0] == h[0] && IsHex(h[0]);
    assert SkipCSpace(r) == r;
    if |h| >= 2 {
      assert r[1] == h[1] && IsHex(h[1]);
    } else {
      assert |r| >= 2 ==> r[1] == k[0];
      assert |r| >= 3 ==> r[2] == k[1];
    }
  }

  lemma {:induction false} HexFoldFrom(acc: nat, h: string)
    requires AllHex(h)
    ensures HexFold(acc, h) == acc * Pow16(|h|) + HexFold(0, h) && HexFold(0, h) < Pow16(|h|)
    decreases |h|
  {
    if h != "" {
      var d, t := HexDigit(h[0]), h[1..];
      HexFoldFrom(acc * 16 + d, t);
      HexFoldFrom(d, t);
      DigitInFront(acc, d, Pow16(|t|), HexFold(0, t));
    }
  }

  lemma DigitInFront(acc: nat, d: nat, p: nat, rest: nat)
    requires d < 16 && rest < p
    ensures (acc * 16 + d) * p + rest == acc * (16 * p) + (d * p + rest) && d * p + rest < 16 * p
  {
    assert d * p <= 15 * p;
  }

  lemma {:induction false} HexFoldConcat(acc: nat, a: string, b: string)
    requires AllHex(a) && AllHex(b)
    ensures HexFold(acc, a + b) == HexFold(HexFold(acc, a), b)
    decreases |a|
  {
    if a == "" {
      assert a + b == b;
    } else {
      assert (a + b)[0] == a[0] && (a + b)[1..] == a[1..] + b;
      HexFoldConcat(acc * 16 + HexDigit(a[0]), a[1..], b);
    }
  }

  /** The last eight digits, with zeros in front of fewer. */
  function LastEight(h: string): (t: string)
    ensures |t| == 8
  {
    ("00000000" + h)[|h|..]
  }

  lemma EightZeros()
    ensures Pow16(8) == WORD
  {
    assert Pow16(4) == 0x1_0000;
  }

  /** Of a longer number only its last eight digits matter to a 32-bit word. */
  lemma WordIsLastEight(h: string)
    requires AllHex(h)
    ensures AllHex(LastEight(h)) && HexFold(0, h) % WORD == HexFold(0, LastEight(h))
  {
    var zeros := "00000000";
    var front, t := (zeros + h)[..|h|], LastEight(h);
    assert zeros + h == front + t;
    assert AllHex(zeros + h);
    ZerosCount(zeros, h);
    HexFoldConcat(0, front, t);
    HexFoldFrom(HexFold(0, front), t);
    EightZeros();
    RestModulo(HexFold(0, front), HexFold(0, t));
  }

  lemma {:induction false} ZerosCount(z: string, h: string)
    requires AllHex(h) && forall i | 0 <= i < |z| :: z[i] == '0'
    ensures AllHex(z + h) && HexFold(0, z + h) == HexFold(0, h)
    decreases |z|
  {
    if z == "" {
      assert z + h == h;
    } else {
      assert (z + h)[0] == '0' && (z + h)[1..] == z[1..] + h;
      ZerosCount(z[1..], h);
    }
  }

  lemma RestModulo(q: nat, r: nat)
    requires r < WORD
    ensures (q * WORD + r) % WORD == r
  {}

  /** The byte that the digits at `i` and `i + 1` write. */
  function ByteAt(t: string, i: nat): (b: nat)
    requires i + 1 < |t| && IsHex(t[i]) && IsHex(t[i + 1])
    ensures b < 0x100
  {
    16 * HexDigit(t[i]) + HexDigit(t[i + 1])
  }

  /** The digits of a byte. */
  function TwoDigits(b: nat): string
    requires b < 0x100
  {
    [HexChar(b / 16), HexChar(b % 16)]
  }

  lemma EightAreQuad(t: string)
    requires |t| == 8 && AllHex(t)
    ensures HexFold(0, t) == Quad(ByteAt(t, 0), ByteAt(t, 2), ByteAt(t, 4), ByteAt(t, 6))
  {
    FourFold(0, t, 0);
    FourFold(ByteAt(t, 0) * 0x100 + ByteAt(t, 2), t, 4);
    assert t[0..] == t && t[8..] == "";
  }

  lemma FourFold(acc: nat, h: string, i: nat)
    requires i + 3 < |h| && AllHex(h)
    ensures HexFold(acc, h[i..]) == HexFold(acc * 0x1_0000 + (ByteAt(h, i) * 0x100 + ByteAt(h, i + 2)), h[i + 4..])
  {
    PairFolds(acc, h, i);
    PairFolds(acc * 0x100 + ByteAt(h, i), h, i + 2);
  }

  lemma PairFolds(acc: nat, h: string, i: nat)
    requires i + 1 < |h| && AllHex(h)
    ensures HexFold(acc, h[i..]) == HexFold(acc * 0x100 + ByteAt(h, i), h[i + 2..])
  {
    assert h[i..][1..] == h[i + 1..] && h[i + 1..][1..] == h[i + 2..];
  }

  lemma QuadDigits(v: nat, a: nat, b: nat, c: nat, d: nat, n: nat)
    requires a < 0x100 && b < 0x100 && c < 0x100 && d < 0x100
    ensures HexDigits(v * WORD + Quad(a, b, c, d), n + 8)
            == (HexDigits(v, n) + TwoDigits(a) + TwoDigits(b)) + TwoDigits(c) + TwoDigits(d)
  {
    var w := v * 0x1_0000 + a * 0x100 + b;
    assert v * WORD + Quad(a, b, c, d) == w * 0x1_0000 + c * 0x100 + d;
    TwoByteDigits(w, c, d, n + 4);
    TwoByteDigits(v, a, b, n);
  }

  lemma TwoByteDigits(v: nat, a: nat, b: nat, n: nat)
    requires a < 0x100 && b < 0x100
    ensures HexDigits(v * 0x1_0000 + a * 0x100 + b, n + 4) == HexDigits(v, n) + TwoDigits(a) + TwoDigits(b)
  {
    ByteDigits(v * 0x100 + a, b, n + 2);
    ByteDigits(v, a, n);
  }

  lemma ByteDigits(v: nat, b: nat, n: nat)
    requires b < 0x100
    ensures HexDigits(v * 0x100 + b, n + 2) == HexDigits(v, n) + TwoDigits(b)
  {
    var w := v * 0x100 + b;
    assert w / 16 == v * 16 + b / 16 && w % 16 == b % 16;
    assert w / 16 / 16 == v && w / 16 % 16 == b / 16;
    assert HexDigits(w, n + 2) == HexDigits(w / 16, n + 1) + [HexChar(b % 16)];
    assert HexDigits(w / 16, n + 1) == HexDigits(v, n) + [HexChar(b / 16)];
  }

  lemma QuadAddress(a: nat, b: nat, c: nat, d: nat)
    requires a < 0x100 && b < 0x100 && c < 0x100 && d < 0x100
    ensures HexAddress(Quad(a, b, c, d)) == "0x" + TwoDigits(a) + TwoDigits(b) + TwoDigits(c) + TwoDigits(d)
    ensures Dotted(Quad(a, b, c, d)) == Decimal(a) + "." + Decimal(b) + "." + Decimal(c) + "." + Decimal(d)
  {
    QuadDigits(0, a, b, c, d, 0);
    BytesOfQuad(a, b, c, d);
    FiveParts("0x", TwoDigits(a), TwoDigits(b), TwoDigits(c), TwoDigits(d));
  }

  lemma FiveParts(a: string, b: string, c: string, d: string, e: string)
    ensures a + ("" + b + c + d + e) == a + b + c + d + e
  {}

  /** The swapped word of eight digits is spelled by the four pairs of digits in reverse order. */
  lemma SwapReverses(t: string)
    requires |t| == 8 && AllHex(t)
    ensures var w := Swap(HexFold(0, t));
            && HexAddress(w) == "0x" + TwoDigits(ByteAt(t, 6)) + TwoDigits(ByteAt(t, 4))
                                + TwoDigits(ByteAt(t, 2)) + TwoDigits(ByteAt(t, 0))
            && Dotted(w) == Decimal(ByteAt(t, 6)) + "." + Decimal(ByteAt(t, 4)) + "."
                            + Decimal(ByteAt(t, 2)) + "." + Decimal(ByteAt(t, 0))
  {
    EightAreQuad(t);
    SwapBytes(ByteAt(t, 0), ByteAt(t, 2), ByteAt(t, 4), ByteAt(t, 6));
    QuadAddress(ByteAt(t, 6), ByteAt(t, 4), ByteAt(t, 2), ByteAt(t, 0));
  }

  // ------------------------------------------------------------------ spelled digit by digit

  /** std::stoul reads digits of either case as the number they are the places of. */
  lemma StoulSpelled(h: string, ds: seq<nat>, k: string)
    requires h != "" && Spells(h, ds) && EndsHex(h, k)
    ensures Stoul16(h + k) == if Base16(ds) < LONG_WORD then Some(Base16(ds)) else None
  {
    SpelledIsRead(h, ds);
    StoulReads(h, k);
  }

  lemma {:induction false} UppercaseSkips(r: string)
    ensures SkipCSpace(Uppercase(r)) == Uppercase(SkipCSpace(r))
    decreases |r|
  {
    if r != "" && IsCSpace(r[0]) {
      UppercaseTail(r);
      UppercaseSkips(r[1..]);
    }
  }

  lemma UppercaseAfterSign(r: string)
    ensures AfterSign(Uppercase(r)) == Uppercase(AfterSign(r))
  {
    if r != "" { UppercaseTail(r); }
  }

  lemma UppercaseAfterPrefix(r: string)
    ensures AfterPrefix(Uppercase(r)) == Uppercase(AfterPrefix(r))
  {
    if |r| > 2 {
      UpperDigit(r[2]);
      assert Uppercase(r)[2..] == Uppercase(r[2..]);
    }
  }

  /** Case does not matter to std::stoul. */
  lemma StoulUppercase(s: string)
    ensures Stoul16(Uppercase(s)) == Stoul16(s)
  {
    var r := SkipCSpace(s);
    UppercaseSkips(s);
    UppercaseAfterSign(r);
    UppercaseAfterPrefix(AfterSign(r));
    var digits := AfterPrefix(AfterSign(r));
    UppercaseLead(digits);
    LeadHexIsHex(digits);
    UppercaseFold(0, LeadHex(digits));
  }

  /** The digits of a byte are these, literally. */
  lemma TwoDigitsAre(b: nat)
    requires b < 0x100
    ensures TwoDigits(b) == [UPPER[b / 16], UPPER[b % 16]]
  {
    HexCharIs(b / 16);
    HexCharIs(b % 16);
  }

  lemma HexCharIs(d: nat)
    requires d < 16
    ensures HexChar(d) == UPPER[d]
  {}

  lemma ByteSpelled(t: string, i: nat, b: nat)
    requires i + 1 < |t| && b < 0x100
    requires t[i] == LOWER[b / 16] || t[i] == UPPER[b / 16]
    requires t[i + 1] == LOWER[b % 16] || t[i + 1] == UPPER[b % 16]
    ensures IsHex(t[i]) && IsHex(t[i + 1]) && ByteAt(t, i) == b
  {
    DigitWorth(b / 16, t[i]);
    DigitWorth(b % 16, t[i + 1]);
  }

  /** The characters that are skipped in front of a number. */
  lemma CSpaceWhen(c: char)
    ensures IsCSpace(c) <==> c as int in {32, 9, 10, 11, 12, 13}
  {}

  /** Blanks, a plus and a prefix in front of the digits change nothing; a minus negates the word. */
  lemma StoulForms(c: char, h: string, k: string)
    requires h != "" && AllHex(h) && EndsHex(h, k)
    ensures IsCSpace(c) ==> Stoul16([c] + (h + k)) == Stoul16(h + k)
    ensures Stoul16("+" + (h + k)) == Stoul16(h + k)
    ensures Stoul16("0x" + (h + k)) == Stoul16(h + k)
    ensures Stoul16("-" + (h + k))
            == match Stoul16(h + k)
               case None => None
               case Some(v) => if v == 0 then Some(0) else Some(0x1_0000_0000_0000_0000 - v)
  {
    var r := h + k;
    StoulReads(h, k);
    LeadHexOf(h, k);
    NoPrefix(h, k);
    assert r[0] == h[0] && SkipCSpace(r) == r && AfterSign(r) == r;
    assert ([c] + r)[1..] == r;
    Signed('+', r);
    Signed('-', r);
    Prefixed(r);
  }

  lemma NoPrefix(h: string, k: string)
    requires h != "" && AllHex(h) && EndsHex(h, k)
    ensures AfterPrefix(h + k) == h + k
  {
    var r := h + k;
    if |h| >= 2 {
      assert r[1] == h[1] && IsHex(h[1]);
    } else {
      assert |r| >= 2 ==> r[1] == k[0];
      assert |r| >= 3 ==> r[2] == k[1];
    }
  }

  lemma Signed(sign: char, r: string)
    requires sign == '+' || sign == '-'
    ensures SkipCSpace([sign] + r) == [sign] + r && AfterSign([sign] + r) == r
  {}

  lemma Prefixed(r: string)
    requires r != "" && IsHex(r[0])
    ensures var s := "0x" + r; SkipCSpace(s) == s && AfterSign(s) == s && AfterPrefix(s) == r
  {
    var s := "0x" + r;
    assert s[0] == '0' && s[1] == 'x' && s[2] == r[0] && s[2..] == r;
  }
}
