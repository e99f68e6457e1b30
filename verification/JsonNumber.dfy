/**
  The text json.h writes for a number.

  The parser copies the text of a number; the writer takes any text a number may hold under any
  flags, and drops or adds what RFC 8259 asks for: a hexadecimal number becomes decimal, infinity
  the largest double, not-a-number a zero, a plus sign goes, and a point gets the digit it lacks.
*/
module JsonNumber {
  import opened JsonSyntax
  import opened JsonScan
  import opened JsonDom
  import opened Numerals

  // ------------------------------------------------------------------ signs and points

  /** The sign a number text may begin with. */
  function SignLength(text: string): (n: nat)
    ensures n <= |text|
  {
    if text != "" && (text[0] == '+' || text[0] == '-') then 1 else 0
  }

  /** What follows the sign. */
  function Unsigned(text: string): string {
    text[SignLength(text)..]
  }

  function WithoutPlus(text: string): string {
    if text != "" && text[0] == '+' then text[1..] else text
  }

  /** The minus sign of a text that has one. */
  function Minus(text: string): string {
    if text != "" && text[0] == '-' then "-" else ""
  }

  predicate LeadingPoint(text: string) {
    BeginsWith(text, '.')
  }

  predicate TrailingPoint(text: string) {
    SkipDigits(Unsigned(text)) == "."
  }

  /** The first character behind the sign. */
  predicate BeginsWith(text: string, c: char) {
    SignLength(text) < |text| && text[SignLength(text)] == c
  }

  // ------------------------------------------------------------------ hexadecimal numbers

  predicate Hexadecimal(text: string) {
    |text| >= 2 && (text[1] == 'x' || text[1] == 'X')
  }

  /** strtoumax in base 0, of a text whose second character is an x: only a zero in front makes it hexadecimal. */
  function HexadecimalNumber(text: string): (n: nat)
    requires Hexadecimal(text)
    ensures n < LONG_WORD
  {
    if text[0] == '0' then
      LeadHexIsHex(text[2..]);
      var n := HexFold(0, LeadHex(text[2..]));
      if n < LONG_WORD then n else LONG_WORD - 1
    else if IsDigit(text[0]) then text[0] as int - '0' as int
    else 0
  }

  // ------------------------------------------------------------------ infinity and not-a-number

  const INFINITY: string := "Infinity"
  const NOT_A_NUMBER: string := "NaN"

  /** The largest double, 1.7976931348623158e308. */
  const LARGEST_FRACTION: string := "7976931348623158"
  const LARGEST: string := "1" + ("." + (LARGEST_FRACTION + ("e" + "308")))

  /** How many characters of a literal, its NUL among them, the comparison fetches before it ends. */
  function Fetched(rest: string, word: string): (n: nat)
    ensures n <= |word| + 1
    decreases |rest|
  {
    if rest == "" then 0
    else if word == "" || rest[0] != word[0] then 1
    else 1 + Fetched(rest[1..], word[1..])
  }

  /** The literal counts as found when it was fetched up to its NUL. */
  predicate Found(rest: string, word: string) {
    Fetched(rest, word) == |word|
  }

  /** The comparison reaches the NUL itself, and what is looked at next lies behind the literal. */
  predicate Overruns(rest: string, word: string) {
    Fetched(rest, word) == |word| + 1
  }

  /** The last character of the literal is fetched but need not match. */
  lemma {:induction false} FoundWhen(rest: string, word: string)
    requires word != ""
    ensures Found(rest, word)
            <==> var n := |word| - 1;
                 |rest| > n && rest[..n] == word[..n] && (|rest| > n + 1 ==> rest[n] != word[n])
    ensures Overruns(rest, word) <==> |rest| > |word| && rest[..|word|] == word
    decreases |word|
  {
    if rest != "" && rest[0] == word[0] {
      if |word| > 1 {
        FoundWhen(rest[1..], word[1..]);
        Ahead(rest, word, |word| - 1);
        Ahead(rest, word, |word|);
      } else {
        assert word[1..] == "" && rest[..0] == word[..0];
        assert |rest| > 1 ==> rest[..1] == word;
      }
    } else if |word| == 1 {
      assert rest != "" ==> rest[..0] == word[..0];
    } else if |rest| > |word| - 1 {
      assert rest[..|word| - 1][0] == rest[0] && word[..|word| - 1][0] == word[0];
    }
  }

  lemma Ahead(a: string, b: string, n: nat)
    requires 0 < n <= |b| && a != "" && a[0] == b[0]
    ensures |a| >= n ==> (a[..n] == b[..n] <==> a[1..][..n - 1] == b[1..][..n - 1])
  {
    if |a| >= n {
      assert a[..n] == [a[0]] + a[1..][..n - 1];
      assert b[..n] == [b[0]] + b[1..][..n - 1];
    }
  }

  predicate Infinite(text: string) {
    BeginsWith(text, 'I') && Found(Unsigned(text), INFINITY)
  }

  predicate NotANumber(text: string) {
    BeginsWith(text, 'N') && Found(Unsigned(text), NOT_A_NUMBER)
  }

  // ------------------------------------------------------------------ the text

  function ShowNumber(text: string): string {
    if Hexadecimal(text) then Decimal(HexadecimalNumber(text))
    else if Infinite(text) then Minus(text) + LARGEST
    else if NotANumber(text) then "0"
    else if LeadingPoint(text) then Minus(text) + "0" + Unsigned(text)
    else if TrailingPoint(text) then WithoutPlus(text) + "0"
    else WithoutPlus(text)
  }

  /** Neither comparison runs past its literal. */
  predicate Comparable(text: string) {
    || Hexadecimal(text)
    || (&& (BeginsWith(text, 'I') ==> !Overruns(Unsigned(text), INFINITY))
        && (BeginsWith(text, 'N') ==> !Overruns(Unsigned(text), NOT_A_NUMBER)))
  }

  /** The size function leaves out a text that begins like infinity and is not. */
  predicate Uncounted(text: string) {
    !Hexadecimal(text) && BeginsWith(text, 'I') && !Infinite(text)
  }

  /** The texts that the size function counts as they are written. */
  predicate Writable(text: string) {
    Comparable(text) && !Uncounted(text)
  }

  lemma UncountedIsShown(text: string)
    requires Uncounted(text)
    ensures ShowNumber(text) == WithoutPlus(text) && ShowNumber(text) != ""
  {}

  lemma PointedShown(text: string)
    requires LeadingPoint(text) && !Hexadecimal(text)
    ensures text[SignLength(text)] != '-' && ShowNumber(text) == Minus(text) + "0" + Unsigned(text)
  {}

  lemma TrailingShown(text: string)
    requires !LeadingPoint(text) && TrailingPoint(text) && !Hexadecimal(text) && !Infinite(text) && !NotANumber(text)
    ensures SignLength(text) < |text| && text[SignLength(text)] != '-'
    ensures ShowNumber(text) == Minus(text) + Unsigned(text) + "0"
  {
    assert WithoutPlus(text) == Minus(text) + Unsigned(text);
  }

  // ------------------------------------------------------------------ numbers of the default grammar

  /** A number text of section 6 of RFC 8259. */
  ghost predicate IsNumber(text: string) {
    exists n :: ValidNum(n) && NumText(n) == text
  }

  lemma TailOfDigits(n: Num)
    requires ValidNum(n)
    ensures var tail := EmitFraction(n, "");
            && tail != "."
            && (tail != "" ==> tail[0] == '.' || tail[0] == 'e' || tail[0] == 'E')
            && (tail != "" && tail[0] == '.' ==> |tail| > 1 && IsDigit(tail[1]))
  {}

  lemma NumSplits(n: Num)
    requires ValidNum(n)
    ensures var text, tail := NumText(n), EmitFraction(n, "");
            && Unsigned(text) == n.digits + tail && SkipDigits(Unsigned(text)) == tail
            && Minus(text) == (if n.minus then "-" else "") && WithoutPlus(text) == text
            && BeginsWith(text, n.digits[0]) && IsDigit(n.digits[0])
            && !Hexadecimal(text)
  {
    var text, tail := NumText(n), EmitFraction(n, "");
    var unsigned := n.digits + tail;
    assert text == if n.minus then "-" + unsigned else unsigned;
    assert unsigned[0] == n.digits[0];
    assert Unsigned(text) == unsigned;
    TailOfDigits(n);
    DigitsRead(n.digits, tail);
  }

  /** No text of the default grammar reaches a special branch of the writer: it is copied as it is. */
  lemma NumberIsCopied(text: string)
    requires IsNumber(text) || text == "-"
    ensures Writable(text) && !LeadingPoint(text) && !TrailingPoint(text) && ShowNumber(text) == text
  {
    if IsNumber(text) {
      var n :| ValidNum(n) && NumText(n) == text;
      NumSplits(n);
      TailOfDigits(n);
    }
  }

  // ------------------------------------------------------------------ numbers of the other flags

  /** What json.h may take for a number under its flags: `sign` and `frac` may be there and empty. */
  datatype Extended =
    | Hex(x: char, digits: string)
    | Infinity(sign: string)
    | NaN(sign: string)
    | Usual(sign: string, digits: string, point: bool, frac: string, letter: string, expSign: string, exponent: string)

  function ExtendedText(x: Extended): string {
    match x
    case Hex(c, digits) => ['0', c] + digits
    case Infinity(sign) => sign + INFINITY
    case NaN(sign) => sign + NOT_A_NUMBER
    case Usual(sign, digits, _, _, _, _, _) => sign + (digits + UsualTail(x))
  }

  function UsualTail(x: Extended): string
    requires x.Usual?
  {
    (if x.point then "." + x.frac else "") + (x.letter + (x.expSign + x.exponent))
  }

  ghost predicate ValidExtended(x: Extended) {
    match x
    case Hex(c, digits) => (c == 'x' || c == 'X') && forall i | 0 <= i < |digits| :: IsHex(digits[i])
    case Infinity(sign) => sign in {"", "+", "-"}
    case NaN(sign) => sign in {"", "+", "-"}
    case Usual(sign, digits, point, frac, letter, expSign, exponent) =>
      && sign in {"", "+", "-"} && AllDigits(digits) && AllDigits(frac)
      && (digits != "" && digits[0] == '0' ==> |digits| == 1)
      && (!point ==> frac == "") && (digits != "" || frac != "")
      && ValidExponent(Num(false, digits, frac, letter, expSign, exponent))
  }

  /** The one form that the writer does not mend: a point with an exponent right behind it. */
  predicate PointBeforeExponent(x: Extended) {
    x.Usual? && x.point && x.frac == "" && x.letter != ""
  }

  lemma {:induction false} NoLeadingZero(n: nat)
    ensures Decimal(n) != "" && (Decimal(n)[0] == '0' ==> n == 0)
  {
    if n >= 10 { NoLeadingZero(n / 10); }
  }

  lemma DecimalIsNumber(n: nat)
    ensures IsNumber(Decimal(n))
  {
    DecimalIsDigits(n);
    NoLeadingZero(n);
    var num := Num(false, Decimal(n), "", "", "", "");
    assert ValidNum(num) && NumText(num) == Decimal(n);
  }

  lemma LargestDigits()
    ensures AllDigits(LARGEST_FRACTION) && |LARGEST_FRACTION| == 16 && |LARGEST| == 22
  {}

  lemma LargestIsNumber(minus: bool)
    ensures IsNumber((if minus then "-" else "") + LARGEST)
  {
    var n := Num(minus, "1", LARGEST_FRACTION, "e", "", "308");
    LargestDigits();
    assert ValidNum(n);
    assert EmitExponent(n, "") == "e" + "308";
    assert EmitFraction(n, "") == "." + (LARGEST_FRACTION + ("e" + "308"));
    assert NumText(n) == (if minus then "-" else "") + LARGEST;
  }

  lemma SignSplits(sign: string, unsigned: string)
    requires sign in {"", "+", "-"} && unsigned != "" && unsigned[0] != '+' && unsigned[0] != '-'
    ensures var text := sign + unsigned;
            && SignLength(text) == |sign| && Unsigned(text) == unsigned
            && Minus(text) == (if sign == "-" then "-" else "")
            && WithoutPlus(text) == Minus(text) + unsigned
            && forall c :: BeginsWith(text, c) <==> c == unsigned[0]
  {
    var text := sign + unsigned;
    if sign == "" {
      assert text == unsigned;
    } else {
      assert text[0] == sign[0] && text[1..] == unsigned;
    }
  }

  lemma UsualBegins(x: Extended)
    requires ValidExtended(x) && x.Usual?
    ensures var tail := UsualTail(x);
            && (tail != "" ==> !IsDigit(tail[0]))
            && (tail == "." <==> x.point && x.frac == "" && x.letter == "")
            && (x.digits == "" ==> tail != "" && tail[0] == '.')
            && (PointBeforeExponent(x) ==> |tail| > 1 && tail[0] == '.' && !IsDigit(tail[1]))
  {
    if x.point && x.letter == "" {
      assert UsualTail(x) == "." + x.frac;
    }
    if PointBeforeExponent(x) {
      assert UsualTail(x) == "." + (x.letter + (x.expSign + x.exponent));
    }
  }

  /** The parts of a usual text, as the writer sees them. */
  lemma UsualSplits(x: Extended)
    requires ValidExtended(x) && x.Usual?
    ensures var text, tail := ExtendedText(x), UsualTail(x);
            && x.digits + tail != "" && Unsigned(text) == x.digits + tail && SkipDigits(Unsigned(text)) == tail
            && Minus(text) == (if x.sign == "-" then "-" else "")
            && WithoutPlus(text) == Minus(text) + (x.digits + tail)
            && (LeadingPoint(text) <==> x.digits == "")
            && !BeginsWith(text, 'I') && !BeginsWith(text, 'N')
  {
    var tail := UsualTail(x);
    UsualBegins(x);
    var unsigned := x.digits + tail;
    assert unsigned != "" && (if x.digits == "" then unsigned[0] == '.' else IsDigit(unsigned[0]));
    SignSplits(x.sign, unsigned);
    DigitsRead(x.digits, tail);
  }

  ghost predicate NoX(s: string) {
    'x' !in s && 'X' !in s
  }

  lemma UsualIsNotHexadecimal(x: Extended)
    requires ValidExtended(x) && x.Usual?
    ensures !Hexadecimal(ExtendedText(x))
  {
    assert NoX(x.sign) && NoX(x.digits) && NoX(x.frac) && NoX(x.letter) && NoX(x.expSign) && NoX(x.exponent);
    assert NoX(x.letter + (x.expSign + x.exponent));
    assert NoX(UsualTail(x));
    assert NoX(ExtendedText(x));
  }

  /** The number a usual text is written as. */
  function Mended(x: Extended): Num
    requires x.Usual?
  {
    Num(x.sign == "-", if x.digits == "" then "0" else x.digits, if x.point && x.frac == "" then "0" else x.frac,
        x.letter, x.expSign, x.exponent)
  }

  lemma MendedIsValid(x: Extended)
    requires ValidExtended(x) && x.Usual? && !PointBeforeExponent(x)
    ensures ValidNum(Mended(x))
  {
    assert ValidExponent(Num(false, x.digits, x.frac, x.letter, x.expSign, x.exponent));
    assert AllDigits("0");
  }

  /** Behind the digits only the lone point changes. */
  lemma MendedFraction(x: Extended)
    requires ValidExtended(x) && x.Usual? && !PointBeforeExponent(x)
    ensures EmitFraction(Mended(x), "") == if UsualTail(x) == "." then UsualTail(x) + "0" else UsualTail(x)
  {
    UsualBegins(x);
    assert x.exponent + "" == x.exponent;
    assert EmitExponent(Mended(x), "") == x.letter + (x.expSign + x.exponent);
    if !x.point {
      assert UsualTail(x) == EmitExponent(Mended(x), "");
    } else if x.frac != "" {
      assert UsualTail(x) == "." + (x.frac + EmitExponent(Mended(x), ""));
    } else {
      assert UsualTail(x) == "." && EmitExponent(Mended(x), "") == "";
    }
  }

  lemma UsualIsMended(x: Extended)
    requires ValidExtended(x) && x.Usual? && !PointBeforeExponent(x)
    ensures IsNumber(ShowNumber(ExtendedText(x)))
  {
    UsualSplits(x);
    UsualBegins(x);
    UsualIsNotHexadecimal(x);
    MendedIsValid(x);
    MendedFraction(x);
    var n, minus, tail := Mended(x), if x.sign == "-" then "-" else "", UsualTail(x);
    MendedText(n, minus, x.digits, tail);
    assert NumText(n) == ShowNumber(ExtendedText(x));
  }

  lemma MendedText(n: Num, minus: string, digits: string, tail: string)
    requires minus == if n.minus then "-" else ""
    requires n.digits == if digits == "" then "0" else digits
    requires EmitFraction(n, "") == if tail == "." then tail + "0" else tail
    ensures digits == "" && tail != "." ==> NumText(n) == minus + "0" + (digits + tail)
    ensures digits != "" && tail == "." ==> NumText(n) == minus + (digits + tail) + "0"
    ensures digits != "" && tail != "." ==> NumText(n) == minus + (digits + tail)
  {
    NumOfParts(n, minus);
    if digits == "" {
      assert digits + tail == tail;
      Regrouped(minus, "0", tail);
    } else if tail == "." {
      Regrouped(digits, tail, "0");
      Regrouped(minus, digits + tail, "0");
    }
  }

  lemma NumOfParts(n: Num, minus: string)
    requires minus == if n.minus then "-" else ""
    ensures NumText(n) == minus + (n.digits + EmitFraction(n, ""))
  {}

  lemma Regrouped(a: string, b: string, c: string)
    ensures (a + b) + c == a + (b + c)
  {}

  lemma UsualIsNotMended(x: Extended)
    requires ValidExtended(x) && PointBeforeExponent(x)
    ensures !IsNumber(ShowNumber(ExtendedText(x)))
  {
    UsualSplits(x);
    UsualBegins(x);
    UsualIsNotHexadecimal(x);
    var text, tail := ExtendedText(x), UsualTail(x);
    var sign := if x.sign == "-" then "-" else "";
    var shown := ShowNumber(text);
    assert shown == sign + (x.digits + tail);
    SignSplits(sign, x.digits + tail);
    forall n | ValidNum(n) ensures NumText(n) != shown {
      NumSplits(n);
      TailOfDigits(n);
    }
  }

  /** A literal behind a sign is found. */
  lemma LiteralFound(sign: string, word: string)
    requires sign in {"", "+", "-"} && |word| >= 2 && word[0] != '+' && word[0] != '-' && NoX(word)
    ensures var text := sign + word;
            && !Hexadecimal(text) && Unsigned(text) == word && (forall c :: BeginsWith(text, c) <==> c == word[0])
            && Found(word, word) && !Overruns(word, word)
            && Minus(text) == if sign == "-" then "-" else ""
  {
    var text := sign + word;
    assert text[1] in sign || text[1] in word;
    SignSplits(sign, word);
    FoundWhen(word, word);
  }

  lemma Infinities(text: string)
    requires Infinite(text) && !Hexadecimal(text) && !Overruns(Unsigned(text), INFINITY)
    ensures ShowNumber(text) == Minus(text) + LARGEST && Writable(text)
  {
    assert !BeginsWith(text, 'N');
  }

  lemma NaNs(text: string)
    requires NotANumber(text) && !Hexadecimal(text) && !Overruns(Unsigned(text), NOT_A_NUMBER)
    ensures ShowNumber(text) == "0" && Writable(text)
  {
    assert !BeginsWith(text, 'I');
  }

  lemma Literals()
    ensures |INFINITY| == 8 && INFINITY[0] == 'I' && NoX(INFINITY)
    ensures |NOT_A_NUMBER| == 3 && NOT_A_NUMBER[0] == 'N' && NoX(NOT_A_NUMBER)
  {}

  lemma InfinityIsWritten(sign: string)
    requires sign in {"", "+", "-"}
    ensures Writable(sign + INFINITY) && IsNumber(ShowNumber(sign + INFINITY))
  {
    Literals();
    LiteralFound(sign, INFINITY);
    Infinities(sign + INFINITY);
    LargestIsNumber(sign == "-");
  }

  lemma NaNIsWritten(sign: string)
    requires sign in {"", "+", "-"}
    ensures Writable(sign + NOT_A_NUMBER) && IsNumber(ShowNumber(sign + NOT_A_NUMBER))
  {
    Literals();
    LiteralFound(sign, NOT_A_NUMBER);
    NaNs(sign + NOT_A_NUMBER);
    DecimalIsNumber(0);
    assert Decimal(0) == "0";
  }

  /**
    Every number the other flags allow is counted as it is written, and written as a number of the
    default grammar, except exactly where an exponent stands right behind a point.
  */
  lemma ExtendedIsWritten(x: Extended)
    requires ValidExtended(x)
    ensures Writable(ExtendedText(x))
    ensures IsNumber(ShowNumber(ExtendedText(x))) <==> !PointBeforeExponent(x)
  {
    match x {
      case Hex(_, _) => DecimalIsNumber(HexadecimalNumber(ExtendedText(x)));
      case Usual(_, _, _, _, _, _, _) =>
        UsualSplits(x);
        UsualIsNotHexadecimal(x);
        if PointBeforeExponent(x) { UsualIsNotMended(x); } else { UsualIsMended(x); }
      case Infinity(sign) => InfinityIsWritten(sign);
      case NaN(sign) => NaNIsWritten(sign);
    }
  }

  // ------------------------------------------------------------------ what exactly is written

  /** A hexadecimal number is written in decimal, or the largest word if it does not fit one. */
  lemma HexadecimalShown(c: char, h: string, ds: seq<nat>)
    requires (c == 'x' || c == 'X') && Spells(h, ds)
    ensures ShowNumber(['0', c] + h)
            == Decimal(if Base16(ds) < 0x1_0000_0000_0000_0000 then Base16(ds) else 0xFFFF_FFFF_FFFF_FFFF)
  {
    var text := ['0', c] + h;
    SpelledIsRead(h, ds);
    LeadHexAll(h);
    assert text[2..] == h;
  }

  lemma LargestIs()
    ensures LARGEST == "1.7976931348623158e308"
  {
    var front, back := "1" + ("." + LARGEST_FRACTION), "e" + "308";
    assert front == "1.7976931348623158";
    assert back == "e308";
    assert LARGEST == front + back;
    assert "1.7976931348623158" + "e308" == "1.7976931348623158e308";
  }

  lemma InfinityShown(sign: string)
    requires sign in {"", "+", "-"}
    ensures ShowNumber(sign + "Infinity") == (if sign == "-" then "-" else "") + "1.7976931348623158e308"
  {
    Literals();
    LiteralFound(sign, INFINITY);
    Infinities(sign + INFINITY);
    LargestIs();
  }

  lemma NaNShown(sign: string)
    requires sign in {"", "+", "-"}
    ensures ShowNumber(sign + "NaN") == "0"
  {
    Literals();
    LiteralFound(sign, NOT_A_NUMBER);
    NaNs(sign + NOT_A_NUMBER);
  }

  /** Of any other number the plus goes, and a point without digits on one side gets a zero there, unless an exponent follows. */
  lemma UsualShown(x: Extended)
    requires ValidExtended(x) && x.Usual?
    ensures ShowNumber(ExtendedText(x))
            == (if x.sign == "-" then "-" else "")
               + ((if x.digits == "" then "0" else x.digits)
                  + (if x.point && x.frac == "" && x.letter == "" then ".0" else UsualTail(x)))
  {
    var minus, tail := if x.sign == "-" then "-" else "", UsualTail(x);
    UsualSplits(x);
    UsualBegins(x);
    UsualIsNotHexadecimal(x);
    PartsShown(minus, x.digits, tail);
    if x.digits == "" {
      PointedShown(ExtendedText(x));
    } else if tail == "." {
      TrailingShown(ExtendedText(x));
    }
  }

  lemma PartsShown(minus: string, digits: string, tail: string)
    ensures digits == "" ==> minus + "0" + (digits + tail) == minus + ("0" + tail)
    ensures tail == "." ==> minus + (digits + tail) + "0" == minus + (digits + ".0")
  {
    if digits == "" {
      assert digits + tail == tail;
    }
    if tail == "." {
      assert (digits + tail) + "0" == digits + ".0";
    }
  }
}
