/**
  What the grammar comes to, character by character: which texts are accepted and what they are read as,
  for every character, escape, number and depth.
*/
module JsonSpelling {
  import opened JsonSyntax
  import opened JsonScan
  import opened JsonDom
  import opened JsonText
  import opened Numerals

  ghost predicate Accepts(text: string) {
    ScanDoc(text).Accepted?
  }

  // ------------------------------------------------------------------ strings

  /** A quote and what follows it. */
  lemma StringRead(r: string)
    ensures var x := ScanItems(r);
            && (Accepts("\"" + r) <==> x.Got? && SkipSpace(x.rest) == "")
            && (Accepts("\"" + r) ==> ReadsAs("\"" + r, Str(DecodeItems(x.t))))
  {
    var text := "\"" + r;
    assert text[0] == '"' && text[1..] == r && SkipSpace(text) == text;
  }

  lemma DocRead(text: string, d: Doc, v: Value)
    requires ValidDoc(d) && EmitDoc(d) == text && DecodeTree(d.v) == v
    ensures ReadsAs(text, v)
  {
    AcceptanceIsGrammar(text, d);
  }

  /** One valid item between quotes. */
  lemma ItemText(it: Item, text: string, s: string)
    requires ValidItem(it) && text == "\"" + EmitItem(it, "\"") && s == DecodeItem(it)
    ensures ReadsAs(text, Str(s))
  {
    var items := SCons(it, SEnd);
    OneItem(it);
    DocRead(text, Doc("", TStr(items), ""), Str(s));
  }

  lemma OneItem(it: Item)
    requires ValidItem(it)
    ensures var d := Doc("", TStr(SCons(it, SEnd)), "");
            ValidDoc(d) && EmitDoc(d) == "\"" + EmitItem(it, "\"") && DecodeTree(d.v) == Str(DecodeItem(it))
  {
    var s := SCons(it, SEnd);
    assert EmitItems(SEnd, "") == "\"" + "" == "\"";
    assert EmitItems(s, "") == EmitItem(it, "\"");
    assert DecodeItems(s) == DecodeItem(it) + "" == DecodeItem(it);
  }

  /** A character stands for itself between quotes unless it is a quote, a backslash or one of four controls. */
  lemma CharacterText(c: char)
    ensures c in ['"', '\\', '\0', '\t', '\r', '\n'] ==> !Accepts("\"" + [c, '"'])
    ensures c !in ['"', '\\', '\0', '\t', '\r', '\n'] ==> ReadsAs("\"" + [c, '"'], Str([c]))
  {
    if c !in ['"', '\\', '\0', '\t', '\r', '\n'] {
      assert [c] + "\"" == [c, '"'];
      ItemText(Plain(c), "\"" + [c, '"'], [c]);
    } else {
      var r := [c, '"'];
      assert r[1..] == ['"'] && r[1..][1..] == "";
      StringRead(r);
    }
  }

  const LETTERS: string := ['"', '\\', '/', 'b', 'f', 'n', 'r', 't']
  const ESCAPED: string := ['"', '\\', '/', 8 as char, 12 as char, 10 as char, 13 as char, 9 as char]

  /** A backslash goes with eight letters, each of which stands for one character. */
  lemma EscapeText(i: nat)
    requires i < 8
    ensures ReadsAs("\"" + ['\\', LETTERS[i], '"'], Str([ESCAPED[i]]))
  {
    var c := LETTERS[i];
    EscapeMeans(i);
    assert ['\\', c] + "\"" == ['\\', c, '"'];
    ItemText(Escape(c), "\"" + ['\\', c, '"'], [ESCAPED[i]]);
  }

  lemma EscapeMeans(i: nat)
    requires i < 8
    ensures ValidItem(Escape(LETTERS[i])) && DecodeItem(Escape(LETTERS[i])) == [ESCAPED[i]]
  {
    var c := LETTERS[i];
    assert IsEscapeLetter(c);
    assert EscapeChar(c) == ESCAPED[i];
  }

  /** And with no other, but for the u of the next lemma. */
  lemma EscapeRefused(c: char)
    requires c !in LETTERS
    ensures !Accepts("\"" + ['\\', c, '"'])
  {
    var r := ['\\', c, '"'];
    assert LETTERS[0] == '"' && LETTERS[1] == '\\' && LETTERS[2] == '/' && LETTERS[3] == 'b' && LETTERS[4] == 'f'
           && LETTERS[5] == 'n' && LETTERS[6] == 'r' && LETTERS[7] == 't';
    assert ScanItems(r).Bad?;
    StringRead(r);
  }

  /** Four digits in either case, behind backslash and u. */
  lemma UnicodeText(n: nat, h: string)
    requires n < 0x10000 && Spells(h, FourOf(n))
    ensures 0xD800 <= n <= 0xDFFF ==> !Accepts("\"" + ("\\u" + (h + "\"")))
    ensures !(0xD800 <= n <= 0xDFFF) ==> ReadsAs("\"" + ("\\u" + (h + "\"")), Str(Utf8(n)))
  {
    FourSpelled(n, h);
    if 0xD800 <= n <= 0xDFFF {
      LoneSurrogate(h);
      StringRead("\\u" + (h + "\""));
    } else {
      ItemText(Unicode(h), "\"" + ("\\u" + (h + "\"")), Utf8(n));
    }
  }

  lemma LoneSurrogate(h: string)
    requires FourHex(h) && 0xD800 <= HexValue(h) <= 0xDFFF
    ensures ScanItems("\\u" + (h + "\"")).Bad?
  {
    var r := "\\u" + (h + "\"");
    assert r[2..6] == h;
  }

  /** Two such escapes, of which the first is a high surrogate, are one character or refused. */
  lemma PairText(n: nat, m: nat, h: string, g: string)
    requires 0xD800 <= n <= 0xDBFF && m < 0x10000 && Spells(h, FourOf(n)) && Spells(g, FourOf(m))
    ensures !(0xDC00 <= m <= 0xDFFF) ==> !Accepts("\"" + ("\\u" + (h + ("\\u" + (g + "\"")))))
    ensures 0xDC00 <= m <= 0xDFFF ==>
              ReadsAs("\"" + ("\\u" + (h + ("\\u" + (g + "\"")))),
                      Str(Utf8(0x10000 + (n - 0xD800) * 0x400 + (m - 0xDC00))))
  {
    FourSpelled(n, h);
    FourSpelled(m, g);
    if 0xDC00 <= m <= 0xDFFF {
      PairMeans(n, m, h, g);
      ItemText(Pair(h, g), "\"" + ("\\u" + (h + ("\\u" + (g + "\"")))), Utf8(0x10000 + (n - 0xD800) * 0x400 + (m - 0xDC00)));
    } else {
      HalfPair(h, g);
      StringRead("\\u" + (h + ("\\u" + (g + "\""))));
    }
  }

  lemma PairMeans(n: nat, m: nat, h: string, g: string)
    requires FourHex(h) && HexValue(h) == n && FourHex(g) && HexValue(g) == m && 0xD800 <= n <= 0xDBFF && 0xDC00 <= m <= 0xDFFF
    ensures ValidItem(Pair(h, g))
    ensures DecodeItem(Pair(h, g)) == Utf8(0x10000 + (n - 0xD800) * 0x400 + (m - 0xDC00))
    ensures EmitItem(Pair(h, g), "\"") == "\\u" + (h + ("\\u" + (g + "\"")))
  {}

  lemma HalfPair(h: string, g: string)
    requires FourHex(h) && FourHex(g) && IsHighSurrogate(HexValue(h)) && !IsLowSurrogate(HexValue(g))
    ensures ScanItems("\\u" + (h + ("\\u" + (g + "\"")))).Bad?
  {
    var r := "\\u" + (h + ("\\u" + (g + "\"")));
    assert r[2..6] == h && r[8..12] == g;
  }

  /** The writers escape seven characters and no other; the solidus is written as it is. */
  lemma CharacterShown(c: char)
    ensures forall i | 0 <= i < 8 && i != 2 :: c == ESCAPED[i] ==> ShowString([c]) == ['"', '\\', LETTERS[i], '"']
    ensures (c == '/' || c !in ESCAPED) ==> ShowString([c]) == ['"', c, '"']
  {
    assert [c][1..] == "";
    assert ShowChars([c]) == ShowChar(c) + "" == ShowChar(c);
    assert ESCAPED[0] == '"' && ESCAPED[1] == '\\' && ESCAPED[3] == 8 as char && ESCAPED[4] == 12 as char
           && ESCAPED[5] == 10 as char && ESCAPED[6] == 13 as char && ESCAPED[7] == 9 as char;
  }

  // ------------------------------------------------------------------ blanks and words

  lemma Words()
    ensures ReadsAs("true", True) && ReadsAs("false", False) && ReadsAs("null", Null)
  {
    DocRead("true", Doc("", TTrue, ""), True);
    DocRead("false", Doc("", TFalse, ""), False);
    DocRead("null", Doc("", TNull, ""), Null);
  }

  /** Four characters may stand in front of a value. */
  lemma BlankInFront(c: char)
    ensures Accepts([c] + "null") <==> c in [' ', '\t', '\r', '\n']
  {
    var text := [c] + "null";
    assert text[1..] == "null";
    if c in [' ', '\t', '\r', '\n'] {
      AcceptanceIsGrammar(text, Doc([c], TNull, ""));
    } else {
      assert SkipSpace(text) == text;
      NoValue(c);
    }
  }

  lemma NoValue(c: char)
    requires c !in [' ', '\t', '\r', '\n']
    ensures !ScanTree([c] + "null", MAX_RECURSION).Got?
  {
    var text := [c] + "null";
    assert text[1..] == "null";
    if c == '"' {
      Unclosed("null");
    } else if c == '[' {
      assert ScanTree("null", MAX_RECURSION - 1) == Got(TNull, "");
    } else if c == '-' || IsDigit(c) {
      NoNumber(c);
    } else if c != '{' {
      assert text[..4][1] == 'n' && text[..5][1] == 'n';
    }
  }

  lemma NoNumber(c: char)
    requires c == '-' || IsDigit(c)
    ensures !ScanNum([c] + "null").Got?
  {
    var text := [c] + "null";
    assert text[1..] == "null";
    if IsDigit(c) {
      assert SkipDigits(text) == "null";
    }
  }

  lemma {:induction false} Unclosed(r: string)
    requires forall i | 0 <= i < |r| :: r[i] != '"' && r[i] != '\\'
    ensures !ScanItems(r).Got?
    decreases |r|
  {
    if r != "" { Unclosed(r[1..]); }
  }

  /** The same four may stand behind it. */
  lemma BlankBehind(c: char)
    ensures Accepts("null" + [c]) <==> c in [' ', '\t', '\r', '\n']
  {
    var text := "null" + [c];
    assert text[0] == 'n' && text[..4] == "null" && text[4..] == [c];
    assert !Starts("true", text) && !Starts("false", text) by {
      assert text[..5][0] == 'n';
    }
    assert [c][1..] == "";
  }

  // ------------------------------------------------------------------ numbers

  lemma NumberRead(r: string)
    requires r != "" && IsDigit(r[0])
    ensures Accepts(r) <==> ScanNum(r).Got? && SkipSpace(ScanNum(r).rest) == ""
  {
    assert SkipSpace(r) == r;
  }

  /** Digits are a number unless a zero is followed by more. */
  lemma IntegerText(d: string)
    requires d != "" && AllDigits(d)
    ensures Accepts(d) <==> |d| == 1 || d[0] != '0'
    ensures Accepts(d) ==> ReadsAs(d, Number(d)) && ReadsAs("-" + d, Number("-" + d))
  {
    NumberRead(d);
    if |d| == 1 || d[0] != '0' {
      NumberTextRead(Num(false, d, "", "", "", ""), d);
      NumberTextRead(Num(true, d, "", "", "", ""), "-" + d);
    }
  }

  lemma NumberTextRead(n: Num, text: string)
    requires ValidNum(n) && NumText(n) == text
    ensures ReadsAs(text, Number(text))
  {
    DocRead(text, Doc("", TNum(n), ""), Number(text));
  }

  /** The digits of a number in front of a point or an exponent. */
  ghost predicate Integer(d: string) {
    d != "" && AllDigits(d) && (|d| == 1 || d[0] != '0')
  }

  /** A point needs a digit behind it. */
  lemma FractionText(d: string, f: string)
    requires Integer(d) && AllDigits(f)
    ensures Accepts(d + ("." + f)) <==> f != ""
    ensures f != "" ==> ReadsAs(d + ("." + f), Number(d + ("." + f)))
  {
    var text := d + ("." + f);
    if f != "" {
      var n := Num(false, d, f, "", "", "");
      assert f + "" == f;
      NumberTextRead(n, text);
    } else {
      assert text[0] == d[0] && SkipSpace(text) == text;
      DigitsRead(d, "." + f);
      assert ("." + f)[1..] == "";
      assert |d| > 1 ==> text[1] == d[1];
    }
  }

  /** The exponent: a letter of two, a sign of two or none, and at least one digit. */
  lemma ExponentText(d: string, c: char, sign: string, e: string)
    requires Integer(d) && sign in {"", "+", "-"} && AllDigits(e) && (c == 'e' || c == 'E')
    ensures Accepts(d + ([c] + (sign + e))) <==> e != ""
    ensures e != "" ==> ReadsAs(d + ([c] + (sign + e)), Number(d + ([c] + (sign + e))))
  {
    var text := d + ([c] + (sign + e));
    if e != "" {
      var n := Num(false, d, "", [c], sign, e);
      assert e + "" == e;
      NumberTextRead(n, text);
    } else {
      assert text[0] == d[0] && SkipSpace(text) == text;
      assert sign + e == sign;
      DigitsRead(d, [c] + sign);
      assert ([c] + sign)[1..] == sign;
      assert |d| > 1 ==> text[1] == d[1];
      assert |d| == 1 ==> text[1] == c;
      assert sign != "" ==> sign[1..] == "";
    }
  }

  // ------------------------------------------------------------------ nesting

  function Repeated(c: char, n: nat): string {
    if n == 0 then "" else [c] + Repeated(c, n - 1)
  }

  lemma {:induction false} RepeatedSnoc(c: char, n: nat, k: string)
    ensures Repeated(c, n) + ([c] + k) == Repeated(c, n + 1) + k
  {
    if n > 0 {
      RepeatedSnoc(c, n - 1, k);
      assert Repeated(c, n) + ([c] + k) == [c] + (Repeated(c, n - 1) + ([c] + k));
    }
  }

  /** `n` arrays inside one another. */
  function Nest(n: nat): Tree
    requires n > 0
  {
    TArr(if n == 1 then EEnd("") else ECons("", "", Nest(n - 1), EEnd("")))
  }

  lemma {:induction false} NestSpelled(n: nat, k: string)
    requires n > 0
    ensures EmitTree(Nest(n), k) == Repeated('[', n) + (Repeated(']', n) + k)
  {
    if n == 1 {
      assert Repeated('[', 1) == "[" && Repeated(']', 1) == "]";
    } else {
      NestSpelled(n - 1, "]" + k);
      RepeatedSnoc(']', n - 1, k);
      assert EmitElems(EEnd(""), false, k) == "]" + k;
      assert EmitTree(Nest(n), k) == "[" + EmitTree(Nest(n - 1), "]" + k);
    }
  }

  lemma {:induction false} NestValid(n: nat, depth: nat)
    requires 0 < n <= depth
    ensures ValidTree(Nest(n), depth)
    decreases n
  {
    if n > 1 { NestValid(n - 1, depth - 1); }
  }

  lemma {:induction false} TooDeep(n: nat, depth: nat, r: string)
    requires depth < n
    ensures ScanTree(Repeated('[', n) + r, depth).Bad?
    decreases n
  {
    var text := Repeated('[', n) + r;
    assert text[0] == '[' && text[1..] == Repeated('[', n - 1) + r;
    if depth > 0 {
      TooDeep(n - 1, depth - 1, r);
      assert SkipSpace(text[1..]) == text[1..];
    }
  }

  /** Up to a thousand arrays inside one another are accepted, and no more. */
  lemma NestedText(n: nat)
    requires n > 0
    ensures Accepts(Repeated('[', n) + Repeated(']', n)) <==> n <= 1000
  {
    var text := Repeated('[', n) + Repeated(']', n);
    if n <= 1000 {
      var d := Doc("", Nest(n), "");
      NestSpelled(n, "");
      NestValid(n, MAX_RECURSION);
      assert Repeated(']', n) + "" == Repeated(']', n);
      assert EmitDoc(d) == text;
      AcceptanceIsGrammar(text, d);
    } else {
      TooDeep(n, MAX_RECURSION, Repeated(']', n));
      assert text[0] == '[' && SkipSpace(text) == text;
    }
  }
}
