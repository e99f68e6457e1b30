/**
  The grammar decision taken by the size pass of json.h (json_get_*_size), as functions on
  the unread suffix of the input, and its two partners: every tree it returns spells exactly
  the text it consumed (soundness), and every well-formed text is read back as the tree that
  spells it (completeness).
*/
module JsonScan {
  import opened JsonSyntax

  /**
    What a size-pass function does to its input.  `Over` is the third way to return 0: a number
    cut off after its exponent letter leaves `offset` one past the end of the input.
  */
  datatype Scan<+T> = Got(t: T, rest: string) | Over | Bad

  // ------------------------------------------------------------------ runs of one kind

  function SkipSpace(r: string): (s: string)
    ensures |s| <= |r|
  {
    if r != "" && IsSpace(r[0]) then SkipSpace(r[1..]) else r
  }

  function SkipDigits(r: string): (s: string)
    ensures |s| <= |r|
  {
    if r != "" && IsDigit(r[0]) then SkipDigits(r[1..]) else r
  }

  function Blanks(r: string): string {
    if r != "" && IsSpace(r[0]) then [r[0]] + Blanks(r[1..]) else ""
  }

  function Digits(r: string): string {
    if r != "" && IsDigit(r[0]) then [r[0]] + Digits(r[1..]) else ""
  }

  lemma {:induction false} SpaceSplits(r: string)
    ensures r == Blanks(r) + SkipSpace(r)
    ensures AllSpace(Blanks(r))
    ensures SkipSpace(r) != "" ==> !IsSpace(SkipSpace(r)[0])
  {
    if r != "" && IsSpace(r[0]) {
      SpaceSplits(r[1..]);
      assert r == [r[0]] + r[1..];
    }
  }

  lemma {:induction false} DigitsSplit(r: string)
    ensures r == Digits(r) + SkipDigits(r)
    ensures AllDigits(Digits(r))
    ensures SkipDigits(r) != "" ==> !IsDigit(SkipDigits(r)[0])
    ensures r != "" && IsDigit(r[0]) ==> Digits(r) != "" && Digits(r)[0] == r[0]
  {
    if r != "" && IsDigit(r[0]) {
      DigitsSplit(r[1..]);
      assert r == [r[0]] + r[1..];
    }
  }

  lemma {:induction false} SpaceReads(w: string, k: string)
    requires AllSpace(w)
    requires k != "" ==> !IsSpace(k[0])
    ensures SkipSpace(w + k) == k && Blanks(w + k) == w
  {
    if w == "" {
      assert w + k == k;
    } else {
      assert (w + k)[0] == w[0] && (w + k)[1..] == w[1..] + k;
      assert w == [w[0]] + w[1..];
      SpaceReads(w[1..], k);
    }
  }

  lemma {:induction false} DigitsRead(w: string, k: string)
    requires AllDigits(w)
    requires k != "" ==> !IsDigit(k[0])
    ensures SkipDigits(w + k) == k && Digits(w + k) == w
  {
    if w == "" {
      assert w + k == k;
    } else {
      assert (w + k)[0] == w[0] && (w + k)[1..] == w[1..] + k;
      assert w == [w[0]] + w[1..];
      DigitsRead(w[1..], k);
    }
  }

  // ------------------------------------------------------------------ strings

  /**
    json_get_string_size after the opening quote.  A surrogate pair takes two turns of its loop;
    here it is one step, guarded by what both turns check.
  */
  function ScanItems(r: string): (x: Scan<Items>)
    ensures x.Got? ==> |x.rest| < |r|
    ensures !x.Over?
  {
    if r == "" then Bad
    else if r[0] == '"' then Got(SEnd, r[1..])
    else if r[0] != '\\' then
      if IsForbidden(r[0]) then Bad else Then(Plain(r[0]), ScanItems(r[1..]))
    else if |r| == 1 then Bad
    else if IsEscapeLetter(r[1]) then Then(Escape(r[1]), ScanItems(r[2..]))
    else if !HasUnicode(r) then Bad
    else
      var n := HexValue(r[2..6]);
      if IsLowSurrogate(n) then Bad
      else if !IsHighSurrogate(n) then Then(Unicode(r[2..6]), ScanItems(r[6..]))
      else if |r| >= 13 && HasUnicode(r[6..]) && (assert r[6..][2..6] == r[8..12]; IsLowSurrogate(HexValue(r[8..12]))) then
        Then(Pair(r[2..6], r[8..12]), ScanItems(r[12..]))
      else Bad
  }

  function Then(it: Item, x: Scan<Items>): Scan<Items> {
    match x
    case Got(s, rest) => Got(SCons(it, s), rest)
    case _ => x
  }

  /** A unicode escape with at least one more character behind it. */
  predicate HasUnicode(r: string)
    ensures HasUnicode(r) ==> |r| >= 7 && FourHex(r[2..6])
  {
    && |r| >= 7 && r[0] == '\\' && r[1] == 'u'
    && IsHex(r[2]) && IsHex(r[3]) && IsHex(r[4]) && IsHex(r[5])
  }

  lemma {:induction false} ItemsSound(r: string)
    requires ScanItems(r).Got?
    ensures ValidItems(ScanItems(r).t)
    ensures r == EmitItems(ScanItems(r).t, ScanItems(r).rest)
    decreases |r|
  {
    var x := ScanItems(r);
    if x.t.SCons? {
      var q := ItemSound(r);
      ItemsSound(q);
    }
  }

  /** The first item of an accepted string, and the rest of it. */
  lemma ItemSound(r: string) returns (q: string)
    requires ScanItems(r).Got? && ScanItems(r).t.SCons?
    ensures var x := ScanItems(r);
            && ValidItem(x.t.head) && r == EmitItem(x.t.head, q)
            && |q| < |r| && ScanItems(q) == Got(x.t.tail, x.rest)
  {
    if r[0] != '\\' {
      q := r[1..];
    } else if IsEscapeLetter(r[1]) {
      q := r[2..];
    } else {
      q := UnicodeSound(r);
    }
  }

  /** The same for an item that begins with a unicode escape. */
  lemma UnicodeSound(r: string) returns (q: string)
    requires ScanItems(r).Got? && ScanItems(r).t.SCons? && HasUnicode(r)
    ensures var x := ScanItems(r);
            && ValidItem(x.t.head) && r == EmitItem(x.t.head, q)
            && |q| < |r| && ScanItems(q) == Got(x.t.tail, x.rest)
  {
    UnicodeSpelled(r);
    if IsHighSurrogate(HexValue(r[2..6])) {
      q := r[12..];
      UnicodeSpelled(r[6..]);
      assert r[6..][6..] == r[12..] && r[6..][2..6] == r[8..12];
    } else {
      q := r[6..];
    }
  }

  lemma UnicodeSpelled(r: string)
    requires |r| >= 6 && r[0] == '\\' && r[1] == 'u'
    ensures r == "\\u" + (r[2..6] + r[6..])
  {}

  lemma EmitItemsNonempty(s: Items, k: string)
    ensures EmitItems(s, k) != ""
  {}

  lemma {:induction false} ItemsComplete(s: Items, k: string)
    requires ValidItems(s)
    ensures ScanItems(EmitItems(s, k)) == Got(s, k)
  {
    if s.SCons? {
      ItemsComplete(s.tail, k);
      EmitItemsNonempty(s.tail, k);
      ItemComplete(s.head, EmitItems(s.tail, k), s.tail, k);
    }
  }

  lemma ItemComplete(it: Item, q: string, tail: Items, k: string)
    requires ValidItem(it) && q != "" && ScanItems(q) == Got(tail, k)
    ensures ScanItems(EmitItem(it, q)) == Got(SCons(it, tail), k)
  {
    var r := EmitItem(it, q);
    match it {
      case Plain(c) => assert r[1..] == q;
      case Escape(c) => assert r[2..] == q;
      case Unicode(h) => assert r[2..6] == h && r[6..] == q;
      case Pair(hi, lo) => PairComplete(hi, lo, q, tail, k);
    }
  }

  lemma PairComplete(hi: string, lo: string, q: string, tail: Items, k: string)
    requires ValidItem(Pair(hi, lo)) && q != "" && ScanItems(q) == Got(tail, k)
    ensures ScanItems(EmitItem(Pair(hi, lo), q)) == Got(SCons(Pair(hi, lo), tail), k)
  {
    var r := EmitItem(Pair(hi, lo), q);
    var r6 := "\\u" + (lo + q);
    assert r == "\\u" + (hi + r6);
    assert r[2..6] == hi && r[6..] == r6;
    assert r6[2..6] == lo && r6[6..] == q;
    assert r[8..12] == lo && r[12..] == q;
  }

  // ------------------------------------------------------------------ numbers

  /** What may follow a number: blanks, a comma, a closing bracket, or the end of the input. */
  predicate EndsNumber(r: string) {
    r != "" ==> IsSpace(r[0]) || r[0] == '}' || r[0] == ',' || r[0] == ']'
  }

  predicate IsExpLetter(c: char) {
    c == 'e' || c == 'E'
  }

  predicate IsSign(c: char) {
    c == '+' || c == '-'
  }

  /** json_get_number_size, json.h:1336-1383: the exponent and the character behind the number. */
  function ScanExponent(n: Num, r: string): (x: Scan<Num>)
    ensures x.Got? ==> |x.rest| <= |r|
  {
    if r != "" && IsExpLetter(r[0]) then
      var r1 := r[1..];
      var signed := r1 != "" && IsSign(r1[0]);
      var r2 := if signed then r1[1..] else r1;
      var sign := if signed then r1[..1] else "";
      if r2 == "" then Over
      else if !IsDigit(r2[0]) then Bad
      else EndNumber(n.(letter := r[..1], sign := sign, exponent := Digits(r2)), SkipDigits(r2))
    else EndNumber(n, r)
  }

  function EndNumber(n: Num, r: string): Scan<Num> {
    if EndsNumber(r) then Got(n, r) else Bad
  }

  /** json_get_number_size, json.h:1316-1334. */
  function ScanFraction(n: Num, r: string): (x: Scan<Num>)
    ensures x.Got? ==> |x.rest| <= |r|
  {
    if r == "" || r[0] != '.' then ScanExponent(n, r)
    else if |r| == 1 || !IsDigit(r[1]) then Bad
    else ScanExponent(n.(frac := Digits(r[1..])), SkipDigits(r[1..]))
  }

  /** json_get_number_size. */
  function ScanNum(r: string): (x: Scan<Num>)
    requires r != "" && (r[0] == '-' || IsDigit(r[0]))
    ensures x.Got? ==> |x.rest| < |r|
  {
    var minus := r[0] == '-';
    var r1 := if minus then r[1..] else r;
    if r1 != "" && !IsDigit(r1[0]) then Bad
    else if |r1| > 1 && r1[0] == '0' && IsDigit(r1[1]) then Bad
    else
      DigitsSplit(r1);
      var n := Num(minus, Digits(r1), "", "", "", "");
      ScanFraction(n, SkipDigits(r1))
  }

  ghost predicate NoExponent(n: Num) {
    n.letter == "" && n.sign == "" && n.exponent == ""
  }

  lemma ExponentSound(n: Num, r: string)
    requires NoExponent(n)
    requires ScanExponent(n, r).Got?
    ensures var x := ScanExponent(n, r);
            && x.t.(letter := "", sign := "", exponent := "") == n
            && ValidExponent(x.t)
            && r == EmitExponent(x.t, x.rest)
            && EndsNumber(x.rest)
            && (r == "" ==> x.t == n && x.rest == "")
  {
    var x := ScanExponent(n, r);
    if r != "" && IsExpLetter(r[0]) {
      SignedExponentSound(n, r);
    } else {
      assert r == EmitExponent(n, r);
    }
  }

  lemma SignedExponentSound(n: Num, r: string)
    requires NoExponent(n)
    requires ScanExponent(n, r).Got?
    requires r != "" && IsExpLetter(r[0])
    ensures var x := ScanExponent(n, r);
            && x.t.(letter := "", sign := "", exponent := "") == n
            && ValidExponent(x.t)
            && r == EmitExponent(x.t, x.rest)
            && EndsNumber(x.rest)
  {
    var x := ScanExponent(n, r);
    var r1 := r[1..];
    var r2 := if r1 != "" && IsSign(r1[0]) then r1[1..] else r1;
    DigitsSplit(r2);
    assert x.t.sign == "" || x.t.sign == [r1[0]];
    assert r1 == x.t.sign + r2;
    assert r == x.t.letter + r1;
  }

  /** A scanned number is one of section 6 of RFC 8259, except for a minus sign ending the input. */
  lemma NumSound(r: string)
    requires r != "" && (r[0] == '-' || IsDigit(r[0]))
    requires ScanNum(r).Got?
    ensures var x := ScanNum(r);
            && r == EmitNum(x.t, x.rest)
            && EndsNumber(x.rest)
            && (ValidNum(x.t) || (x.t == BareMinus && x.rest == ""))
  {
    var x := ScanNum(r);
    var minus := r[0] == '-';
    var r1 := if minus then r[1..] else r;
    DigitsSplit(r1);
    var n := Num(minus, Digits(r1), "", "", "", "");
    FractionSound(n, SkipDigits(r1));
    Assembled(r, r1, x.t, x.rest);
    if r1 != "" && r1[0] == '0' {
      LoneZero(r1);
    }
  }

  lemma Assembled(r: string, r1: string, n: Num, k: string)
    requires r1 == n.digits + EmitFraction(n, k)
    requires if n.minus then r != "" && r[0] == '-' && r[1..] == r1 else r == r1
    ensures r == EmitNum(n, k)
  {}

  lemma FractionSound(n: Num, r: string)
    requires NoExponent(n) && n.frac == ""
    requires ScanFraction(n, r).Got?
    ensures var x := ScanFraction(n, r);
            && x.t.(frac := "", letter := "", sign := "", exponent := "") == n
            && ValidExponent(x.t) && AllDigits(x.t.frac)
            && r == EmitFraction(x.t, x.rest)
            && EndsNumber(x.rest)
            && (r == "" ==> x.t == n && x.rest == "")
  {
    if r == "" || r[0] != '.' {
      ExponentSound(n, r);
    } else {
      DigitsSplit(r[1..]);
      ExponentSound(n.(frac := Digits(r[1..])), SkipDigits(r[1..]));
      assert r == "." + r[1..];
    }
  }

  lemma LoneZero(r: string)
    requires r != "" && r[0] == '0' && !(|r| > 1 && IsDigit(r[1]))
    ensures |Digits(r)| == 1
  {
    assert SkipDigits(r) == r[1..];
  }

  lemma ExponentComplete(n: Num, k: string)
    requires ValidExponent(n) && EndsNumber(k)
    ensures ScanExponent(n.(letter := "", sign := "", exponent := ""), EmitExponent(n, k)) == Got(n, k)
  {
    if n.letter == "" {
      assert EmitExponent(n, k) == k;
    } else {
      SignedExponentComplete(n, k);
    }
  }

  lemma SignedExponentComplete(n: Num, k: string)
    requires ValidExponent(n) && n.letter != "" && EndsNumber(k)
    ensures ScanExponent(n.(letter := "", sign := "", exponent := ""), EmitExponent(n, k)) == Got(n, k)
  {
    LetterRead(n.letter, n.sign + (n.exponent + k));
    ExponentDigitsRead(n.exponent, k);
    SignRead(n.sign, n.exponent + k);
  }

  lemma LetterRead(letter: string, r: string)
    requires letter == "e" || letter == "E"
    ensures var s := letter + r; IsExpLetter(s[0]) && s[..1] == letter && s[1..] == r
  {}

  lemma ExponentDigitsRead(exponent: string, k: string)
    requires exponent != "" && AllDigits(exponent) && EndsNumber(k)
    ensures var s := exponent + k; IsDigit(s[0]) && Digits(s) == exponent && SkipDigits(s) == k
  {
    DigitsRead(exponent, k);
  }

  lemma SignRead(sign: string, r: string)
    requires sign in {"", "+", "-"} && r != "" && IsDigit(r[0])
    ensures var s := sign + r;
            && (IsSign(s[0]) <==> sign != "")
            && (if IsSign(s[0]) then s[..1] == sign && s[1..] == r else s == r)
  {
    if sign == "" {
      assert sign + r == r;
    }
  }

  lemma ExponentStarts(n: Num, k: string)
    requires ValidExponent(n) && EndsNumber(k)
    ensures var e := EmitExponent(n, k);
            e != "" ==> !IsDigit(e[0]) && e[0] != '.'
  {
    var e := EmitExponent(n, k);
    if n.letter == "" {
      assert e == k;
    } else {
      assert e[0] == n.letter[0];
    }
  }

  lemma FractionComplete(n: Num, k: string)
    requires AllDigits(n.frac) && ValidExponent(n) && EndsNumber(k)
    ensures ScanFraction(n.(frac := "", letter := "", sign := "", exponent := ""), EmitFraction(n, k)) == Got(n, k)
    ensures EmitFraction(n, k) != "" ==> !IsDigit(EmitFraction(n, k)[0])
  {
    var e := EmitExponent(n, k);
    ExponentComplete(n, k);
    ExponentStarts(n, k);
    if n.frac != "" {
      var r := EmitFraction(n, k);
      assert r[1..] == n.frac + e;
      DigitsRead(n.frac, e);
    }
  }

  lemma NumComplete(n: Num, k: string)
    requires ValidNum(n) && EndsNumber(k)
    ensures var r := EmitNum(n, k);
            && r != "" && (r[0] == '-' || IsDigit(r[0]))
            && ScanNum(r) == Got(n, k)
  {
    var f := EmitFraction(n, k);
    var r1 := n.digits + f;
    var r := EmitNum(n, k);
    assert n.minus ==> r[1..] == r1;
    FractionComplete(n, k);
    DigitsRead(n.digits, f);
    if |r1| > 1 && r1[0] == '0' {
      assert r1[1] == f[0];
    }
  }

  // ------------------------------------------------------------------ values

  /** json_get_value_size behind its blanks; `depth` is the nesting still allowed. */
  function ScanTree(r: string, depth: nat): (x: Scan<Tree>)
    requires r != ""
    ensures x.Got? ==> |x.rest| < |r|
    decreases |r|, 0
  {
    match r[0]
    case '"' =>
      (match ScanString(r)
       case Got(s, rest) => Got(TStr(s), rest)
       case _ => Bad)
    case '{' =>
      if depth == 0 then Bad
      else (match ScanMembers(r[1..], true, depth - 1)
            case Got(ms, rest) => Got(TObj(ms), rest)
            case Over => Over
            case Bad => Bad)
    case '[' =>
      if depth == 0 then Bad
      else (match ScanElems(r[1..], true, depth - 1)
            case Got(es, rest) => Got(TArr(es), rest)
            case _ => Bad)
    case _ =>
      if r[0] == '-' || IsDigit(r[0]) then
        (match ScanNum(r)
         case Got(n, rest) => Got(TNum(n), rest)
         case Over => Over
         case Bad => Bad)
      else ScanWord(r)
  }

  function ScanWord(r: string): (x: Scan<Tree>)
    ensures x.Got? ==> |x.rest| < |r|
    ensures !x.Over?
  {
    if Starts("true", r) then Got(TTrue, r[4..])
    else if Starts("false", r) then Got(TFalse, r[5..])
    else if Starts("null", r) then Got(TNull, r[4..])
    else Bad
  }

  predicate Starts(word: string, r: string) {
    |word| <= |r| && r[..|word|] == word
  }

  lemma StartsWith(word: string, k: string)
    ensures Starts(word, word + k) && (word + k)[|word|..] == k
    ensures forall w | w != "" && Starts(w, word + k) && word != "" :: w[0] == word[0]
  {
    forall w | w != "" && Starts(w, word + k) && word != "" ensures w[0] == word[0] {
      assert (word + k)[..|w|][0] == word[0];
    }
  }

  /** The loop of json_get_array_size; `first` until an element has been read. */
  function ScanElems(r: string, first: bool, depth: nat): (x: Scan<Elems>)
    ensures x.Got? ==> |x.rest| < |r|
    ensures !x.Over?
    decreases |r|, 1
  {
    var r1 := SkipSpace(r);
    if r1 == "" then Bad
    else if r1[0] == ']' then Got(EEnd(Blanks(r)), r1[1..])
    else if !first && r1[0] != ',' then Bad
    else
      var r2 := if first then r1 else SkipSpace(r1[1..]);
      var gap := if first then "" else Blanks(r1[1..]);
      if r2 == "" then Bad
      else
        match ScanTree(r2, depth)
        case Got(v, r3) =>
          (match ScanElems(r3, false, depth)
           case Got(tail, rest) => Got(ECons(Blanks(r), gap, v, tail), rest)
           case _ => Bad)
        case _ => Bad
  }

  /**
    The loop of json_get_object_size.  A member value cut off after its exponent letter ends
    the loop with `offset` past `size`, which the function does not take for an error.
  */
  function ScanMembers(r: string, first: bool, depth: nat): (x: Scan<Members>)
    ensures x.Got? ==> |x.rest| < |r|
    decreases |r|, 1
  {
    var r1 := SkipSpace(r);
    if r1 == "" then Bad
    else if r1[0] == '}' then Got(MEnd(Blanks(r)), r1[1..])
    else if !first && r1[0] != ',' then Bad
    else
      var r2 := if first then r1 else SkipSpace(r1[1..]);
      var gap := if first then "" else Blanks(r1[1..]);
      match ScanKey(r2)
      case Got(k, r3) =>
        (match ScanTree(r3, depth)
         case Got(v, r4) =>
           (match ScanMembers(r4, false, depth)
            case Got(tail, rest) => Got(MCons(Blanks(r), gap, k.key, k.before, k.after, v, tail), rest)
            case Over => Over
            case Bad => Bad)
         case Over => Over
         case Bad => Bad)
      case _ => Bad
  }

  /** A member up to its value: the key, the blanks around the colon, the colon. */
  datatype Key = Key(key: Items, before: string, after: string)

  function ScanKey(r: string): (x: Scan<Key>)
    ensures x.Got? ==> x.rest != "" && |x.rest| < |r|
    ensures !x.Over?
  {
    match ScanString(r)
    case Got(s, r1) => ScanColon(s, r1)
    case _ => Bad
  }

  function ScanString(r: string): (x: Scan<Items>)
    ensures x.Got? ==> |x.rest| < |r|
    ensures !x.Over?
  {
    if r == "" || r[0] != '"' then Bad else ScanItems(r[1..])
  }

  function ScanColon(key: Items, r: string): (x: Scan<Key>)
    ensures x.Got? ==> x.rest != "" && |x.rest| < |r|
    ensures !x.Over?
  {
    var r1 := SkipSpace(r);
    if r1 == "" || r1[0] != ':' then Bad
    else
      var r2 := SkipSpace(r1[1..]);
      if r2 == "" then Bad else Got(Key(key, Blanks(r), Blanks(r1[1..])), r2)
  }

  function EmitKey(k: Key, rest: string): string {
    "\"" + EmitItems(k.key, k.before + (":" + (k.after + rest)))
  }

  ghost predicate ValidKey(k: Key) {
    ValidItems(k.key) && AllSpace(k.before) && AllSpace(k.after)
  }

  lemma KeySound(r: string)
    requires ScanKey(r).Got?
    ensures ValidKey(ScanKey(r).t)
    ensures r == EmitKey(ScanKey(r).t, ScanKey(r).rest)
  {
    var x := ScanString(r);
    var k := ScanKey(r).t;
    StringSound(r);
    SpaceSplits(x.rest);
    ColonSound(SkipSpace(x.rest));
    assert x.rest == k.before + (":" + (k.after + ScanKey(r).rest));
  }

  lemma ColonSound(r: string)
    requires r != "" && r[0] == ':'
    ensures r == ":" + (Blanks(r[1..]) + SkipSpace(r[1..])) && AllSpace(Blanks(r[1..]))
  {
    SpaceSplits(r[1..]);
    assert r == ":" + r[1..];
  }

  lemma KeyComplete(k: Key, rest: string)
    requires ValidKey(k)
    requires rest != "" && !IsSpace(rest[0])
    ensures ScanKey(EmitKey(k, rest)) == Got(k, rest)
  {
    var q := ":" + (k.after + rest);
    StringComplete(k.key, k.before + q);
    SpaceReads(k.before, q);
    SpaceReads(k.after, rest);
    assert q[1..] == k.after + rest;
  }

  // ------------------------------------------------------------------ soundness

  /** A value is well-formed, or it is the bare minus that ends the input. */
  ghost predicate ValidOrBare(t: Tree, depth: nat, rest: string) {
    ValidTree(t, depth) || (t == TNum(BareMinus) && rest == "")
  }

  lemma {:induction false} TreeSound(r: string, depth: nat)
    requires r != "" && ScanTree(r, depth).Got?
    ensures var x := ScanTree(r, depth);
            r == EmitTree(x.t, x.rest) && ValidOrBare(x.t, depth, x.rest)
    decreases |r|, 0
  {
    match r[0] {
      case '"' => StringSound(r);
      case '{' =>
        MembersSound(r[1..], true, depth - 1);
        ObjectSound(r, depth);
      case '[' =>
        ElemsSound(r[1..], true, depth - 1);
        ArraySound(r, depth);
      case _ => if r[0] == '-' || IsDigit(r[0]) { NumSound(r); } else { WordSound(r); }
    }
  }

  lemma StringSound(r: string)
    requires ScanString(r).Got?
    ensures ValidItems(ScanString(r).t)
    ensures r == "\"" + EmitItems(ScanString(r).t, ScanString(r).rest)
  {
    ItemsSound(r[1..]);
    assert r == "\"" + r[1..];
  }

  lemma ObjectSound(r: string, depth: nat)
    requires r != "" && r[0] == '{' && depth > 0
    requires var m := ScanMembers(r[1..], true, depth - 1);
             m.Got? && r[1..] == EmitMembers(m.t, true, m.rest) && ValidMembers(m.t, true, depth - 1)
    ensures var x := ScanTree(r, depth);
            x.Got? && r == EmitTree(x.t, x.rest) && ValidTree(x.t, depth)
  {
    assert r == "{" + r[1..];
  }

  lemma ArraySound(r: string, depth: nat)
    requires r != "" && r[0] == '[' && depth > 0
    requires var m := ScanElems(r[1..], true, depth - 1);
             m.Got? && r[1..] == EmitElems(m.t, true, m.rest) && ValidElems(m.t, true, depth - 1)
    ensures var x := ScanTree(r, depth);
            x.Got? && r == EmitTree(x.t, x.rest) && ValidTree(x.t, depth)
  {
    assert r == "[" + r[1..];
  }

  lemma WordSound(r: string)
    requires ScanWord(r).Got?
    ensures var x := ScanWord(r);
            r == EmitTree(x.t, x.rest) && (x.t.TNull? || x.t.TTrue? || x.t.TFalse?)
  {
    var n := if ScanWord(r).t.TFalse? then 5 else 4;
    assert r == r[..n] + r[n..];
  }

  /** What both comma loops consume in front of an item starting at `r2`. */
  lemma SeparatorSound(r: string, first: bool, gap: string, r2: string)
    requires SkipSpace(r) != ""
    requires if first then gap == "" && r2 == SkipSpace(r)
             else SkipSpace(r)[0] == ',' && gap == Blanks(SkipSpace(r)[1..]) && r2 == SkipSpace(SkipSpace(r)[1..])
    ensures r == Blanks(r) + (Comma(first) + (gap + r2))
    ensures AllSpace(Blanks(r)) && AllSpace(gap)
  {
    var r1 := SkipSpace(r);
    SpaceSplits(r);
    if first {
      assert r1 == "" + ("" + r2);
    } else {
      SpaceSplits(r1[1..]);
      assert r1 == "," + r1[1..];
    }
  }

  lemma {:induction false} ElemsSound(r: string, first: bool, depth: nat)
    requires ScanElems(r, first, depth).Got?
    ensures var x := ScanElems(r, first, depth);
            r == EmitElems(x.t, first, x.rest) && ValidElems(x.t, first, depth)
    decreases |r|, 1
  {
    var x := ScanElems(r, first, depth);
    var r1 := SkipSpace(r);
    if r1[0] == ']' {
      SpaceSplits(r);
      assert r1 == "]" + r1[1..];
    } else {
      var r2 := if first then r1 else SkipSpace(r1[1..]);
      SeparatorSound(r, first, x.t.gap, r2);
      TreeSound(r2, depth);
      ElemsSound(ScanTree(r2, depth).rest, false, depth);
    }
  }

  lemma {:induction false} MembersSound(r: string, first: bool, depth: nat)
    requires ScanMembers(r, first, depth).Got?
    ensures var x := ScanMembers(r, first, depth);
            r == EmitMembers(x.t, first, x.rest) && ValidMembers(x.t, first, depth)
    decreases |r|, 1
  {
    var x := ScanMembers(r, first, depth);
    var r1 := SkipSpace(r);
    if r1[0] == '}' {
      SpaceSplits(r);
      assert r1 == "}" + r1[1..];
    } else {
      var r2 := if first then r1 else SkipSpace(r1[1..]);
      SeparatorSound(r, first, x.t.gap, r2);
      var k := ScanKey(r2);
      KeySound(r2);
      TreeSound(k.rest, depth);
      MembersSound(ScanTree(k.rest, depth).rest, false, depth);
      assert r2 == EmitKey(k.t, EmitTree(x.t.v, EmitMembers(x.t.tail, false, x.rest)));
    }
  }

  // ------------------------------------------------------------------ completeness

  lemma TreeStarts(t: Tree, depth: nat, k: string)
    requires ValidTree(t, depth)
    ensures var r := EmitTree(t, k);
            r != "" && !IsSpace(r[0]) && r[0] != ']' && r[0] != '}' && r[0] != ','
  {
    if t.TNum? {
      assert EmitTree(t, k)[0] == if t.n.minus then '-' else t.n.digits[0];
    }
  }

  lemma TailEndsNumber(w: string, k: string)
    requires AllSpace(w) && EndsNumber(k)
    ensures EndsNumber(w + k)
  {
    if w == "" { assert w + k == k; }
  }

  lemma WordComplete(t: Tree, k: string)
    requires t.TNull? || t.TTrue? || t.TFalse?
    ensures EmitTree(t, k) != "" && ScanWord(EmitTree(t, k)) == Got(t, k)
    ensures var c := EmitTree(t, k)[0]; c == 'n' || c == 't' || c == 'f'
  {
    var word := if t.TNull? then "null" else if t.TTrue? then "true" else "false";
    assert EmitTree(t, k) == word + k;
    StartsWith(word, k);
    assert EmitTree(t, k)[0] == word[0];
  }

  lemma StringComplete(s: Items, k: string)
    requires ValidItems(s)
    ensures ScanString("\"" + EmitItems(s, k)) == Got(s, k)
  {
    ItemsComplete(s, k);
    assert ("\"" + EmitItems(s, k))[1..] == EmitItems(s, k);
  }

  lemma {:induction false} ArrayComplete(es: Elems, depth: nat, k: string)
    requires depth > 0 && ValidElems(es, true, depth - 1)
    ensures ScanTree("[" + EmitElems(es, true, k), depth) == Got(TArr(es), k)
    decreases es, 1
  {
    ElemsComplete(es, true, depth - 1, k);
    assert ("[" + EmitElems(es, true, k))[1..] == EmitElems(es, true, k);
  }

  lemma {:induction false} ObjectComplete(ms: Members, depth: nat, k: string)
    requires depth > 0 && ValidMembers(ms, true, depth - 1)
    ensures ScanTree("{" + EmitMembers(ms, true, k), depth) == Got(TObj(ms), k)
    decreases ms, 1
  {
    MembersComplete(ms, true, depth - 1, k);
    assert ("{" + EmitMembers(ms, true, k))[1..] == EmitMembers(ms, true, k);
  }

  lemma {:induction false} TreeComplete(t: Tree, depth: nat, k: string)
    requires ValidTree(t, depth) && EndsNumber(k)
    ensures EmitTree(t, k) != "" && ScanTree(EmitTree(t, k), depth) == Got(t, k)
    decreases t, 0
  {
    match t {
      case TNum(n) => NumberComplete(n, depth, k);
      case TStr(s) => StringComplete(s, k);
      case TArr(es) =>
        ArrayComplete(es, depth, k);
      case TObj(ms) =>
        ObjectComplete(ms, depth, k);
      case _ =>
        WordComplete(t, k);
        assert EmitTree(t, k)[0] != '-' && !IsDigit(EmitTree(t, k)[0]);
    }
  }

  lemma NumberComplete(n: Num, depth: nat, k: string)
    requires ValidNum(n) && EndsNumber(k)
    ensures EmitNum(n, k) != "" && ScanTree(EmitNum(n, k), depth) == Got(TNum(n), k)
  {
    NumComplete(n, k);
  }

  lemma {:induction false} ElemsComplete(es: Elems, first: bool, depth: nat, k: string)
    requires ValidElems(es, first, depth)
    ensures ScanElems(EmitElems(es, first, k), first, depth) == Got(es, k)
    decreases es, 0
  {
    match es {
      case EEnd(pad) =>
        SpaceReads(pad, "]" + k);
      case ECons(pad, gap, v, tail) =>
        var q := EmitElems(tail, false, k);
        ElemsComplete(tail, false, depth, k);
        TailEndsNumber(tail.pad, q[|tail.pad|..]);
        assert q == tail.pad + q[|tail.pad|..];
        var r2 := EmitTree(v, q);
        TreeComplete(v, depth, q);
        TreeStarts(v, depth, q);
        Separated(pad, first, gap, r2);
    }
  }

  /** What both comma loops see in front of an item that starts with neither a blank nor a comma. */
  lemma Separated(pad: string, first: bool, gap: string, r2: string)
    requires AllSpace(pad) && AllSpace(gap) && (first ==> gap == "")
    requires r2 != "" && !IsSpace(r2[0])
    ensures var r := pad + (Comma(first) + (gap + r2));
            var r1 := SkipSpace(r);
            && Blanks(r) == pad && r1 != ""
            && if first then r1 == r2
               else r1[0] == ',' && SkipSpace(r1[1..]) == r2 && Blanks(r1[1..]) == gap
  {
    var r1 := Comma(first) + (gap + r2);
    SpaceReads(pad, r1);
    if first {
      assert r1 == r2;
    } else {
      assert r1[1..] == gap + r2;
      SpaceReads(gap, r2);
    }
  }

  lemma {:induction false} MembersComplete(ms: Members, first: bool, depth: nat, k: string)
    requires ValidMembers(ms, first, depth)
    ensures ScanMembers(EmitMembers(ms, first, k), first, depth) == Got(ms, k)
    decreases ms, 0
  {
    match ms {
      case MEnd(pad) =>
        SpaceReads(pad, "}" + k);
      case MCons(pad, gap, key, before, after, v, tail) =>
        var q := EmitMembers(tail, false, k);
        MembersComplete(tail, false, depth, k);
        TailEndsNumber(tail.pad, q[|tail.pad|..]);
        assert q == tail.pad + q[|tail.pad|..];
        TreeComplete(v, depth, q);
        TreeStarts(v, depth, q);
        var r2 := EmitKey(Key(key, before, after), EmitTree(v, q));
        KeyComplete(Key(key, before, after), EmitTree(v, q));
        Separated(pad, first, gap, r2);
    }
  }

  // ------------------------------------------------------------------ whole inputs

  datatype Accepted = Accepted(doc: Doc) | Rejected

  /** The decision of json_parse_ex between its two passes. */
  function ScanDoc(src: string): Accepted {
    var r := SkipSpace(src);
    if r == "" then Rejected
    else
      match ScanTree(r, MAX_RECURSION)
      case Got(t, rest) => if SkipSpace(rest) == "" then Accepted(Doc(Blanks(src), t, rest)) else Rejected
      case _ => Rejected
  }

  /** The texts json.h takes beyond its grammar: blanks and a minus sign. */
  ghost predicate BareMinusDoc(d: Doc) {
    AllSpace(d.lead) && d.v == TNum(BareMinus) && d.trail == ""
  }

  /**
    Acceptance is the grammar: `d` is read from `src` exactly when it is a well-formed document
    that spells `src`, or a bare minus.  So every text has at most one reading.
  */
  lemma AcceptanceIsGrammar(src: string, d: Doc)
    ensures ScanDoc(src) == Accepted(d) <==> EmitDoc(d) == src && (ValidDoc(d) || BareMinusDoc(d))
  {
    if ScanDoc(src) == Accepted(d) {
      AcceptedIsSpelled(src, d);
    }
    if EmitDoc(d) == src && ValidDoc(d) {
      SpelledIsAccepted(d);
    }
    if EmitDoc(d) == src && BareMinusDoc(d) {
      assert EmitTree(d.v, d.trail) == "-";
      SpaceReads(d.lead, "-");
    }
  }

  lemma AcceptedIsSpelled(src: string, d: Doc)
    requires ScanDoc(src) == Accepted(d)
    ensures EmitDoc(d) == src && (ValidDoc(d) || BareMinusDoc(d))
  {
    SpaceSplits(src);
    TreeSound(SkipSpace(src), MAX_RECURSION);
    SpaceSplits(d.trail);
    assert Blanks(d.trail) == d.trail;
  }

  lemma SpelledIsAccepted(d: Doc)
    requires ValidDoc(d)
    ensures ScanDoc(EmitDoc(d)) == Accepted(d)
  {
    TailEndsNumber(d.trail, "");
    assert d.trail + "" == d.trail;
    TreeComplete(d.v, MAX_RECURSION, d.trail);
    TreeStarts(d.v, MAX_RECURSION, d.trail);
    SpaceReads(d.lead, EmitTree(d.v, d.trail));
    SpaceReads(d.trail, "");
  }

  lemma BareMinusStarts(d: Doc)
    requires BareMinusDoc(d)
    ensures EmitDoc(d) != "" && (EmitDoc(d)[0] == '-' || IsSpace(EmitDoc(d)[0]))
  {
    assert EmitTree(d.v, d.trail) == "-";
  }

  /** A text that starts with a bracket is accepted exactly when the grammar spells it. */
  lemma BracketedAcceptance(src: string)
    requires src != "" && (src[0] == '{' || src[0] == '[')
    ensures ScanDoc(src).Accepted? <==> exists d :: ValidDoc(d) && EmitDoc(d) == src
  {
    if ScanDoc(src).Accepted? {
      var d := ScanDoc(src).doc;
      AcceptanceIsGrammar(src, d);
      if BareMinusDoc(d) {
        BareMinusStarts(d);
        assert false;
      }
      assert ValidDoc(d) && EmitDoc(d) == src;
    }
    if d :| ValidDoc(d) && EmitDoc(d) == src {
      AcceptanceIsGrammar(src, d);
    }
  }
}
