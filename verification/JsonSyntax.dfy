/**
  The texts that json.h accepts under its default flags, as concrete syntax trees.

  A tree keeps every byte of its text: the blanks between tokens, the way each
  character of a string was spelled, the four parts of a number.  `EmitTree(t, k)` is the
  text of `t` followed by `k`; emitting in front of a continuation keeps the text of a
  list free of nested concatenations, so reading and writing are exact inverses by
  plain induction.

  A C `char` is a Dafny `char`; only codes below 256 occur in the program.
*/
module JsonSyntax {

  /** The four blanks of section 2 of RFC 8259. */
  predicate IsSpace(c: char) {
    c == ' ' || c == '\t' || c == '\r' || c == '\n'
  }

  ghost predicate AllSpace(w: string) {
    forall i | 0 <= i < |w| :: IsSpace(w[i])
  }

  predicate IsDigit(c: char) {
    '0' <= c <= '9'
  }

  ghost predicate AllDigits(w: string) {
    forall i | 0 <= i < |w| :: IsDigit(w[i])
  }

  predicate IsHex(c: char) {
    IsDigit(c) || 'a' <= c <= 'f' || 'A' <= c <= 'F'
  }

  function HexDigit(c: char): (d: nat)
    requires IsHex(c)
    ensures d < 16
  {
    if IsDigit(c) then c as int - '0' as int
    else if 'a' <= c <= 'f' then c as int - 'a' as int + 10
    else c as int - 'A' as int + 10
  }

  predicate FourHex(h: string) {
    |h| == 4 && IsHex(h[0]) && IsHex(h[1]) && IsHex(h[2]) && IsHex(h[3])
  }

  /** The number written by four hexadecimal digits. */
  function HexValue(h: string): (n: nat)
    requires FourHex(h)
    ensures n < 0x10000
  {
    0x1000 * HexDigit(h[0]) + 0x100 * HexDigit(h[1]) + 0x10 * HexDigit(h[2]) + HexDigit(h[3])
  }

  predicate IsHighSurrogate(n: int) {
    0xD800 <= n <= 0xDBFF
  }

  predicate IsLowSurrogate(n: int) {
    0xDC00 <= n <= 0xDFFF
  }

  // ------------------------------------------------------------------ strings

  /** One character of a string literal, as spelled. */
  datatype Item =
    | Plain(c: char)
    | Escape(c: char)                    // backslash and one letter
    | Unicode(h: string)                 // backslash, u, four hexadecimal digits
    | Pair(hi: string, lo: string)       // two such escapes forming a surrogate pair

  datatype Items = SEnd | SCons(head: Item, tail: Items)

  predicate IsEscapeLetter(c: char) {
    c == '"' || c == '\\' || c == '/' || c == 'b' || c == 'f' || c == 'n' || c == 'r' || c == 't'
  }

  /** Section 7 of RFC 8259 forbids every raw control character; json.h forbids only these four. */
  predicate IsForbidden(c: char) {
    c == '\0' || c == '\t' || c == '\r' || c == '\n'
  }

  predicate ValidItem(it: Item) {
    match it
    case Plain(c) => c != '"' && c != '\\' && !IsForbidden(c)
    case Escape(c) => IsEscapeLetter(c)
    case Unicode(h) => FourHex(h) && !IsHighSurrogate(HexValue(h)) && !IsLowSurrogate(HexValue(h))
    case Pair(hi, lo) =>
      FourHex(hi) && FourHex(lo) && IsHighSurrogate(HexValue(hi)) && IsLowSurrogate(HexValue(lo))
  }

  ghost predicate ValidItems(s: Items) {
    s.SCons? ==> ValidItem(s.head) && ValidItems(s.tail)
  }

  function EmitItem(it: Item, k: string): string {
    match it
    case Plain(c) => [c] + k
    case Escape(c) => ['\\', c] + k
    case Unicode(h) => "\\u" + (h + k)
    case Pair(hi, lo) => "\\u" + (hi + ("\\u" + (lo + k)))
  }

  /** The characters of the string, its closing quote, and then `k`. */
  function EmitItems(s: Items, k: string): string {
    match s
    case SEnd => "\"" + k
    case SCons(it, tail) => EmitItem(it, EmitItems(tail, k))
  }

  // ------------------------------------------------------------------ numbers

  /** Section 6 of RFC 8259.  `frac` and `exponent` are empty when absent. */
  datatype Num = Num(minus: bool, digits: string, frac: string, letter: string, sign: string, exponent: string)

  ghost predicate ValidNum(n: Num) {
    && n.digits != "" && AllDigits(n.digits) && (n.digits[0] == '0' ==> |n.digits| == 1)
    && AllDigits(n.frac)
    && ValidExponent(n)
  }

  ghost predicate ValidExponent(n: Num) {
    && AllDigits(n.exponent)
    && if n.letter == "" then n.sign == "" && n.exponent == ""
       else (n.letter == "e" || n.letter == "E") && n.sign in {"", "+", "-"} && n.exponent != ""
  }

  function EmitExponent(n: Num, k: string): string {
    n.letter + (n.sign + (n.exponent + k))
  }

  function EmitFraction(n: Num, k: string): string {
    if n.frac == "" then EmitExponent(n, k) else "." + (n.frac + EmitExponent(n, k))
  }

  function EmitNum(n: Num, k: string): string {
    var text := n.digits + EmitFraction(n, k);
    if n.minus then "-" + text else text
  }

  /** The one text outside RFC 8259 that json.h takes for a number: a minus sign that ends the input. */
  const BareMinus: Num := Num(true, "", "", "", "", "")

  // ------------------------------------------------------------------ values

  datatype Tree =
    | TNull
    | TTrue
    | TFalse
    | TNum(n: Num)
    | TStr(s: Items)
    | TArr(es: Elems)
    | TObj(ms: Members)

  /** `pad` precedes the comma (or the bracket), `gap` follows the comma. */
  datatype Elems =
    | EEnd(pad: string)
    | ECons(pad: string, gap: string, v: Tree, tail: Elems)

  datatype Members =
    | MEnd(pad: string)
    | MCons(pad: string, gap: string, key: Items, before: string, after: string, v: Tree, tail: Members)

  /** A value together with the blanks around it: a whole input. */
  datatype Doc = Doc(lead: string, v: Tree, trail: string)

  /** Well-formed, with at most `depth` arrays and objects inside one another. */
  ghost predicate ValidTree(t: Tree, depth: nat)
    decreases t
  {
    match t
    case TNum(n) => ValidNum(n)
    case TStr(s) => ValidItems(s)
    case TArr(es) => depth > 0 && ValidElems(es, true, depth - 1)
    case TObj(ms) => depth > 0 && ValidMembers(ms, true, depth - 1)
    case _ => true
  }

  ghost predicate ValidElems(es: Elems, first: bool, depth: nat)
    decreases es
  {
    && AllSpace(es.pad)
    && (es.ECons? ==>
          && AllSpace(es.gap)
          && (first ==> es.gap == "")
          && ValidTree(es.v, depth)
          && ValidElems(es.tail, false, depth))
  }

  ghost predicate ValidMembers(ms: Members, first: bool, depth: nat)
    decreases ms
  {
    && AllSpace(ms.pad)
    && (ms.MCons? ==>
          && AllSpace(ms.gap)
          && (first ==> ms.gap == "")
          && ValidItems(ms.key)
          && AllSpace(ms.before)
          && AllSpace(ms.after)
          && ValidTree(ms.v, depth)
          && ValidMembers(ms.tail, false, depth))
  }

  function Comma(first: bool): string {
    if first then "" else ","
  }

  function EmitTree(t: Tree, k: string): string
    decreases t
  {
    match t
    case TNull => "null" + k
    case TTrue => "true" + k
    case TFalse => "false" + k
    case TNum(n) => EmitNum(n, k)
    case TStr(s) => "\"" + EmitItems(s, k)
    case TArr(es) => "[" + EmitElems(es, true, k)
    case TObj(ms) => "{" + EmitMembers(ms, true, k)
  }

  function EmitElems(es: Elems, first: bool, k: string): string
    decreases es
  {
    match es
    case EEnd(pad) => pad + ("]" + k)
    case ECons(pad, gap, v, tail) =>
      pad + (Comma(first) + (gap + EmitTree(v, EmitElems(tail, false, k))))
  }

  function EmitMembers(ms: Members, first: bool, k: string): string
    decreases ms
  {
    match ms
    case MEnd(pad) => pad + ("}" + k)
    case MCons(pad, gap, key, before, after, v, tail) =>
      pad + (Comma(first) + (gap + ("\"" + EmitItems(key,
        before + (":" + (after + EmitTree(v, EmitMembers(tail, false, k))))))))
  }

  function EmitDoc(d: Doc): string {
    d.lead + EmitTree(d.v, d.trail)
  }

  /** The parser's own bound on nesting, JSON_MAX_RECURSION. */
  const MAX_RECURSION: nat := 1000

  /** Section 2 of RFC 8259 with the parser's nesting bound. */
  ghost predicate ValidDoc(d: Doc) {
    AllSpace(d.lead) && AllSpace(d.trail) && ValidTree(d.v, MAX_RECURSION)
  }
}
