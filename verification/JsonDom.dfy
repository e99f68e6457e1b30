/**
  What a parsed input means and where it lives.

  `DecodeTree` is the value a text denotes.  The parser does not build that value: it makes one
  allocation, fills the front with fixed-size records and the back with NUL-terminated
  strings, and lets the records point into the back.  `Layout` is that picture, with an
  index in place of a pointer, and `ResolveLayout` says that following the pointers gives the
  decoded value.
*/
module JsonDom {
  import opened JsonSyntax

  datatype Value =
    | Null
    | True
    | False
    | Number(text: string)
    | Str(s: string)
    | Arr(elems: seq<Value>)
    | Obj(members: seq<Member>)

  datatype Member = Member(name: string, value: Value)

  // ------------------------------------------------------------------ UTF-8

  /** The Unicode scalar values. */
  predicate IsScalar(cp: int) {
    0 <= cp < 0x110000 && !IsHighSurrogate(cp) && !IsLowSurrogate(cp)
  }

  /** Section 3 of RFC 3629. */
  function Utf8(cp: nat): (bytes: string)
    requires IsScalar(cp)
    ensures forall i | 0 <= i < |bytes| :: bytes[i] as int < 0x100
  {
    if cp < 0x80 then [cp as char]
    else if cp < 0x800 then [(0xC0 + cp / 0x40) as char, (0x80 + cp % 0x40) as char]
    else if cp < 0x10000 then
      [(0xE0 + cp / 0x1000) as char, (0x80 + cp / 0x40 % 0x40) as char, (0x80 + cp % 0x40) as char]
    else
      [(0xF0 + cp / 0x40000) as char, (0x80 + cp / 0x1000 % 0x40) as char,
       (0x80 + cp / 0x40 % 0x40) as char, (0x80 + cp % 0x40) as char]
  }

  datatype Rune = Rune(cp: int, width: nat) | Malformed

  predicate IsTail(c: char) {
    0x80 <= c as int < 0xC0
  }

  /** A decoder that refuses overlong forms and surrogates, as section 4 of RFC 3629 demands. */
  function ReadUtf8(r: string): Rune {
    if r == "" then Malformed
    else
      var a := r[0] as int;
      if a < 0x80 then Rune(a, 1)
      else if 0xC2 <= a < 0xE0 && |r| >= 2 && IsTail(r[1]) then Rune((a - 0xC0) * 0x40 + Tail(r[1]), 2)
      else if 0xE0 <= a < 0xF0 && |r| >= 3 && IsTail(r[1]) && IsTail(r[2]) then
        var cp := (a - 0xE0) * 0x1000 + Tail(r[1]) * 0x40 + Tail(r[2]);
        if cp >= 0x800 && IsScalar(cp) then Rune(cp, 3) else Malformed
      else if 0xF0 <= a < 0xF5 && |r| >= 4 && IsTail(r[1]) && IsTail(r[2]) && IsTail(r[3]) then
        var cp := (a - 0xF0) * 0x40000 + Tail(r[1]) * 0x1000 + Tail(r[2]) * 0x40 + Tail(r[3]);
        if cp >= 0x10000 && IsScalar(cp) then Rune(cp, 4) else Malformed
      else Malformed
  }

  function Tail(c: char): int {
    c as int - 0x80
  }

  lemma SixBitDigits(cp: nat)
    ensures cp == cp / 0x40 * 0x40 + cp % 0x40
    ensures cp == cp / 0x1000 * 0x1000 + cp / 0x40 % 0x40 * 0x40 + cp % 0x40
    ensures cp == cp / 0x40000 * 0x40000 + cp / 0x1000 % 0x40 * 0x1000 + cp / 0x40 % 0x40 * 0x40 + cp % 0x40
  {
    assert cp / 0x1000 == cp / 0x40 / 0x40;
    assert cp / 0x40000 == cp / 0x1000 / 0x40;
  }

  lemma Utf8RoundTrip(cp: nat, k: string)
    requires IsScalar(cp)
    ensures ReadUtf8(Utf8(cp) + k) == Rune(cp, |Utf8(cp)|)
  {
    var bytes := Utf8(cp);
    var r := bytes + k;
    SixBitDigits(cp);
    if cp < 0x80 {
      assert r[0] == bytes[0];
    } else if cp < 0x800 {
      assert r[0] == bytes[0] && r[1] == bytes[1];
    } else if cp < 0x10000 {
      assert r[0] == bytes[0] && r[1] == bytes[1] && r[2] == bytes[2];
      assert ReadUtf8(r) == Rune(cp, 3);
    } else {
      assert r[0] == bytes[0] && r[1] == bytes[1] && r[2] == bytes[2] && r[3] == bytes[3];
      assert ReadUtf8(r) == Rune(cp, 4);
    }
  }

  // ------------------------------------------------------------------ strings

  function EscapeChar(c: char): char {
    match c
    case 'b' => 8 as char
    case 'f' => 12 as char
    case 'n' => '\n'
    case 'r' => '\r'
    case 't' => '\t'
    case _ => c
  }

  /** The code point an escape stands for, by section 7 of RFC 8259. */
  function CodePoint(it: Item): (cp: nat)
    requires ValidItem(it)
    ensures !it.Plain? ==> IsScalar(cp)
  {
    match it
    case Plain(c) => c as int
    case Escape(c) => EscapeChar(c) as int
    case Unicode(h) => HexValue(h)
    case Pair(hi, lo) => 0x10000 + (HexValue(hi) - 0xD800) * 0x400 + (HexValue(lo) - 0xDC00)
  }

  /** Raw bytes are copied; an escape becomes the UTF-8 form of its code point. */
  function DecodeItem(it: Item): string {
    if it.Plain? then [it.c]
    else if ValidItem(it) then Utf8(CodePoint(it))
    else ""
  }

  function DecodeItems(s: Items): string {
    match s
    case SEnd => ""
    case SCons(it, tail) => DecodeItem(it) + DecodeItems(tail)
  }

  datatype Runes = Runes(cps: seq<int>) | NotUtf8

  function ReadAllUtf8(r: string): Runes
    decreases |r|
  {
    if r == "" then Runes([])
    else
      match ReadUtf8(r)
      case Malformed => NotUtf8
      case Rune(cp, w) =>
        if w == 0 || w > |r| then NotUtf8 else Join(Runes([cp]), ReadAllUtf8(r[w..]))
  }

  function Join(a: Runes, b: Runes): Runes {
    if a.Runes? && b.Runes? then Runes(a.cps + b.cps) else NotUtf8
  }

  lemma JoinAssociates(a: Runes, b: Runes, c: Runes)
    ensures Join(Join(a, b), c) == Join(a, Join(b, c))
  {
    if a.Runes? && b.Runes? && c.Runes? {
      assert (a.cps + b.cps) + c.cps == a.cps + (b.cps + c.cps);
    }
  }

  /** Not in the middle of a character. */
  ghost predicate AtStart(q: string) {
    q != "" ==> !IsTail(q[0])
  }

  /** A character, or what is no character, is seen before the next one starts. */
  lemma FirstRune(w: string, q: string)
    requires w != "" && AtStart(q)
    ensures ReadUtf8(w + q) == ReadUtf8(w)
    ensures ReadUtf8(w).Rune? ==> 0 < ReadUtf8(w).width <= |w|
  {
    var r := w + q;
    assert r[0] == w[0];
    assert |w| >= 2 ==> r[1] == w[1];
    assert |w| >= 3 ==> r[2] == w[2];
    assert |w| >= 4 ==> r[3] == w[3];
    assert |r| > |w| ==> r[|w|] == q[0];
  }

  /** Reading splits where a character starts. */
  lemma {:induction false} ReadingSplits(w: string, q: string)
    requires AtStart(q)
    ensures ReadAllUtf8(w + q) == Join(ReadAllUtf8(w), ReadAllUtf8(q))
    decreases |w|
  {
    if w == "" {
      assert w + q == q;
      assert ReadAllUtf8(q).Runes? ==> [] + ReadAllUtf8(q).cps == ReadAllUtf8(q).cps;
    } else {
      FirstRune(w, q);
      if ReadUtf8(w).Rune? {
        var n := ReadUtf8(w).width;
        assert (w + q)[n..] == w[n..] + q;
        ReadingSplits(w[n..], q);
        JoinAssociates(Runes([ReadUtf8(w).cp]), ReadAllUtf8(w[n..]), ReadAllUtf8(q));
      }
    }
  }

  /** The raw bytes a string begins with, and what follows them. */
  function RawRun(s: Items): string {
    if s.SCons? && s.head.Plain? then [s.head.c] + RawRun(s.tail) else ""
  }

  function AfterRaw(s: Items): (t: Items)
    ensures t.SCons? ==> !t.head.Plain?
    ensures t == s || t < s
  {
    if s.SCons? && s.head.Plain? then AfterRaw(s.tail) else s
  }

  /**
    The code points a string denotes: those of its raw runs, read as UTF-8, with the code point of
    each escape between them; none if some run is not UTF-8.
  */
  function Meaning(s: Items): Runes
    requires ValidItems(s)
  {
    ValidAfterRaw(s);
    var run := ReadAllUtf8(RawRun(s));
    match AfterRaw(s)
    case SEnd => run
    case SCons(it, tail) => Join(run, Join(Runes([CodePoint(it)]), Meaning(tail)))
  }

  lemma {:induction false} ValidAfterRaw(s: Items)
    requires ValidItems(s)
    ensures ValidItems(AfterRaw(s))
  {
    if s.SCons? && s.head.Plain? { ValidAfterRaw(s.tail); }
  }

  lemma Associates(a: string, b: string, c: string)
    ensures (a + b) + c == a + (b + c)
  {}

  lemma {:induction false} RawSplits(s: Items, k: string)
    ensures DecodeItems(s) == RawRun(s) + DecodeItems(AfterRaw(s))
    ensures EmitItems(s, k) == RawRun(s) + EmitItems(AfterRaw(s), k)
  {
    if s.SCons? && s.head.Plain? {
      RawSplits(s.tail, k);
      Associates([s.head.c], RawRun(s.tail), DecodeItems(AfterRaw(s)));
      Associates([s.head.c], RawRun(s.tail), EmitItems(AfterRaw(s), k));
    }
  }

  lemma RuneRead(cp: nat, k: string)
    requires IsScalar(cp)
    ensures AtStart(Utf8(cp) + k)
    ensures ReadAllUtf8(Utf8(cp) + k) == Join(Runes([cp]), ReadAllUtf8(k))
  {
    Utf8RoundTrip(cp, k);
    assert (Utf8(cp) + k)[|Utf8(cp)|..] == k;
    assert (Utf8(cp) + k)[0] == Utf8(cp)[0];
  }

  lemma {:induction false} AsciiRead(w: string, k: string)
    requires forall i | 0 <= i < |w| :: w[i] as int < 0x80
    ensures ReadAllUtf8(w + k).Runes? <==> ReadAllUtf8(k).Runes?
  {
    if w == "" {
      assert w + k == k;
    } else {
      assert (w + k)[0] == w[0] && (w + k)[1..] == w[1..] + k;
      AsciiRead(w[1..], k);
    }
  }

  lemma HexRead(h: string, k: string)
    requires FourHex(h)
    ensures ReadAllUtf8("\\u" + (h + k)).Runes? <==> ReadAllUtf8(k).Runes?
  {
    AsciiRead(h, k);
    AsciiRead("\\u", h + k);
  }

  /** An escape is spelled in ASCII. */
  lemma EscapeRead(it: Item, k: string)
    requires ValidItem(it) && !it.Plain?
    ensures AtStart(EmitItem(it, k))
    ensures ReadAllUtf8(EmitItem(it, k)).Runes? <==> ReadAllUtf8(k).Runes?
  {
    match it {
      case Escape(c) =>
        AsciiRead([c], k);
        AsciiRead("\\", [c] + k);
      case Unicode(h) => HexRead(h, k);
      case Pair(hi, lo) =>
        HexRead(lo, k);
        HexRead(hi, "\\u" + (lo + k));
    }
  }

  /** Reading the decoded bytes as UTF-8 gives exactly the code points the string denotes. */
  lemma {:induction false} DecodingMeans(s: Items)
    requires ValidItems(s)
    ensures ReadAllUtf8(DecodeItems(s)) == Meaning(s)
    decreases s
  {
    var t := AfterRaw(s);
    ValidAfterRaw(s);
    RawSplits(s, "");
    if t.SCons? {
      RuneRead(CodePoint(t.head), DecodeItems(t.tail));
      ReadingSplits(RawRun(s), DecodeItems(t));
      DecodingMeans(t.tail);
    } else {
      assert RawRun(s) + "" == RawRun(s);
    }
  }

  /** The text from the first escape on, or from the closing quote. */
  lemma TextStarts(t: Items, k: string)
    requires ValidItems(t) && (t.SCons? ==> !t.head.Plain?)
    ensures AtStart(EmitItems(t, k))
    ensures t.SCons? ==> (ReadAllUtf8(EmitItems(t, k)).Runes? <==> ReadAllUtf8(EmitItems(t.tail, k)).Runes?)
    ensures t.SEnd? && k == "" ==> ReadAllUtf8(EmitItems(t, k)).Runes?
  {
    if t.SCons? {
      EscapeRead(t.head, EmitItems(t.tail, k));
    } else {
      AsciiRead("\"", k);
    }
  }

  /** A string denotes code points exactly if its text is UTF-8. */
  lemma {:induction false} TextMeans(s: Items)
    requires ValidItems(s)
    ensures Meaning(s).Runes? <==> ReadAllUtf8(EmitItems(s, "")).Runes?
    decreases s
  {
    var t := AfterRaw(s);
    ValidAfterRaw(s);
    TextSplits(s);
    MeaningSplits(s);
    TextStarts(t, "");
    if t.SCons? {
      TextMeans(t.tail);
    }
  }

  lemma TextSplits(s: Items)
    requires ValidItems(s)
    ensures ReadAllUtf8(EmitItems(s, "")).Runes?
            <==> ReadAllUtf8(RawRun(s)).Runes? && ReadAllUtf8(EmitItems(AfterRaw(s), "")).Runes?
  {
    ValidAfterRaw(s);
    RawSplits(s, "");
    TextStarts(AfterRaw(s), "");
    ReadingSplits(RawRun(s), EmitItems(AfterRaw(s), ""));
  }

  lemma MeaningSplits(s: Items)
    requires ValidItems(s)
    ensures ValidItems(AfterRaw(s))
    ensures var t := AfterRaw(s);
            Meaning(s).Runes? <==> ReadAllUtf8(RawRun(s)).Runes? && (t.SCons? ==> Meaning(t.tail).Runes?)
  {
    ValidAfterRaw(s);
  }

  /**
    The bytes written for a string are UTF-8 exactly if its text is, and then they are the
    encoding of the code points it denotes.
  */
  lemma DecodingIsUtf8(s: Items)
    requires ValidItems(s)
    ensures ReadAllUtf8(DecodeItems(s)) == Meaning(s)
    ensures ReadAllUtf8(DecodeItems(s)).Runes? <==> ReadAllUtf8(EmitItems(s, "")).Runes?
  {
    DecodingMeans(s);
    TextMeans(s);
  }

  // ------------------------------------------------------------------ values

  function NumText(n: Num): string {
    EmitNum(n, "")
  }

  lemma EmitNumSplits(n: Num, k: string)
    ensures EmitNum(n, k) == NumText(n) + k
  {
    ExponentSplits(n, k);
    FractionSplits(n, k);
    var f := EmitFraction(n, "");
    assert n.digits + (f + k) == (n.digits + f) + k;
    assert "-" + ((n.digits + f) + k) == ("-" + (n.digits + f)) + k;
  }

  lemma ExponentSplits(n: Num, k: string)
    ensures EmitExponent(n, k) == EmitExponent(n, "") + k
  {
    assert n.exponent + k == (n.exponent + "") + k;
    assert n.sign + ((n.exponent + "") + k) == (n.sign + (n.exponent + "")) + k;
  }

  lemma FractionSplits(n: Num, k: string)
    ensures EmitFraction(n, k) == EmitFraction(n, "") + k
  {
    ExponentSplits(n, k);
    var e := EmitExponent(n, "");
    assert n.frac + (e + k) == (n.frac + e) + k;
  }

  function DecodeTree(t: Tree): Value
    decreases t
  {
    match t
    case TNull => Null
    case TTrue => True
    case TFalse => False
    case TNum(n) => Number(NumText(n))
    case TStr(s) => Str(DecodeItems(s))
    case TArr(es) => Arr(DecodeElems(es))
    case TObj(ms) => Obj(DecodeMembers(ms))
  }

  function DecodeElems(es: Elems): seq<Value>
    decreases es
  {
    match es
    case EEnd(_) => []
    case ECons(_, _, v, tail) => [DecodeTree(v)] + DecodeElems(tail)
  }

  function DecodeMembers(ms: Members): seq<Member>
    decreases ms
  {
    match ms
    case MEnd(_) => []
    case MCons(_, _, key, _, _, v, tail) => [Member(DecodeItems(key), DecodeTree(v))] + DecodeMembers(tail)
  }

  // ------------------------------------------------------------------ sizes

  /** The sizes of the json.h records on an LP64 machine. */
  const VALUE: nat := 16
  const STRING: nat := 16
  const NUMBER: nat := 16
  const OBJECT: nat := 16
  const ARRAY: nat := 16
  const OBJECT_ELEMENT: nat := 24
  const ARRAY_ELEMENT: nat := 16

  /** Bytes of records for a value, not counting its own json_value_s. */
  function RecordSize(t: Tree): nat
    decreases t
  {
    match t
    case TNum(_) => NUMBER
    case TStr(_) => STRING
    case TArr(es) => ARRAY + ElemsRecordSize(es)
    case TObj(ms) => OBJECT + MembersRecordSize(ms)
    case _ => 0
  }

  function ElemsRecordSize(es: Elems): nat
    decreases es
  {
    match es
    case EEnd(_) => 0
    case ECons(_, _, v, tail) => ARRAY_ELEMENT + VALUE + RecordSize(v) + ElemsRecordSize(tail)
  }

  function MembersRecordSize(ms: Members): nat
    decreases ms
  {
    match ms
    case MEnd(_) => 0
    case MCons(_, _, _, _, _, v, tail) =>
      OBJECT_ELEMENT + STRING + VALUE + RecordSize(v) + MembersRecordSize(tail)
  }

  /** The bytes the parse pass puts into the data area for a value, in order. */
  function Payload(t: Tree): string
    decreases t
  {
    match t
    case TNum(n) => NumText(n) + "\0"
    case TStr(s) => DecodeItems(s) + "\0"
    case TArr(es) => ElemsPayload(es)
    case TObj(ms) => MembersPayload(ms)
    case _ => ""
  }

  function ElemsPayload(es: Elems): string
    decreases es
  {
    match es
    case EEnd(_) => ""
    case ECons(_, _, v, tail) => Payload(v) + ElemsPayload(tail)
  }

  function MembersPayload(ms: Members): string
    decreases ms
  {
    match ms
    case MEnd(_) => ""
    case MCons(_, _, key, _, _, v, tail) => (DecodeItems(key) + "\0") + (Payload(v) + MembersPayload(tail))
  }

  /** Surrogate pairs, each of which the size pass counts with one byte too many. */
  function ItemsPairs(s: Items): nat {
    match s
    case SEnd => 0
    case SCons(it, tail) => (if it.Pair? then 1 else 0) + ItemsPairs(tail)
  }

  function Pairs(t: Tree): nat
    decreases t
  {
    match t
    case TStr(s) => ItemsPairs(s)
    case TArr(es) => ElemsPairs(es)
    case TObj(ms) => MembersPairs(ms)
    case _ => 0
  }

  function ElemsPairs(es: Elems): nat
    decreases es
  {
    match es
    case EEnd(_) => 0
    case ECons(_, _, v, tail) => Pairs(v) + ElemsPairs(tail)
  }

  function MembersPairs(ms: Members): nat
    decreases ms
  {
    match ms
    case MEnd(_) => 0
    case MCons(_, _, key, _, _, v, tail) => ItemsPairs(key) + Pairs(v) + MembersPairs(tail)
  }

  // ------------------------------------------------------------------ layout

  /** A json_value_s and what it points to; strings and numbers are index and length in the data area. */
  datatype Dom =
    | DNull
    | DTrue
    | DFalse
    | DNumber(at: nat, size: nat)
    | DStr(at: nat, size: nat)
    | DArr(elems: seq<Dom>)
    | DObj(members: seq<DMember>)

  datatype DMember = DMember(nameAt: nat, nameSize: nat, value: Dom)

  /** The records for a value whose payload starts at index `at`. */
  function Layout(t: Tree, at: nat): Dom
    decreases t
  {
    match t
    case TNull => DNull
    case TTrue => DTrue
    case TFalse => DFalse
    case TNum(n) => DNumber(at, |NumText(n)|)
    case TStr(s) => DStr(at, |DecodeItems(s)|)
    case TArr(es) => DArr(ElemsLayout(es, at))
    case TObj(ms) => DObj(MembersLayout(ms, at))
  }

  function ElemsLayout(es: Elems, at: nat): seq<Dom>
    decreases es
  {
    match es
    case EEnd(_) => []
    case ECons(_, _, v, tail) => [Layout(v, at)] + ElemsLayout(tail, at + |Payload(v)|)
  }

  function MembersLayout(ms: Members, at: nat): seq<DMember>
    decreases ms
  {
    match ms
    case MEnd(_) => []
    case MCons(_, _, key, _, _, v, tail) =>
      [DMember(at, |DecodeItems(key)|, Layout(v, ValueAt(key, at)))] + MembersLayout(tail, TailAt(key, v, at))
  }

  /** Where the payload of a member's value starts, and where that of the next member does. */
  function ValueAt(key: Items, at: nat): nat {
    at + |DecodeItems(key)| + 1
  }

  function TailAt(key: Items, v: Tree, at: nat): nat {
    ValueAt(key, at) + |Payload(v)|
  }

  function Slice(data: string, at: nat, size: nat): string {
    if at + size <= |data| then data[at..at + size] else ""
  }

  /** Follows the pointers of `d` into `data`. */
  function Resolve(d: Dom, data: string): Value
    decreases d, 0
  {
    match d
    case DNull => Null
    case DTrue => True
    case DFalse => False
    case DNumber(at, size) => Number(Slice(data, at, size))
    case DStr(at, size) => Str(Slice(data, at, size))
    case DArr(elems) => Arr(ResolveElems(elems, data))
    case DObj(members) => Obj(ResolveMembers(members, data))
  }

  function ResolveElems(ds: seq<Dom>, data: string): (vs: seq<Value>)
    ensures |vs| == |ds|
    decreases ds, 0
  {
    if ds == [] then [] else [Resolve(ds[0], data)] + ResolveElems(ds[1..], data)
  }

  function ResolveMembers(ds: seq<DMember>, data: string): (ms: seq<Member>)
    ensures |ms| == |ds|
    decreases ds, 0
  {
    if ds == [] then []
    else [ResolveMember(ds[0], data)] + ResolveMembers(ds[1..], data)
  }

  function ResolveMember(m: DMember, data: string): Member
    decreases m, 1
  {
    Member(Slice(data, m.nameAt, m.nameSize), Resolve(m.value, data))
  }

  lemma ResolveElemsCons(d: Dom, ds: seq<Dom>, data: string)
    ensures ResolveElems([d] + ds, data) == [Resolve(d, data)] + ResolveElems(ds, data)
  {
    assert ([d] + ds)[1..] == ds;
  }

  lemma ResolveMembersCons(d: DMember, ds: seq<DMember>, data: string)
    ensures ResolveMembers([d] + ds, data) == [ResolveMember(d, data)] + ResolveMembers(ds, data)
  {
    assert ([d] + ds)[1..] == ds;
  }

  /** `text` stands at index `at` of `data`. */
  ghost predicate Holds(data: string, at: nat, text: string) {
    at + |text| <= |data| && data[at..at + |text|] == text
  }

  lemma HoldsSplits(data: string, at: nat, a: string, b: string)
    requires Holds(data, at, a + b)
    ensures Holds(data, at, a) && Holds(data, at + |a|, b)
  {
    assert data[at..at + |a + b|][..|a|] == data[at..at + |a|];
    assert data[at..at + |a + b|][|a|..] == data[at + |a|..at + |a| + |b|];
    assert (a + b)[..|a|] == a && (a + b)[|a|..] == b;
  }

  /** Wherever the payload stands, the records laid out for that place resolve to the decoded value. */
  lemma {:induction false} ResolveLayout(t: Tree, at: nat, data: string)
    requires Holds(data, at, Payload(t))
    ensures Resolve(Layout(t, at), data) == DecodeTree(t)
    decreases t
  {
    match t {
      case TNum(n) => HoldsSplits(data, at, NumText(n), "\0");
      case TStr(s) => HoldsSplits(data, at, DecodeItems(s), "\0");
      case TArr(es) => ResolveElemsLayout(es, at, data);
      case TObj(ms) => ResolveMembersLayout(ms, at, data);
      case _ =>
    }
  }

  lemma {:induction false} ResolveElemsLayout(es: Elems, at: nat, data: string)
    requires Holds(data, at, ElemsPayload(es))
    ensures ResolveElems(ElemsLayout(es, at), data) == DecodeElems(es)
    decreases es
  {
    if es.ECons? {
      HoldsSplits(data, at, Payload(es.v), ElemsPayload(es.tail));
      ResolveLayout(es.v, at, data);
      ResolveElemsLayout(es.tail, at + |Payload(es.v)|, data);
      ElemResolves(es, at, data);
    }
  }

  lemma LayoutOfCons(es: Elems, at: nat)
    requires es.ECons?
    ensures ElemsLayout(es, at) == [Layout(es.v, at)] + ElemsLayout(es.tail, at + |Payload(es.v)|)
    ensures DecodeElems(es) == [DecodeTree(es.v)] + DecodeElems(es.tail)
  {}

  lemma ElemResolves(es: Elems, at: nat, data: string)
    requires es.ECons?
    requires Resolve(Layout(es.v, at), data) == DecodeTree(es.v)
    requires ResolveElems(ElemsLayout(es.tail, at + |Payload(es.v)|), data) == DecodeElems(es.tail)
    ensures ResolveElems(ElemsLayout(es, at), data) == DecodeElems(es)
  {
    LayoutOfCons(es, at);
    ResolveElemsCons(Layout(es.v, at), ElemsLayout(es.tail, at + |Payload(es.v)|), data);
  }

  lemma MemberHolds(ms: Members, at: nat, data: string)
    requires ms.MCons? && Holds(data, at, MembersPayload(ms))
    ensures Slice(data, at, |DecodeItems(ms.key)|) == DecodeItems(ms.key)
    ensures Holds(data, ValueAt(ms.key, at), Payload(ms.v))
    ensures Holds(data, TailAt(ms.key, ms.v, at), MembersPayload(ms.tail))
  {
    MemberHoldsParts(ms.key, ms.v, ms.tail, at, data);
  }

  lemma MemberHoldsParts(key: Items, v: Tree, tail: Members, at: nat, data: string)
    requires Holds(data, at, (DecodeItems(key) + "\0") + (Payload(v) + MembersPayload(tail)))
    ensures Slice(data, at, |DecodeItems(key)|) == DecodeItems(key)
    ensures Holds(data, ValueAt(key, at), Payload(v))
    ensures Holds(data, TailAt(key, v, at), MembersPayload(tail))
  {
    ThreePartsHold(DecodeItems(key), Payload(v), MembersPayload(tail), at, ValueAt(key, at), TailAt(key, v, at), data);
  }

  lemma ThreePartsHold(name: string, v: string, tail: string, at: nat, valueAt: nat, tailAt: nat, data: string)
    requires Holds(data, at, (name + "\0") + (v + tail))
    requires valueAt == at + |name| + 1 && tailAt == valueAt + |v|
    ensures Slice(data, at, |name|) == name
    ensures Holds(data, valueAt, v)
    ensures Holds(data, tailAt, tail)
  {
    HoldsSplits(data, at, name + "\0", v + tail);
    HoldsSplits(data, at, name, "\0");
    assert at + |name + "\0"| == valueAt;
    HoldsSplits(data, valueAt, v, tail);
  }

  lemma {:induction false} ResolveMembersLayout(ms: Members, at: nat, data: string)
    requires Holds(data, at, MembersPayload(ms))
    ensures ResolveMembers(MembersLayout(ms, at), data) == DecodeMembers(ms)
    decreases ms
  {
    if ms.MCons? {
      MemberHolds(ms, at, data);
      ResolveLayout(ms.v, ValueAt(ms.key, at), data);
      ResolveMembersLayout(ms.tail, TailAt(ms.key, ms.v, at), data);
      MemberResolves(ms, at, data);
    }
  }

  lemma MemberResolves(ms: Members, at: nat, data: string)
    requires ms.MCons?
    requires Slice(data, at, |DecodeItems(ms.key)|) == DecodeItems(ms.key)
    requires Resolve(Layout(ms.v, ValueAt(ms.key, at)), data) == DecodeTree(ms.v)
    requires ResolveMembers(MembersLayout(ms.tail, TailAt(ms.key, ms.v, at)), data) == DecodeMembers(ms.tail)
    ensures ResolveMembers(MembersLayout(ms, at), data) == DecodeMembers(ms)
  {
    ResolveMembersCons(DMember(at, |DecodeItems(ms.key)|, Layout(ms.v, ValueAt(ms.key, at))),
                       MembersLayout(ms.tail, TailAt(ms.key, ms.v, at)), data);
  }

  // ------------------------------------------------------------------ every pointer stays in the data area

  predicate InBounds(d: Dom, n: nat)
    decreases d, 0
  {
    match d
    case DNumber(at, size) => at + size <= n
    case DStr(at, size) => at + size <= n
    case DArr(elems) => forall i | 0 <= i < |elems| :: InBounds(elems[i], n)
    case DObj(members) => forall i | 0 <= i < |members| :: MemberInBounds(members[i], n)
    case _ => true
  }

  predicate MemberInBounds(m: DMember, n: nat)
    decreases m, 1
  {
    m.nameAt + m.nameSize <= n && InBounds(m.value, n)
  }

  lemma {:induction false} LayoutInBounds(t: Tree, at: nat, n: nat)
    requires at + |Payload(t)| <= n
    ensures InBounds(Layout(t, at), n)
    decreases t
  {
    match t {
      case TArr(es) => ElemsInBounds(es, at, n);
      case TObj(ms) => MembersInBounds(ms, at, n);
      case _ =>
    }
  }

  lemma {:induction false} ElemsInBounds(es: Elems, at: nat, n: nat)
    requires at + |ElemsPayload(es)| <= n
    ensures forall i | 0 <= i < |ElemsLayout(es, at)| :: InBounds(ElemsLayout(es, at)[i], n)
    decreases es
  {
    if es.ECons? {
      LayoutInBounds(es.v, at, n);
      ElemsInBounds(es.tail, at + |Payload(es.v)|, n);
    }
  }

  lemma {:induction false} MembersInBounds(ms: Members, at: nat, n: nat)
    requires at + |MembersPayload(ms)| <= n
    ensures forall i | 0 <= i < |MembersLayout(ms, at)| :: MemberInBounds(MembersLayout(ms, at)[i], n)
    decreases ms
  {
    if ms.MCons? {
      LayoutInBounds(ms.v, ValueAt(ms.key, at), n);
      MembersInBounds(ms.tail, TailAt(ms.key, ms.v, at), n);
      assert MemberInBounds(DMember(at, |DecodeItems(ms.key)|, Layout(ms.v, ValueAt(ms.key, at))), n);
    }
  }
}
