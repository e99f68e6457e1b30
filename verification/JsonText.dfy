/**
  The text json.h writes for a value, and its relation to the grammar.

  `Show` is the text; minified output is the style whose indent and newline are empty.  `Canon`
  is the tree that spells the same text, so what the grammar says about trees carries over.
*/
module JsonText {
  import opened JsonSyntax
  import opened JsonScan
  import opened JsonDom
  import opened JsonNumber

  /** `before` and `after` surround the colon; json_write_pretty writes a blank on both sides. */
  datatype Style = Style(indent: string, newline: string, before: string, after: string)

  const MINIFIED: Style := Style("", "", "", "")

  function Pretty(indent: string, newline: string): Style {
    Style(indent, newline, " ", " ")
  }

  ghost predicate Blank(st: Style) {
    AllSpace(st.indent) && AllSpace(st.newline) && AllSpace(st.before) && AllSpace(st.after)
  }

  function Repeat(s: string, n: nat): string {
    if n == 0 then "" else s + Repeat(s, n - 1)
  }

  // ------------------------------------------------------------------ the text

  /** The letter behind the backslash for a character the writers escape. */
  function EscapeLetter(c: char): char
    requires IsEscaped(c)
  {
    if c == 8 as char then 'b'
    else if c == 12 as char then 'f'
    else if c == '\n' then 'n'
    else if c == '\r' then 'r'
    else if c == '\t' then 't'
    else c
  }

  predicate IsEscaped(c: char) {
    c == '"' || c == '\\' || c == 8 as char || c == 12 as char || c == '\n' || c == '\r' || c == '\t'
  }

  function ShowChar(c: char): string {
    if IsEscaped(c) then ['\\', EscapeLetter(c)] else [c]
  }

  function ShowChars(s: string): string {
    if s == "" then "" else ShowChar(s[0]) + ShowChars(s[1..])
  }

  function ShowString(s: string): string {
    "\"" + ShowChars(s) + "\""
  }

  function Colon(st: Style): string {
    st.before + ":" + st.after
  }

  function Show(v: Value, depth: nat, st: Style): string
    decreases v, 0
  {
    match v
    case Null => "null"
    case True => "true"
    case False => "false"
    case Number(text) => ShowNumber(text)
    case Str(s) => ShowString(s)
    case Arr(elems) => "[" + ShowBody(ShowElems(elems, true, depth, st), elems == [], depth, st) + "]"
    case Obj(members) => "{" + ShowBody(ShowMembers(members, true, depth, st), members == [], depth, st) + "}"
  }

  /** What stands between the brackets. */
  function ShowBody(items: string, empty: bool, depth: nat, st: Style): string {
    if empty then "" else st.newline + items + st.newline + Repeat(st.indent, depth)
  }

  function Separator(first: bool, depth: nat, st: Style): string {
    (if first then "" else "," + st.newline) + Repeat(st.indent, depth + 1)
  }

  function ShowElems(elems: seq<Value>, first: bool, depth: nat, st: Style): string
    decreases elems, 0
  {
    if elems == [] then ""
    else Separator(first, depth, st) + Show(elems[0], depth + 1, st) + ShowElems(elems[1..], false, depth, st)
  }

  function ShowMembers(members: seq<Member>, first: bool, depth: nat, st: Style): string
    decreases members, 0
  {
    if members == [] then ""
    else Separator(first, depth, st) + ShowMember(members[0], depth, st) + ShowMembers(members[1..], false, depth, st)
  }

  function ShowMember(m: Member, depth: nat, st: Style): string
    decreases m, 1
  {
    ShowString(m.name) + Colon(st) + Show(m.value, depth + 1, st)
  }

  // ------------------------------------------------------------------ which values

  ghost predicate NumbersOk(v: Value)
    decreases v, 0
  {
    match v
    case Number(text) => IsNumber(text)
    case Arr(elems) => forall i | 0 <= i < |elems| :: NumbersOk(elems[i])
    case Obj(members) => forall i | 0 <= i < |members| :: NumbersOkIn(members[i])
    case _ => true
  }

  ghost predicate NumbersOkIn(m: Member)
    decreases m, 1
  {
    NumbersOk(m.value)
  }

  /** The values whose numbers the size passes count as they are written. */
  predicate NumbersWritable(v: Value)
    decreases v, 0
  {
    match v
    case Number(text) => Writable(text)
    case Arr(elems) => forall i | 0 <= i < |elems| :: NumbersWritable(elems[i])
    case Obj(members) => forall i | 0 <= i < |members| :: NumbersWritableIn(members[i])
    case _ => true
  }

  predicate NumbersWritableIn(m: Member)
    decreases m, 1
  {
    NumbersWritable(m.value)
  }

  lemma {:induction false} OkIsWritable(v: Value)
    requires NumbersOk(v)
    ensures NumbersWritable(v)
    decreases v
  {
    match v {
      case Number(text) => NumberIsCopied(text);
      case Arr(elems) =>
        forall i | 0 <= i < |elems| ensures NumbersWritable(elems[i]) { OkIsWritable(elems[i]); }
      case Obj(members) =>
        forall i | 0 <= i < |members| ensures NumbersWritableIn(members[i]) {
          assert NumbersOkIn(members[i]);
          OkIsWritable(members[i].value);
        }
      case _ =>
    }
  }

  ghost predicate NulFree(v: Value)
    decreases v, 0
  {
    match v
    case Str(s) => '\0' !in s
    case Arr(elems) => forall i | 0 <= i < |elems| :: NulFree(elems[i])
    case Obj(members) => forall i | 0 <= i < |members| :: NulFreeIn(members[i])
    case _ => true
  }

  ghost predicate NulFreeIn(m: Member)
    decreases m, 1
  {
    '\0' !in m.name && NulFree(m.value)
  }

  /** At most `depth` arrays and objects inside one another. */
  ghost predicate Nested(v: Value, depth: nat)
    decreases v, 0
  {
    match v
    case Arr(elems) => depth > 0 && forall i | 0 <= i < |elems| :: Nested(elems[i], depth - 1)
    case Obj(members) => depth > 0 && forall i | 0 <= i < |members| :: NestedIn(members[i], depth - 1)
    case _ => true
  }

  ghost predicate NestedIn(m: Member, depth: nat)
    decreases m, 1
  {
    Nested(m.value, depth)
  }

  // ------------------------------------------------------------------ the tree of the text

  function CanonItems(s: string): Items {
    if s == "" then SEnd
    else SCons(if IsEscaped(s[0]) then Escape(EscapeLetter(s[0])) else Plain(s[0]), CanonItems(s[1..]))
  }

  ghost function NumOf(text: string): (n: Num)
    requires IsNumber(text)
    ensures ValidNum(n) && NumText(n) == text
  {
    var n :| ValidNum(n) && NumText(n) == text;
    n
  }

  ghost function Canon(v: Value, depth: nat, st: Style): Tree
    requires NumbersOk(v)
    decreases v, 0
  {
    match v
    case Null => TNull
    case True => TTrue
    case False => TFalse
    case Number(text) => TNum(NumOf(text))
    case Str(s) => TStr(CanonItems(s))
    case Arr(elems) => TArr(CanonElems(elems, true, depth, st))
    case Obj(members) => TObj(CanonMembers(members, true, depth, st))
  }

  /** The blanks in front of an item or of the closing bracket: at most one of `Pad` and `Gap` is not empty. */
  function Pad(first: bool, last: bool, depth: nat, st: Style): string {
    if last then (if first then "" else st.newline + Repeat(st.indent, depth))
    else if first then st.newline + Repeat(st.indent, depth + 1)
    else ""
  }

  function Gap(first: bool, depth: nat, st: Style): string {
    if first then "" else st.newline + Repeat(st.indent, depth + 1)
  }

  ghost function CanonElems(elems: seq<Value>, first: bool, depth: nat, st: Style): Elems
    requires forall i | 0 <= i < |elems| :: NumbersOk(elems[i])
    decreases elems, 0
  {
    if elems == [] then EEnd(Pad(first, true, depth, st))
    else ECons(Pad(first, false, depth, st), Gap(first, depth, st), Canon(elems[0], depth + 1, st),
               CanonElems(elems[1..], false, depth, st))
  }

  ghost function CanonMembers(members: seq<Member>, first: bool, depth: nat, st: Style): Members
    requires forall i | 0 <= i < |members| :: NumbersOkIn(members[i])
    decreases members, 0
  {
    if members == [] then MEnd(Pad(first, true, depth, st))
    else CanonMember(members[0], Pad(first, false, depth, st), Gap(first, depth, st), depth, st,
                     CanonMembers(members[1..], false, depth, st))
  }

  ghost function CanonMember(m: Member, pad: string, gap: string, depth: nat, st: Style, tail: Members): Members
    requires NumbersOkIn(m)
    decreases m, 1
  {
    MCons(pad, gap, CanonItems(m.name), st.before, st.after, Canon(m.value, depth + 1, st), tail)
  }

  // ------------------------------------------------------------------ the tree spells the text

  lemma {:induction false} ItemsShown(s: string, k: string)
    ensures EmitItems(CanonItems(s), k) == ShowChars(s) + ("\"" + k)
  {
    if s != "" {
      ItemsShown(s[1..], k);
    }
  }

  lemma StringShown(s: string, k: string)
    ensures "\"" + EmitItems(CanonItems(s), k) == ShowString(s) + k
  {
    ItemsShown(s, k);
  }

  lemma NumShown(text: string, k: string)
    requires IsNumber(text)
    ensures EmitNum(NumOf(text), k) == ShowNumber(text) + k
  {
    EmitNumSplits(NumOf(text), k);
    NumberIsCopied(text);
  }

  lemma {:induction false} TreeShown(v: Value, depth: nat, st: Style, k: string)
    requires NumbersOk(v)
    ensures EmitTree(Canon(v, depth, st), k) == Show(v, depth, st) + k
    decreases v, 0
  {
    match v {
      case Number(text) => NumShown(text, k);
      case Str(s) => StringShown(s, k);
      case Arr(elems) => ArrayShown(elems, depth, st, k);
      case Obj(members) => ObjectShown(members, depth, st, k);
      case _ =>
    }
  }

  lemma Bracket(open: string, newline: string, body: string, indent: string, close: string, k: string)
    ensures open + ((newline + body) + ((newline + indent) + (close + k)))
            == (open + (newline + body + newline + indent) + close) + k
    ensures open + (("" + "") + ("" + (close + k))) == (open + "" + close) + k
  {}

  lemma ArrayShown(elems: seq<Value>, depth: nat, st: Style, k: string)
    requires NumbersOk(Arr(elems))
    ensures EmitTree(Canon(Arr(elems), depth, st), k) == Show(Arr(elems), depth, st) + k
    decreases elems, 3
  {
    ElemsShown(elems, true, depth, st, k);
    Bracket("[", st.newline, ShowElems(elems, true, depth, st), Repeat(st.indent, depth), "]", k);
  }

  lemma ObjectShown(members: seq<Member>, depth: nat, st: Style, k: string)
    requires NumbersOk(Obj(members))
    ensures EmitTree(Canon(Obj(members), depth, st), k) == Show(Obj(members), depth, st) + k
    decreases members, 3
  {
    MembersShown(members, true, depth, st, k);
    Bracket("{", st.newline, ShowMembers(members, true, depth, st), Repeat(st.indent, depth), "}", k);
  }

  /** The blanks that open the first item belong to the bracket in `Show` and to the item in the tree. */
  function Opening(first: bool, empty: bool, st: Style): string {
    if first && !empty then st.newline else ""
  }

  function Closing(first: bool, empty: bool, depth: nat, st: Style, bracket: string, k: string): string {
    (if first && empty then "" else st.newline + Repeat(st.indent, depth)) + (bracket + k)
  }

  lemma FrontShown(first: bool, depth: nat, st: Style, x: string)
    ensures Pad(first, false, depth, st) + (Comma(first) + (Gap(first, depth, st) + x))
            == Opening(first, false, st) + Separator(first, depth, st) + x
  {}

  lemma Regroup(opening: string, sep: string, item: string, tail: string, closing: string, q: string)
    requires q == ("" + tail) + closing
    ensures opening + sep + (item + q) == (opening + (sep + item + tail)) + closing
  {}

  lemma {:induction false} ElemsShown(elems: seq<Value>, first: bool, depth: nat, st: Style, k: string)
    requires forall i | 0 <= i < |elems| :: NumbersOk(elems[i])
    ensures EmitElems(CanonElems(elems, first, depth, st), first, k)
            == (Opening(first, elems == [], st) + ShowElems(elems, first, depth, st))
               + Closing(first, elems == [], depth, st, "]", k)
    decreases elems, 2
  {
    if elems != [] {
      var q := EmitElems(CanonElems(elems[1..], false, depth, st), false, k);
      var closing := Closing(first, false, depth, st, "]", k);
      ElemsShown(elems[1..], false, depth, st, k);
      assert q == ("" + ShowElems(elems[1..], false, depth, st)) + closing;
      TreeShown(elems[0], depth + 1, st, q);
      ElemShown(elems, first, depth, st, k, q);
      Regroup(Opening(first, false, st), Separator(first, depth, st), Show(elems[0], depth + 1, st),
              ShowElems(elems[1..], false, depth, st), closing, q);
    }
  }

  lemma ElemShown(elems: seq<Value>, first: bool, depth: nat, st: Style, k: string, q: string)
    requires forall i | 0 <= i < |elems| :: NumbersOk(elems[i])
    requires elems != [] && q == EmitElems(CanonElems(elems[1..], false, depth, st), false, k)
    requires EmitTree(Canon(elems[0], depth + 1, st), q) == Show(elems[0], depth + 1, st) + q
    ensures EmitElems(CanonElems(elems, first, depth, st), first, k)
            == Opening(first, false, st) + Separator(first, depth, st) + (Show(elems[0], depth + 1, st) + q)
  {
    FrontShown(first, depth, st, Show(elems[0], depth + 1, st) + q);
  }

  lemma {:induction false} MembersShown(members: seq<Member>, first: bool, depth: nat, st: Style, k: string)
    requires forall i | 0 <= i < |members| :: NumbersOkIn(members[i])
    ensures EmitMembers(CanonMembers(members, first, depth, st), first, k)
            == (Opening(first, members == [], st) + ShowMembers(members, first, depth, st))
               + Closing(first, members == [], depth, st, "}", k)
    decreases members, 2
  {
    if members != [] {
      var q := EmitMembers(CanonMembers(members[1..], false, depth, st), false, k);
      var closing := Closing(first, false, depth, st, "}", k);
      MembersShown(members[1..], false, depth, st, k);
      assert q == ("" + ShowMembers(members[1..], false, depth, st)) + closing;
      MemberShown(members[0], depth, st, q);
      MemberInListShown(members, first, depth, st, k, q);
      Regroup(Opening(first, false, st), Separator(first, depth, st), ShowMember(members[0], depth, st),
              ShowMembers(members[1..], false, depth, st), closing, q);
    }
  }

  lemma MemberInListShown(members: seq<Member>, first: bool, depth: nat, st: Style, k: string, q: string)
    requires forall i | 0 <= i < |members| :: NumbersOkIn(members[i])
    requires members != [] && NumbersOkIn(members[0])
    requires q == EmitMembers(CanonMembers(members[1..], false, depth, st), false, k)
    requires var m := members[0];
             EmitKey(Key(CanonItems(m.name), st.before, st.after), EmitTree(Canon(m.value, depth + 1, st), q))
             == ShowMember(m, depth, st) + q
    ensures EmitMembers(CanonMembers(members, first, depth, st), first, k)
            == Opening(first, false, st) + Separator(first, depth, st) + (ShowMember(members[0], depth, st) + q)
  {
    FrontShown(first, depth, st, ShowMember(members[0], depth, st) + q);
  }

  lemma MemberShown(m: Member, depth: nat, st: Style, k: string)
    requires NumbersOkIn(m)
    ensures EmitKey(Key(CanonItems(m.name), st.before, st.after), EmitTree(Canon(m.value, depth + 1, st), k))
            == ShowMember(m, depth, st) + k
    decreases m, 1
  {
    var v := EmitTree(Canon(m.value, depth + 1, st), k);
    TreeShown(m.value, depth + 1, st, k);
    StringShown(m.name, st.before + (":" + (st.after + v)));
  }

  // ------------------------------------------------------------------ the tree is well-formed and decodes to the value

  lemma {:induction false} CanonItemsDecode(s: string)
    ensures DecodeItems(CanonItems(s)) == s
    ensures '\0' !in s ==> ValidItems(CanonItems(s))
  {
    if s != "" {
      CanonItemsDecode(s[1..]);
      CanonItemDecodes(s[0]);
      assert s == [s[0]] + s[1..];
    }
  }

  lemma CanonItemDecodes(c: char)
    ensures var it := if IsEscaped(c) then Escape(EscapeLetter(c)) else Plain(c);
            DecodeItem(it) == [c] && (c != '\0' ==> ValidItem(it))
  {}

  lemma {:induction false} CanonDecodes(v: Value, depth: nat, st: Style)
    requires NumbersOk(v)
    ensures DecodeTree(Canon(v, depth, st)) == v
    decreases v, 0
  {
    match v {
      case Str(s) => CanonItemsDecode(s);
      case Arr(elems) => ElemsDecode(elems, true, depth, st);
      case Obj(members) => MembersDecode(members, true, depth, st);
      case _ =>
    }
  }

  lemma {:induction false} ElemsDecode(elems: seq<Value>, first: bool, depth: nat, st: Style)
    requires forall i | 0 <= i < |elems| :: NumbersOk(elems[i])
    ensures DecodeElems(CanonElems(elems, first, depth, st)) == elems
    decreases elems, 0
  {
    if elems != [] {
      CanonDecodes(elems[0], depth + 1, st);
      ElemsDecode(elems[1..], false, depth, st);
    }
  }

  lemma {:induction false} MembersDecode(members: seq<Member>, first: bool, depth: nat, st: Style)
    requires forall i | 0 <= i < |members| :: NumbersOkIn(members[i])
    ensures DecodeMembers(CanonMembers(members, first, depth, st)) == members
    decreases members, 0
  {
    if members != [] {
      MemberDecodes(members[0], depth, st);
      MembersDecode(members[1..], false, depth, st);
    }
  }

  lemma MemberDecodes(m: Member, depth: nat, st: Style)
    requires NumbersOkIn(m)
    ensures Member(DecodeItems(CanonItems(m.name)), DecodeTree(Canon(m.value, depth + 1, st))) == m
    decreases m, 1
  {
    CanonItemsDecode(m.name);
    CanonDecodes(m.value, depth + 1, st);
  }

  lemma {:induction false} RepeatBlank(s: string, n: nat)
    requires AllSpace(s)
    ensures AllSpace(Repeat(s, n))
  {
    if n > 0 { RepeatBlank(s, n - 1); }
  }

  lemma BlanksAreBlank(first: bool, depth: nat, st: Style)
    requires Blank(st)
    ensures AllSpace(Pad(first, true, depth, st)) && AllSpace(Pad(first, false, depth, st))
    ensures AllSpace(Gap(first, depth, st))
  {
    RepeatBlank(st.indent, depth);
    RepeatBlank(st.indent, depth + 1);
    BlankConcat(st.newline, Repeat(st.indent, depth));
    BlankConcat(st.newline, Repeat(st.indent, depth + 1));
  }

  lemma BlankConcat(a: string, b: string)
    requires AllSpace(a) && AllSpace(b)
    ensures AllSpace(a + b)
  {}

  lemma {:induction false} CanonValid(v: Value, depth: nat, st: Style, limit: nat)
    requires NumbersOk(v) && NulFree(v) && Nested(v, limit) && Blank(st)
    ensures ValidTree(Canon(v, depth, st), limit)
    decreases v, 0
  {
    match v {
      case Str(s) => CanonItemsDecode(s);
      case Arr(elems) => ElemsValid(elems, true, depth, st, limit - 1);
      case Obj(members) => MembersValid(members, true, depth, st, limit - 1);
      case _ =>
    }
  }

  lemma {:induction false} ElemsValid(elems: seq<Value>, first: bool, depth: nat, st: Style, limit: nat)
    requires Blank(st)
    requires forall i | 0 <= i < |elems| :: NumbersOk(elems[i]) && NulFree(elems[i]) && Nested(elems[i], limit)
    ensures ValidElems(CanonElems(elems, first, depth, st), first, limit)
    decreases elems, 0
  {
    BlanksAreBlank(first, depth, st);
    if elems != [] {
      CanonValid(elems[0], depth + 1, st, limit);
      ElemsValid(elems[1..], false, depth, st, limit);
    }
  }

  lemma {:induction false} MembersValid(members: seq<Member>, first: bool, depth: nat, st: Style, limit: nat)
    requires Blank(st)
    requires forall i | 0 <= i < |members| :: NumbersOkIn(members[i]) && NulFreeIn(members[i]) && NestedIn(members[i], limit)
    ensures ValidMembers(CanonMembers(members, first, depth, st), first, limit)
    decreases members, 0
  {
    BlanksAreBlank(first, depth, st);
    if members != [] {
      MemberValid(members[0], depth, st, limit);
      MembersValid(members[1..], false, depth, st, limit);
    }
  }

  lemma MemberValid(m: Member, depth: nat, st: Style, limit: nat)
    requires Blank(st) && NumbersOkIn(m) && NulFreeIn(m) && NestedIn(m, limit)
    ensures ValidItems(CanonItems(m.name)) && ValidTree(Canon(m.value, depth + 1, st), limit)
    decreases m, 1
  {
    CanonItemsDecode(m.name);
    CanonValid(m.value, depth + 1, st, limit);
  }

  // ------------------------------------------------------------------ what the parser makes of it

  /** The writers put a NUL byte into the text as it is ... */
  lemma {:induction false} ShownNul(s: string)
    requires '\0' in s
    ensures '\0' in ShowChars(s)
  {
    if s[0] != '\0' { ShownNul(s[1..]); }
  }

  lemma {:induction false} NulIsShown(v: Value, depth: nat, st: Style)
    requires !NulFree(v)
    ensures '\0' in Show(v, depth, st)
    decreases v, 0
  {
    match v {
      case Str(s) => ShownNul(s);
      case Arr(elems) => NulInElems(elems, true, depth, st);
      case Obj(members) => NulInMembers(members, true, depth, st);
      case _ =>
    }
  }

  lemma {:induction false} NulInElems(elems: seq<Value>, first: bool, depth: nat, st: Style)
    requires exists i :: 0 <= i < |elems| && !NulFree(elems[i])
    ensures '\0' in ShowElems(elems, first, depth, st)
    decreases elems, 0
  {
    if NulFree(elems[0]) {
      var i :| 0 <= i < |elems| && !NulFree(elems[i]);
      assert elems[1..][i - 1] == elems[i];
      NulInElems(elems[1..], false, depth, st);
    } else {
      NulIsShown(elems[0], depth + 1, st);
    }
  }

  lemma {:induction false} NulInMembers(members: seq<Member>, first: bool, depth: nat, st: Style)
    requires exists i :: 0 <= i < |members| && !NulFreeIn(members[i])
    ensures '\0' in ShowMembers(members, first, depth, st)
    decreases members, 0
  {
    if NulFreeIn(members[0]) {
      var i :| 0 <= i < |members| && !NulFreeIn(members[i]);
      assert members[1..][i - 1] == members[i];
      NulInMembers(members[1..], false, depth, st);
    } else {
      NulInMember(members[0], depth, st);
    }
  }

  lemma NulInMember(m: Member, depth: nat, st: Style)
    requires !NulFreeIn(m)
    ensures '\0' in ShowMember(m, depth, st)
    decreases m, 1
  {
    if '\0' in m.name { ShownNul(m.name); } else { NulIsShown(m.value, depth + 1, st); }
  }

  /** ... and no text of the grammar holds one. */
  lemma {:induction false} NoNulInItems(s: Items, k: string)
    requires ValidItems(s) && '\0' !in k
    ensures '\0' !in EmitItems(s, k)
  {
    if s.SCons? {
      NoNulInItems(s.tail, k);
      NoNulInItem(s.head, EmitItems(s.tail, k));
    }
  }

  lemma NoNulInItem(it: Item, k: string)
    requires ValidItem(it) && '\0' !in k
    ensures '\0' !in EmitItem(it, k)
  {
    match it {
      case Unicode(h) => NoNulInEscape(h, k);
      case Pair(hi, lo) =>
        NoNulInEscape(lo, k);
        NoNulInEscape(hi, "\\u" + (lo + k));
      case _ =>
    }
  }

  lemma NoNulInEscape(h: string, k: string)
    requires FourHex(h) && '\0' !in k
    ensures '\0' !in "\\u" + (h + k)
  {
    assert h == [h[0], h[1], h[2], h[3]];
  }

  lemma NoNulInNum(n: Num, k: string)
    requires ValidNum(n) && '\0' !in k
    ensures '\0' !in EmitNum(n, k)
  {
    assert '\0' !in EmitExponent(n, k);
    assert '\0' !in EmitFraction(n, k);
  }

  lemma {:induction false} NoNulInTree(t: Tree, depth: nat, k: string)
    requires ValidTree(t, depth) && '\0' !in k
    ensures '\0' !in EmitTree(t, k)
    decreases t
  {
    match t {
      case TNum(n) => NoNulInNum(n, k);
      case TStr(s) => NoNulInItems(s, k);
      case TArr(es) => NoNulInElems(es, true, depth - 1, k);
      case TObj(ms) => NoNulInMembers(ms, true, depth - 1, k);
      case _ =>
    }
  }

  lemma {:induction false} NoNulInElems(es: Elems, first: bool, depth: nat, k: string)
    requires ValidElems(es, first, depth) && '\0' !in k
    ensures '\0' !in EmitElems(es, first, k)
    decreases es
  {
    if es.ECons? {
      NoNulInElems(es.tail, false, depth, k);
      NoNulInTree(es.v, depth, EmitElems(es.tail, false, k));
    }
  }

  lemma {:induction false} NoNulInMembers(ms: Members, first: bool, depth: nat, k: string)
    requires ValidMembers(ms, first, depth) && '\0' !in k
    ensures '\0' !in EmitMembers(ms, first, k)
    decreases ms
  {
    if ms.MCons? {
      var q := EmitMembers(ms.tail, false, k);
      NoNulInMembers(ms.tail, false, depth, k);
      NoNulInTree(ms.v, depth, q);
      NoNulInItems(ms.key, ms.before + (":" + (ms.after + EmitTree(ms.v, q))));
    }
  }

  /** Decoding keeps the nesting. */
  lemma {:induction false} DecodedNesting(t: Tree, limit: nat)
    requires ValidTree(t, limit)
    ensures Nested(DecodeTree(t), limit)
    decreases t
  {
    match t {
      case TArr(es) => ElemsNesting(es, true, limit - 1);
      case TObj(ms) => MembersNesting(ms, true, limit - 1);
      case _ =>
    }
  }

  lemma {:induction false} ElemsNesting(es: Elems, first: bool, limit: nat)
    requires ValidElems(es, first, limit)
    ensures forall i | 0 <= i < |DecodeElems(es)| :: Nested(DecodeElems(es)[i], limit)
    decreases es
  {
    if es.ECons? {
      DecodedNesting(es.v, limit);
      ElemsNesting(es.tail, false, limit);
    }
  }

  lemma {:induction false} MembersNesting(ms: Members, first: bool, limit: nat)
    requires ValidMembers(ms, first, limit)
    ensures forall i | 0 <= i < |DecodeMembers(ms)| :: NestedIn(DecodeMembers(ms)[i], limit)
    decreases ms
  {
    if ms.MCons? {
      DecodedNesting(ms.v, limit);
      MembersNesting(ms.tail, false, limit);
      assert NestedIn(Member(DecodeItems(ms.key), DecodeTree(ms.v)), limit);
    }
  }

  /** Decoding copies numbers. */
  lemma {:induction false} DecodedNumbers(t: Tree, limit: nat)
    requires ValidTree(t, limit)
    ensures NumbersOk(DecodeTree(t))
    decreases t
  {
    match t {
      case TNum(n) => assert NumText(n) == NumText(n);
      case TArr(es) => ElemsNumbers(es, true, limit - 1);
      case TObj(ms) => MembersNumbers(ms, true, limit - 1);
      case _ =>
    }
  }

  lemma {:induction false} ElemsNumbers(es: Elems, first: bool, limit: nat)
    requires ValidElems(es, first, limit)
    ensures forall i | 0 <= i < |DecodeElems(es)| :: NumbersOk(DecodeElems(es)[i])
    decreases es
  {
    if es.ECons? {
      DecodedNumbers(es.v, limit);
      ElemsNumbers(es.tail, false, limit);
    }
  }

  lemma {:induction false} MembersNumbers(ms: Members, first: bool, limit: nat)
    requires ValidMembers(ms, first, limit)
    ensures forall i | 0 <= i < |DecodeMembers(ms)| :: NumbersOkIn(DecodeMembers(ms)[i])
    decreases ms
  {
    if ms.MCons? {
      DecodedNumbers(ms.v, limit);
      MembersNumbers(ms.tail, false, limit);
      assert NumbersOkIn(Member(DecodeItems(ms.key), DecodeTree(ms.v)));
    }
  }

  /** Reading `text` gives `v`. */
  ghost predicate ReadsAs(text: string, v: Value) {
    ScanDoc(text).Accepted? && DecodeTree(ScanDoc(text).doc.v) == v
  }

  /**
    The writers are undone by the parser exactly when no string of the value holds a NUL and the
    value is nested no deeper than the parser's bound; the minified form and the pretty form,
    for any blank indent and newline, alike.
  */
  lemma RoundTrip(v: Value, st: Style)
    requires NumbersOk(v) && Blank(st)
    ensures ReadsAs(Show(v, 0, st), v) <==> NulFree(v) && Nested(v, MAX_RECURSION)
  {
    var text := Show(v, 0, st);
    if NulFree(v) && Nested(v, MAX_RECURSION) {
      var d := Doc("", Canon(v, 0, st), "");
      CanonValid(v, 0, st, MAX_RECURSION);
      CanonDecodes(v, 0, st);
      TreeShown(v, 0, st, "");
      assert EmitDoc(d) == text;
      AcceptanceIsGrammar(text, d);
    }
    if ReadsAs(text, v) {
      ReadTextIsTame(v, st);
    }
  }

  lemma ReadTextIsTame(v: Value, st: Style)
    requires NumbersOk(v)
    requires ReadsAs(Show(v, 0, st), v)
    ensures NulFree(v) && Nested(v, MAX_RECURSION)
  {
    AcceptedIsTame(Show(v, 0, st));
    if !NulFree(v) {
      NulIsShown(v, 0, st);
    }
  }

  lemma AcceptedIsTame(text: string)
    requires ScanDoc(text).Accepted?
    ensures '\0' !in text && Nested(DecodeTree(ScanDoc(text).doc.v), MAX_RECURSION)
  {
    var d := ScanDoc(text).doc;
    AcceptanceIsGrammar(text, d);
    if ValidDoc(d) {
      TameDoc(d);
    } else {
      assert EmitTree(d.v, d.trail) == "-";
    }
  }

  lemma TameDoc(d: Doc)
    requires ValidDoc(d)
    ensures '\0' !in EmitDoc(d) && Nested(DecodeTree(d.v), MAX_RECURSION)
  {
    DecodedNesting(d.v, MAX_RECURSION);
    NoNulInTree(d.v, MAX_RECURSION, d.trail);
  }

  /** A value may be written, and is read back exactly if it is free of NULs. */
  ghost predicate ReadsBack(v: Value, st: Style) {
    NumbersWritable(v) && (ReadsAs(Show(v, 0, st), v) <==> NulFree(v))
  }

  /**
    What the parser returned may be written, and is read back from what is written exactly when no
    string of it holds a NUL; the bare minus too.
  */
  lemma ParsedRoundTrip(text: string, st: Style)
    requires ScanDoc(text).Accepted? && Blank(st)
    ensures ReadsBack(DecodeTree(ScanDoc(text).doc.v), st)
  {
    AcceptedTree(text);
    TreeIsReadBack(ScanDoc(text).doc.v, st);
  }

  lemma AcceptedTree(text: string)
    requires ScanDoc(text).Accepted?
    ensures var t := ScanDoc(text).doc.v; ValidTree(t, MAX_RECURSION) || t == TNum(BareMinus)
  {
    AcceptanceIsGrammar(text, ScanDoc(text).doc);
  }

  lemma TreeIsReadBack(t: Tree, st: Style)
    requires (ValidTree(t, MAX_RECURSION) || t == TNum(BareMinus)) && Blank(st)
    ensures ReadsBack(DecodeTree(t), st)
  {
    if ValidTree(t, MAX_RECURSION) {
      DecodedNumbers(t, MAX_RECURSION);
      DecodedNesting(t, MAX_RECURSION);
      ValueIsReadBack(DecodeTree(t), st);
    } else {
      MinusIsReadBack(st);
    }
  }

  lemma ValueIsReadBack(v: Value, st: Style)
    requires NumbersOk(v) && Nested(v, MAX_RECURSION) && Blank(st)
    ensures ReadsBack(v, st)
  {
    OkIsWritable(v);
    RoundTrip(v, st);
  }

  lemma MinusIsReadBack(st: Style)
    ensures ReadsBack(DecodeTree(TNum(BareMinus)), st)
  {
    NumberIsCopied("-");
    var d := Doc("", TNum(BareMinus), "");
    assert EmitDoc(d) == "-";
    AcceptanceIsGrammar("-", d);
    assert DecodeTree(TNum(BareMinus)) == Number("-");
  }
}
