/**
  How the written text is laid out: a value is a list of lines, each at a depth, and the text is these
  lines one below the other, each behind as many indents as it is deep.
*/
module JsonLines {
  import opened JsonSyntax
  import opened JsonScan
  import opened JsonDom
  import opened JsonNumber
  import opened JsonText

  datatype Line = Line(depth: nat, text: string)

  /** A value that takes one line. */
  function Flat(v: Value): string {
    match v
    case Null => "null"
    case True => "true"
    case False => "false"
    case Number(text) => ShowNumber(text)
    case Str(s) => ShowString(s)
    case Arr(_) => "[]"
    case Obj(_) => "{}"
  }

  predicate TakesOneLine(v: Value) {
    match v
    case Arr(elems) => elems == []
    case Obj(members) => members == []
    case _ => true
  }

  /**
    The lines of a value behind `front` and before `back`: brackets on lines of their own, what is
    between them one deeper, and a comma behind every item but the last.
  */
  function Lines(v: Value, depth: nat, st: Style, front: string, back: string): (ls: seq<Line>)
    ensures ls != []
    decreases v, 0
  {
    if TakesOneLine(v) then [Line(depth, front + (Flat(v) + back))]
    else
      match v
      case Arr(elems) =>
        [Line(depth, front + "[")] + ElemLines(elems, depth + 1, st) + [Line(depth, "]" + back)]
      case Obj(members) =>
        [Line(depth, front + "{")] + MemberLines(members, depth + 1, st) + [Line(depth, "}" + back)]
  }

  function ElemLines(elems: seq<Value>, depth: nat, st: Style): (ls: seq<Line>)
    requires elems != []
    ensures ls != []
    decreases elems, 0
  {
    if |elems| == 1 then Lines(elems[0], depth, st, "", "")
    else Lines(elems[0], depth, st, "", ",") + ElemLines(elems[1..], depth, st)
  }

  function MemberLines(members: seq<Member>, depth: nat, st: Style): (ls: seq<Line>)
    requires members != []
    ensures ls != []
    decreases members, 0
  {
    if |members| == 1 then LinesOf(members[0], depth, st, "")
    else LinesOf(members[0], depth, st, ",") + MemberLines(members[1..], depth, st)
  }

  function LinesOf(m: Member, depth: nat, st: Style, back: string): (ls: seq<Line>)
    ensures ls != []
    decreases m, 1
  {
    Lines(m.value, depth, st, ShowString(m.name) + (st.before + ":" + st.after), back)
  }

  /** The lines one below the other. */
  function Laid(ls: seq<Line>, st: Style): string
    requires ls != []
    decreases |ls|
  {
    var line := Repeat(st.indent, ls[0].depth) + ls[0].text;
    if |ls| == 1 then line else line + (st.newline + Laid(ls[1..], st))
  }

  lemma {:induction false} LaidTogether(a: seq<Line>, b: seq<Line>, st: Style)
    requires a != [] && b != []
    ensures Laid(a + b, st) == Laid(a, st) + (st.newline + Laid(b, st))
    decreases |a|
  {
    var line := Repeat(st.indent, a[0].depth) + a[0].text;
    assert (a + b)[0] == a[0] && (a + b)[1..] == a[1..] + b;
    if |a| == 1 {
      assert a[1..] + b == b;
    } else {
      LaidTogether(a[1..], b, st);
      Associates4(line, st.newline, Laid(a[1..], st), st.newline + Laid(b, st));
    }
  }

  lemma Associates4(a: string, b: string, c: string, d: string)
    ensures a + (b + (c + d)) == (a + (b + c)) + d
  {}

  /** Brackets around lines that are deeper. */
  lemma LaidBracketed(open: string, inner: seq<Line>, close: string, depth: nat, st: Style)
    requires inner != []
    ensures Laid([Line(depth, open)] + inner + [Line(depth, close)], st)
            == Repeat(st.indent, depth) + open + (st.newline + Laid(inner, st) + st.newline + Repeat(st.indent, depth)) + close
  {
    var pad := Repeat(st.indent, depth);
    var first, last := [Line(depth, open)], [Line(depth, close)];
    LaidTogether(first, inner, st);
    LaidTogether(first + inner, last, st);
    assert Laid(first, st) == pad + open && Laid(last, st) == pad + close;
    Associates6(pad + open, st.newline, Laid(inner, st), st.newline, pad, close);
  }

  lemma Associates6(a: string, b: string, c: string, d: string, e: string, f: string)
    ensures (a + (b + c)) + (d + (e + f)) == a + (b + c + d + e) + f
  {}

  /** The text of a value is its lines. */
  lemma {:induction false} TextIsLaid(v: Value, depth: nat, st: Style, front: string, back: string)
    ensures Laid(Lines(v, depth, st, front, back), st)
            == Repeat(st.indent, depth) + (front + (Show(v, depth, st) + back))
    decreases v, 0
  {
    if !TakesOneLine(v) {
      match v {
        case Arr(elems) =>
          ElemsAreLaid(elems, depth, st);
          LaidBracketed(front + "[", ElemLines(elems, depth + 1, st), "]" + back, depth, st);
          BracketsMove(Repeat(st.indent, depth), front, "[", ShowBody(ShowElems(elems, true, depth, st), false,
                       depth, st), "]", back);
        case Obj(members) =>
          MembersAreLaid(members, depth, st);
          LaidBracketed(front + "{", MemberLines(members, depth + 1, st), "}" + back, depth, st);
          BracketsMove(Repeat(st.indent, depth), front, "{", ShowBody(ShowMembers(members, true, depth, st), false,
                       depth, st), "}", back);
        case _ =>
      }
    } else {
      FlatIsShown(v, depth, st);
    }
  }

  lemma FlatIsShown(v: Value, depth: nat, st: Style)
    requires TakesOneLine(v)
    ensures Flat(v) == Show(v, depth, st)
  {}

  lemma BracketsMove(pad: string, front: string, open: string, body: string, close: string, back: string)
    ensures pad + (front + open) + body + (close + back) == pad + (front + ((open + body + close) + back))
  {}

  lemma {:induction false} ElemsAreLaid(elems: seq<Value>, depth: nat, st: Style)
    requires elems != []
    ensures Laid(ElemLines(elems, depth + 1, st), st) == ShowElems(elems, true, depth, st)
    decreases elems, 0
  {
    var pad := Repeat(st.indent, depth + 1);
    var shown := Show(elems[0], depth + 1, st);
    if |elems| == 1 {
      TextIsLaid(elems[0], depth + 1, st, "", "");
      assert elems[1..] == [];
      LastItem(pad, shown);
    } else {
      TextIsLaid(elems[0], depth + 1, st, "", ",");
      ElemsAreLaid(elems[1..], depth, st);
      LaidTogether(Lines(elems[0], depth + 1, st, "", ","), ElemLines(elems[1..], depth + 1, st), st);
      ElemsFirst(elems[1..], depth, st);
      NextItem(pad, shown, st.newline, ShowElems(elems[1..], true, depth, st));
    }
  }

  /** Only the comma and the newline in front tell whether items are the first. */
  lemma ElemsFirst(elems: seq<Value>, depth: nat, st: Style)
    requires elems != []
    ensures ShowElems(elems, false, depth, st) == "," + st.newline + ShowElems(elems, true, depth, st)
  {
    var pad, rest := Repeat(st.indent, depth + 1), ShowElems(elems[1..], false, depth, st);
    CommaMoves(st.newline, pad, Show(elems[0], depth + 1, st), rest);
  }

  lemma MembersFirst(members: seq<Member>, depth: nat, st: Style)
    requires members != []
    ensures ShowMembers(members, false, depth, st) == "," + st.newline + ShowMembers(members, true, depth, st)
  {
    var pad, rest := Repeat(st.indent, depth + 1), ShowMembers(members[1..], false, depth, st);
    CommaMoves(st.newline, pad, ShowMember(members[0], depth, st), rest);
  }

  lemma CommaMoves(newline: string, pad: string, item: string, rest: string)
    ensures ("," + newline) + pad + item + rest == "," + newline + (("" + pad) + item + rest)
  {}

  lemma LastItem(pad: string, item: string)
    ensures pad + ("" + (item + "")) == ("" + pad) + item + ""
  {}

  lemma NextItem(pad: string, item: string, newline: string, rest: string)
    ensures pad + ("" + (item + ",")) + (newline + rest) == ("" + pad) + item + ("," + newline + rest)
  {}

  lemma {:induction false} MembersAreLaid(members: seq<Member>, depth: nat, st: Style)
    requires members != []
    ensures Laid(MemberLines(members, depth + 1, st), st) == ShowMembers(members, true, depth, st)
    decreases members, 0
  {
    var pad := Repeat(st.indent, depth + 1);
    var shown := ShowMember(members[0], depth, st);
    if |members| == 1 {
      MemberIsLaid(members[0], depth, st, "");
      assert members[1..] == [];
      LastItem(pad, shown);
    } else {
      MemberIsLaid(members[0], depth, st, ",");
      MembersAreLaid(members[1..], depth, st);
      LaidTogether(LinesOf(members[0], depth + 1, st, ","), MemberLines(members[1..], depth + 1, st), st);
      MembersFirst(members[1..], depth, st);
      NextItem(pad, shown, st.newline, ShowMembers(members[1..], true, depth, st));
    }
  }

  lemma {:induction false} MemberIsLaid(m: Member, depth: nat, st: Style, back: string)
    ensures Laid(LinesOf(m, depth + 1, st, back), st)
            == Repeat(st.indent, depth + 1) + ("" + (ShowMember(m, depth, st) + back))
    decreases m, 1
  {
    var front := ShowString(m.name) + (st.before + ":" + st.after);
    TextIsLaid(m.value, depth + 1, st, front, back);
    MemberMoves(front, Show(m.value, depth + 1, st), back);
  }

  lemma MemberMoves(front: string, value: string, back: string)
    ensures front + (value + back) == "" + ((front + value) + back)
  {}

  /** A whole text, and its minified form, in which the lines stand behind one another. */
  lemma WholeTextIsLaid(v: Value, st: Style)
    ensures Show(v, 0, st) == Laid(Lines(v, 0, st, "", ""), st)
  {
    TextIsLaid(v, 0, st, "", "");
    assert "" + ("" + (Show(v, 0, st) + "")) == Show(v, 0, st);
  }

  // ------------------------------------------------------------------ blanks of the minified form

  ghost predicate Unspaced(s: string) {
    forall i | 0 <= i < |s| :: !IsSpace(s[i])
  }

  /** No name and no string holds a space, and no number a blank. */
  ghost predicate SpaceFree(v: Value)
    decreases v, 0
  {
    match v
    case Str(s) => ' ' !in s
    case Number(text) => Unspaced(ShowNumber(text))
    case Arr(elems) => forall i | 0 <= i < |elems| :: SpaceFree(elems[i])
    case Obj(members) => forall i | 0 <= i < |members| :: SpaceFreeIn(members[i])
    case _ => true
  }

  ghost predicate SpaceFreeIn(m: Member)
    decreases m, 1
  {
    ' ' !in m.name && SpaceFree(m.value)
  }

  lemma {:induction false} CharsUnspaced(s: string)
    requires ' ' !in s
    ensures Unspaced(ShowChars(s))
    decreases |s|
  {
    if s != "" {
      CharsUnspaced(s[1..]);
      CharUnspaced(s[0]);
    }
  }

  lemma CharUnspaced(c: char)
    requires c != ' '
    ensures Unspaced(ShowChar(c))
  {}

  lemma {:induction false} RepeatNothing(n: nat)
    ensures Repeat("", n) == ""
  {
    if n > 0 { RepeatNothing(n - 1); }
  }

  /** The minified form has blanks only where a string has them. */
  lemma {:induction false} MinifiedIsUnspaced(v: Value, depth: nat)
    requires SpaceFree(v)
    ensures Unspaced(Show(v, depth, MINIFIED))
    decreases v, 0
  {
    match v {
      case Str(s) => CharsUnspaced(s);
      case Arr(elems) =>
        RepeatNothing(depth);
        ElemsUnspaced(elems, true, depth);
      case Obj(members) =>
        RepeatNothing(depth);
        MembersUnspaced(members, true, depth);
      case _ =>
    }
  }

  lemma {:induction false} ElemsUnspaced(elems: seq<Value>, first: bool, depth: nat)
    requires forall i | 0 <= i < |elems| :: SpaceFree(elems[i])
    ensures Unspaced(ShowElems(elems, first, depth, MINIFIED))
    decreases elems, 0
  {
    if elems != [] {
      RepeatNothing(depth + 1);
      MinifiedIsUnspaced(elems[0], depth + 1);
      ElemsUnspaced(elems[1..], false, depth);
    }
  }

  lemma {:induction false} MembersUnspaced(members: seq<Member>, first: bool, depth: nat)
    requires forall i | 0 <= i < |members| :: SpaceFreeIn(members[i])
    ensures Unspaced(ShowMembers(members, first, depth, MINIFIED))
    decreases members, 0
  {
    if members != [] {
      RepeatNothing(depth + 1);
      MemberUnspaced(members[0], depth);
      MembersUnspaced(members[1..], false, depth);
    }
  }

  lemma {:induction false} MemberUnspaced(m: Member, depth: nat)
    requires SpaceFreeIn(m)
    ensures Unspaced(ShowMember(m, depth, MINIFIED))
    decreases m, 1
  {
    CharsUnspaced(m.name);
    MinifiedIsUnspaced(m.value, depth + 1);
  }
}
