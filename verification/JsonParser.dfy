/**
  json_parse_ex: a validating pass that only measures, one allocation of exactly what it
  measured, and a second pass that fills the allocation without checking anything.

  Every access `src[offset]` below carries Dafny's bounds check, so verification alone says that
  neither pass reads at or behind the end of the input, and that the second never writes outside
  the data area the first one measured.
*/
module JsonParser {
  import opened JsonSyntax
  import opened JsonScan
  import opened JsonDom
  import opened Bits
  import opened JsonBits
  import opened Numerals

  // ------------------------------------------------------------------ what the size pass adds up

  /** Bytes the size pass reserves for the characters of a string. */
  function ItemsCost(s: Items): nat {
    |DecodeItems(s)| + ItemsPairs(s)
  }

  function ElemsCost(es: Elems): nat {
    |ElemsPayload(es)| + ElemsPairs(es)
  }

  function MembersCost(ms: Members): nat {
    |MembersPayload(ms)| + MembersPairs(ms)
  }

  function Cost(t: Tree): nat {
    |Payload(t)| + Pairs(t)
  }

  function ScanValue(r: string, depth: nat): Scan<Tree> {
    if SkipSpace(r) == "" then Bad else ScanTree(SkipSpace(r), depth)
  }

  /** sizeof(unsigned long) on an LP64 machine. */
  const WORD_BYTES: nat := 8

  /** The number written by hexadecimal digits, most significant first. */
  function HexNumber(h: string): nat
    requires forall i | 0 <= i < |h| :: IsHex(h[i])
  {
    if h == "" then 0 else HexNumber(h[..|h| - 1]) * 16 + HexDigit(h[|h| - 1])
  }

  /** Digits of either case are the number they are the places of. */
  lemma {:induction false} SpelledNumber(h: string, ds: seq<nat>)
    requires Spells(h, ds)
    ensures forall i | 0 <= i < |h| :: IsHex(h[i])
    ensures HexNumber(h) == Base16(ds)
    decreases |h|
  {
    if h != "" {
      var n := |h| - 1;
      SpelledNumber(h[..n], ds[..n]);
      DigitWorth(ds[n], h[n]);
      assert forall i | 0 <= i < n :: h[i] == h[..n][i];
    }
  }

  lemma FourDigits(h: string)
    requires FourHex(h)
    ensures forall i | 0 <= i < |h| :: IsHex(h[i])
    ensures HexNumber(h) == HexValue(h)
  {
    assert h[..3][..2] == h[..2] && h[..2][..1] == h[..1];
    assert HexNumber(h[..1]) == HexDigit(h[0]);
    assert HexNumber(h[..2]) == HexDigit(h[0]) * 16 + HexDigit(h[1]);
    assert HexNumber(h[..3]) == (HexDigit(h[0]) * 16 + HexDigit(h[1])) * 16 + HexDigit(h[2]);
  }

  /** One turn of the string loop of the size pass at a character that is no escape. */
  lemma PlainStep(r: string)
    requires r != "" && r[0] != '"' && r[0] != '\\'
    ensures var x := ScanItems(r);
            var y := ScanItems(r[1..]);
            && (x.Got? <==> !IsForbidden(r[0]) && y.Got?)
            && (x.Got? ==> x.rest == y.rest && x.t == SCons(Plain(r[0]), y.t))
  {}

  lemma UnicodeStep(r: string)
    requires HasUnicode(r)
    ensures var x := ScanItems(r);
            var n := HexValue(r[2..6]);
            && (IsLowSurrogate(n) ==> x.Bad?)
            && (!IsLowSurrogate(n) && !IsHighSurrogate(n) ==>
                  var y := ScanItems(r[6..]);
                  && (x.Got? <==> y.Got?)
                  && (x.Got? ==> x.rest == y.rest && x.t == SCons(Unicode(r[2..6]), y.t)))
  {}

  /** The second turn for a surrogate pair. */
  lemma PairStep(r: string)
    requires HasUnicode(r) && IsHighSurrogate(HexValue(r[2..6]))
    ensures var x := ScanItems(r);
            && (x.Got? ==> |r| >= 13 && HasUnicode(r[6..]))
            && (|r| >= 13 && HasUnicode(r[6..]) ==>
                  var n := HexValue(r[6..][2..6]);
                  var y := ScanItems(r[12..]);
                  && (x.Got? <==> IsLowSurrogate(n) && y.Got?)
                  && (x.Got? ==> x.rest == y.rest && x.t == SCons(Pair(r[2..6], r[6..][2..6]), y.t)
                                 && ValidItem(Pair(r[2..6], r[6..][2..6]))))
  {
    if |r| >= 13 {
      assert r[6..][2..6] == r[8..12];
    }
  }

  /** The scan `x` of a whole list, seen from where the scan `y` of its tail begins, `records` and `bytes` later. */
  ghost predicate ElemsTrack(x: Scan<Elems>, y: Scan<Elems>, records: int, bytes: int) {
    && (x.Got? <==> y.Got?)
    && (x.Got? ==> && x.rest == y.rest
                   && ElemsRecordSize(x.t) == records + ElemsRecordSize(y.t)
                   && ElemsCost(x.t) == bytes + ElemsCost(y.t))
  }

  ghost predicate MembersTrack(x: Scan<Members>, y: Scan<Members>, records: int, bytes: int) {
    && (x.Got? <==> y.Got?)
    && (x.Over? <==> y.Over?)
    && (x.Got? ==> && x.rest == y.rest
                   && MembersRecordSize(x.t) == records + MembersRecordSize(y.t)
                   && MembersCost(x.t) == bytes + MembersCost(y.t))
  }

  /** What stands in front of the item at `r2` has been consumed from `r`. */
  ghost predicate Front(r: string, close: char, first: bool, r2: string) {
    && SkipSpace(r) != "" && SkipSpace(r)[0] != close && r2 != ""
    && if first then r2 == SkipSpace(r)
       else SkipSpace(r)[0] == ',' && r2 == SkipSpace(SkipSpace(r)[1..])
  }

  lemma FrontHasNoBlank(r: string, close: char, first: bool, r2: string)
    requires Front(r, close, first, r2)
    ensures SkipSpace(r2) == r2
  {
    SpaceSplits(r);
    SpaceSplits(SkipSpace(r)[1..]);
  }

  lemma ElemTurn(x: Scan<Elems>, r: string, first: bool, depth: nat, records: int, bytes: int, r2: string)
    returns (records': int, bytes': int, v: Scan<Tree>)
    requires ElemsTrack(x, ScanElems(r, first, depth), records, bytes)
    requires Front(r, ']', first, r2)
    ensures v == ScanTree(r2, depth)
    ensures !v.Got? ==> !x.Got?
    ensures v.Got? ==>
              && ElemsTrack(x, ScanElems(v.rest, false, depth), records', bytes')
              && records' == records + ARRAY_ELEMENT + VALUE + RecordSize(v.t)
              && bytes' == bytes + Cost(v.t)
  {
    v := ScanTree(r2, depth);
    records', bytes' := records, bytes;
    if v.Got? {
      records' := records + ARRAY_ELEMENT + VALUE + RecordSize(v.t);
      bytes' := bytes + Cost(v.t);
    }
  }

  /** A member up to and including its value. */
  function ScanMember(r: string, depth: nat): Scan<(Key, Tree)> {
    match ScanKey(r)
    case Got(k, r1) =>
      (match ScanTree(r1, depth)
       case Got(v, rest) => Got((k, v), rest)
       case Over => Over
       case Bad => Bad)
    case _ => Bad
  }

  function MemberRecords(m: (Key, Tree)): nat {
    STRING + VALUE + RecordSize(m.1)
  }

  function MemberCost(m: (Key, Tree)): nat {
    ItemsCost(m.0.key) + 1 + Cost(m.1)
  }

  lemma MemberTurn(x: Scan<Members>, r: string, first: bool, depth: nat, records: int, bytes: int, r2: string)
    returns (records': int, bytes': int, v: Scan<(Key, Tree)>)
    requires MembersTrack(x, ScanMembers(r, first, depth), records, bytes)
    requires Front(r, '}', first, r2)
    ensures v == ScanMember(r2, depth)
    ensures v.Bad? ==> x.Bad?
    ensures v.Over? ==> x.Over?
    ensures v.Got? ==>
              && MembersTrack(x, ScanMembers(v.rest, false, depth), records', bytes')
              && records' == records + OBJECT_ELEMENT + MemberRecords(v.t)
              && bytes' == bytes + MemberCost(v.t)
  {
    v := ScanMember(r2, depth);
    if v.Got? {
      records' := records + OBJECT_ELEMENT + MemberRecords(v.t);
      bytes' := bytes + MemberCost(v.t);
    } else {
      records', bytes' := records, bytes;
    }
  }

  lemma KeyLeavesNoBlank(r: string)
    requires ScanKey(r).Got?
    ensures SkipSpace(ScanKey(r).rest) == ScanKey(r).rest
  {
    SpaceSplits(SkipSpace(ScanString(r).rest)[1..]);
  }

  /** What an escape writes while `high` is pending, and what is pending after it. */
  function UnicodeText(n: nat, high: nat): string
    requires n < 0x10000
  {
    if IsHighSurrogate(n) then ""
    else if !IsLowSurrogate(n) then Utf8(n)
    else if IsHighSurrogate(high) then Utf8(Combined(high, n))
    else ""
  }

  function PendingAfter(n: nat, high: nat): nat {
    if IsHighSurrogate(n) then n else if IsLowSurrogate(n) then 0 else high
  }

  /**
    Where the element loop of the parse pass stands: `y` scans what the list still holds from `r`,
    and `comma` says that the comma in front of the next element has been consumed.
  */
  datatype ArrayState = ArrayState(r: string, first: bool, comma: bool, y: Scan<Elems>) {
    ghost predicate Valid(depth: nat) {
      && y == ScanElems(r, first, depth) && y.Got?
      && (comma ==> !first && y.t.ECons?)
    }

    /** The input behind the blanks at the head of the loop. */
    function Item(): string {
      var s := SkipSpace(r);
      if comma && s != "" then SkipSpace(s[1..]) else s
    }

    lemma Head(depth: nat)
      requires Valid(depth)
      ensures Item() != "" && SkipSpace(Item()) == Item()
      ensures Item()[0] == ']' <==> y.t.EEnd?
      ensures y.t.EEnd? ==> Item()[1..] == y.rest
    {
      SpaceSplits(r);
      if y.t.ECons? {
        SpaceSplits(SkipSpace(r)[1..]);
        if comma || first {
          TreeStart(Item(), depth);
        }
      }
    }

    /** Past the first element, a comma comes next. */
    lemma AtComma(depth: nat)
      requires Valid(depth) && y.t.ECons? && !comma && !first
      ensures Item() != "" && Item()[0] == ',' && this.(comma := true).Valid(depth)
      ensures SkipSpace(Item()[1..]) == this.(comma := true).Item() && SkipSpace(Item()[1..]) != ""
    {
      SpaceSplits(SkipSpace(r)[1..]);
    }

    lemma AtElement(depth: nat)
      requires Valid(depth) && y.t.ECons? && (comma || first)
      ensures Item() != "" && Item()[0] != ','
      ensures var v := ScanTree(Item(), depth);
              v.Got? && v.t == y.t.v && ScanElems(v.rest, false, depth) == Got(y.t.tail, y.rest)
    {
      TreeStart(Item(), depth);
    }
  }

  lemma TreeStart(r: string, depth: nat)
    requires r != "" && ScanTree(r, depth).Got?
    ensures r[0] != ']' && r[0] != '}' && r[0] != ','
  {
    assert Starts("true", r) ==> r[0] == r[..4][0];
    assert Starts("false", r) ==> r[0] == r[..5][0];
    assert Starts("null", r) ==> r[0] == r[..4][0];
  }

  /**
    What a list loop of the parse pass has done: `elems` and `text` are complete but for the tail
    `y` of the list `z`; `at0`, `dom0` and `front` are where the loop began.
  */
  ghost predicate ElemsFilled(z: Elems, dom0: nat, front: string, y: Elems, elems: seq<Dom>, dom: nat, text: string) {
    && elems + ElemsLayout(y, |text|) == ElemsLayout(z, |front|)
    && dom + ElemsRecordSize(y) == dom0 + ElemsRecordSize(z)
    && text + ElemsPayload(y) == front + ElemsPayload(z)
  }

  lemma ElemsFilledStart(z: Elems, dom0: nat, front: string)
    ensures ElemsFilled(z, dom0, front, z, [], dom0, front)
  {
    assert [] + ElemsLayout(z, |front|) == ElemsLayout(z, |front|);
  }

  lemma ElemsFilledEnd(z: Elems, dom0: nat, front: string, y: Elems, elems: seq<Dom>, dom: nat, text: string)
    requires ElemsFilled(z, dom0, front, y, elems, dom, text) && y.EEnd?
    ensures elems == ElemsLayout(z, |front|) && dom == dom0 + ElemsRecordSize(z) && text == front + ElemsPayload(z)
  {}

  lemma ElemsFilledNext(z: Elems, dom0: nat, front: string, y: Elems, elems: seq<Dom>, dom: nat, text: string)
    requires ElemsFilled(z, dom0, front, y, elems, dom, text) && y.ECons?
    ensures ElemsFilled(z, dom0, front, y.tail, elems + [Layout(y.v, |text|)],
                        dom + ARRAY_ELEMENT + VALUE + RecordSize(y.v), text + Payload(y.v))
    ensures |text + Payload(y.v)| <= |front + ElemsPayload(z)|
  {
    WrittenSplits(text, Payload(y.v), ElemsPayload(y.tail));
    var rest := ElemsLayout(y.tail, |text| + |Payload(y.v)|);
    SnocSplits(elems, Layout(y.v, |text|), rest);
  }

  datatype ObjectState = ObjectState(r: string, first: bool, comma: bool, y: Scan<Members>) {
    ghost predicate Valid(depth: nat) {
      && y == ScanMembers(r, first, depth) && y.Got?
      && (comma ==> !first && y.t.MCons?)
    }

    function Item(): string {
      var s := SkipSpace(r);
      if comma && s != "" then SkipSpace(s[1..]) else s
    }

    lemma Head(depth: nat)
      requires Valid(depth)
      ensures Item() != "" && SkipSpace(Item()) == Item()
      ensures Item()[0] == '}' <==> y.t.MEnd?
      ensures y.t.MEnd? ==> Item()[1..] == y.rest
    {
      SpaceSplits(r);
      if y.t.MCons? {
        SpaceSplits(SkipSpace(r)[1..]);
      }
    }

    /** Past the first member, a comma comes next. */
    lemma AtComma(depth: nat)
      requires Valid(depth) && y.t.MCons? && !comma && !first
      ensures Item() != "" && Item()[0] == ',' && this.(comma := true).Valid(depth)
      ensures SkipSpace(Item()[1..]) == this.(comma := true).Item() && SkipSpace(Item()[1..]) != ""
    {
      SpaceSplits(SkipSpace(r)[1..]);
    }

    lemma AtMember(depth: nat)
      requires Valid(depth) && y.t.MCons? && (comma || first)
      ensures var s := ScanString(Item());
              && Item() != "" && Item()[0] == '"' && s.Got? && s.t == y.t.key
              && var k := ScanColon(s.t, s.rest);
                 && k.Got? && SkipSpace(k.rest) == k.rest
                 && var v := ScanTree(k.rest, depth);
                    v.Got? && v.t == y.t.v && ScanMembers(v.rest, false, depth) == Got(y.t.tail, y.rest)
    {
      KeyLeavesNoBlank(Item());
    }
  }

  ghost predicate MembersFilled(z: Members, dom0: nat, front: string, y: Members, members: seq<DMember>, dom: nat, text: string) {
    && members + MembersLayout(y, |text|) == MembersLayout(z, |front|)
    && dom + MembersRecordSize(y) == dom0 + MembersRecordSize(z)
    && text + MembersPayload(y) == front + MembersPayload(z)
  }

  lemma MembersFilledStart(z: Members, dom0: nat, front: string)
    ensures MembersFilled(z, dom0, front, z, [], dom0, front)
  {
    assert [] + MembersLayout(z, |front|) == MembersLayout(z, |front|);
  }

  lemma MembersFilledEnd(z: Members, dom0: nat, front: string, y: Members, members: seq<DMember>, dom: nat, text: string)
    requires MembersFilled(z, dom0, front, y, members, dom, text) && y.MEnd?
    ensures members == MembersLayout(z, |front|) && dom == dom0 + MembersRecordSize(z) && text == front + MembersPayload(z)
  {}

  lemma MembersFilledNext(z: Members, dom0: nat, front: string, y: Members, members: seq<DMember>, dom: nat, text: string)
    requires MembersFilled(z, dom0, front, y, members, dom, text) && y.MCons?
    ensures var name := DecodeItems(y.key);
            var text1 := text + (name + "\0");
            && MembersFilled(z, dom0, front, y.tail, members + [DMember(|text|, |name|, Layout(y.v, |text1|))],
                             dom + OBJECT_ELEMENT + STRING + VALUE + RecordSize(y.v), text1 + Payload(y.v))
  {
    var name := DecodeItems(y.key);
    var text1 := text + (name + "\0");
    assert |text1| == ValueAt(y.key, |text|);
    assert |text1 + Payload(y.v)| == TailAt(y.key, y.v, |text|);
    MemberPayloadNext(y, text);
    MemberLayoutNext(y, members, |text|);
  }

  lemma MembersFilledFits(z: Members, front: string, y: Members, text: string)
    requires text + MembersPayload(y) == front + MembersPayload(z) && y.MCons?
    ensures |text| + |DecodeItems(y.key)| + 1 + |Payload(y.v)| <= |front + MembersPayload(z)|
  {
    MemberPayloadNext(y, text);
  }

  lemma MemberPayloadNext(y: Members, text: string)
    requires y.MCons?
    ensures text + MembersPayload(y)
            == ((text + (DecodeItems(y.key) + "\0")) + Payload(y.v)) + MembersPayload(y.tail)
  {
    var name := DecodeItems(y.key) + "\0";
    WrittenSplits(text, name, Payload(y.v) + MembersPayload(y.tail));
    WrittenSplits(text + name, Payload(y.v), MembersPayload(y.tail));
  }

  lemma MemberLayoutNext(y: Members, members: seq<DMember>, at: nat)
    requires y.MCons?
    ensures members + MembersLayout(y, at)
            == (members + [DMember(at, |DecodeItems(y.key)|, Layout(y.v, ValueAt(y.key, at)))])
               + MembersLayout(y.tail, TailAt(y.key, y.v, at))
  {
    SnocSplits(members, DMember(at, |DecodeItems(y.key)|, Layout(y.v, ValueAt(y.key, at))),
               MembersLayout(y.tail, TailAt(y.key, y.v, at)));
  }

  lemma SnocSplits<T>(s: seq<T>, x: T, t: seq<T>)
    ensures s + ([x] + t) == (s + [x]) + t
  {}

  class ParseState {
    const src: string
    var offset: nat
    var domSize: nat
    var dataSize: nat
    var recursion: nat

    /** Second pass: bytes of records handed out, the data area, and the next free index in it. */
    var dom: nat
    var data: array<char>
    var next: nat

    constructor (src: string)
      ensures this.src == src && offset == 0 && recursion == 0
      ensures domSize == dataSize == dom == next == 0
    {
      this.src := src;
      offset, domSize, dataSize, recursion := 0, 0, 0, 0;
      dom, next := 0, 0;
      data := new char[0];
    }

    /** The unread part of the input. */
    function Rest(): string
      requires offset <= |src|
      reads this`offset
    {
      src[offset..]
    }

    // ---------------------------------------------------------------- blanks

    method SkipWhitespace() returns (consumed: bool)
      requires offset <= |src| + 1
      modifies `offset
      ensures old(offset) > |src| ==> !consumed && offset == old(offset)
      ensures old(offset) <= |src| ==> old(offset) <= offset <= |src| && Rest() == SkipSpace(old(Rest()))
      ensures consumed <==> offset != old(offset)
    {
      if offset >= |src| || !IsSpace(src[offset]) {
        return false;
      }
      var o := offset;
      while o < |src| && IsSpace(src[o])
        invariant offset <= o <= |src|
        invariant o == offset ==> IsSpace(src[o])
        invariant SkipSpace(src[o..]) == SkipSpace(old(Rest()))
      {
        assert src[o..][1..] == src[o + 1..];
        o := o + 1;
      }
      offset := o;
      return true;
    }

    /** Skips blanks until none are left; `err` when that is the end of the input. */
    method SkipAllSkippables() returns (err: bool)
      requires offset <= |src| + 1
      modifies `offset
      ensures old(offset) > |src| ==> !err && offset == old(offset)
      ensures old(offset) <= |src| ==>
                && old(offset) <= offset <= |src|
                && Rest() == SkipSpace(old(Rest()))
                && (err <==> Rest() == "")
    {
      var didConsume := true;
      ghost var r0 := if offset <= |src| then Rest() else "";
      while didConsume
        invariant old(offset) > |src| ==> offset == old(offset)
        invariant old(offset) <= |src| ==>
                    old(offset) <= offset <= |src| && SkipSpace(Rest()) == SkipSpace(r0)
        invariant old(offset) <= |src| && !didConsume ==> SkipSpace(Rest()) == Rest()
        decreases didConsume, |src| + 1 - offset
      {
        if offset == |src| {
          return true;
        }
        ghost var r := if offset <= |src| then Rest() else "";
        didConsume := SkipWhitespace();
        if old(offset) <= |src| {
          SpaceSplits(r);
        }
      }
      return offset == |src|;
    }

    // ---------------------------------------------------------------- size pass: strings

    /**
      Shifts every digit into the result; false for more digits than a word holds, and at the first
      character that is none.
    */
    method HexadecimalValue(at: nat, size: nat) returns (ok: bool, result: nat)
      requires at + size <= |src|
      ensures ok <==> size <= 2 * WORD_BYTES && forall i | at <= i < at + size :: IsHex(src[i])
      ensures ok ==> result == HexNumber(src[at..at + size])
    {
      if size > 2 * WORD_BYTES {
        return false, 0;
      }
      result := 0;
      for i := 0 to size
        invariant forall j | at <= j < at + i :: IsHex(src[j])
        invariant result == HexNumber(src[at..at + i])
      {
        var c := src[at + i];
        if !IsHex(c) {
          return false, 0;
        }
        assert src[at..at + i + 1][..i] == src[at..at + i];
        result := result * 16 + HexDigit(c);
      }
      return true, result;
    }

    /**
      The branch for a backslash-u of the size pass: the extra bytes the escape needs beyond the
      one already counted, and the new pending high surrogate.
    */
    method UnicodeEscape(o: nat, high: nat) returns (err: bool, extra: nat, high': nat)
      requires 1 <= o < |src| && src[o - 1] == '\\' && src[o] == 'u'
      ensures !err ==> HasUnicode(src[o - 1..])
      ensures err <==> !HasUnicode(src[o - 1..])
                       || (var n := HexValue(src[o - 1..][2..6]);
                           if high != 0 then !IsLowSurrogate(n)
                           else IsLowSurrogate(n)
                                || (IsHighSurrogate(n)
                                    && !(o + 11 <= |src| && src[o + 5] == '\\' && src[o + 6] == 'u')))
      ensures !err ==>
                var n := HexValue(src[o - 1..][2..6]);
                if high != 0 then extra == 3 && high' == 0
                else if IsHighSurrogate(n) then extra == 0 && high' == n
                else extra == |Utf8(n)| - 1 && high' == 0
    {
      extra, high' := 0, high;
      ghost var r := src[o - 1..];
      if !(o + 5 < |src|) {
        return true, 0, 0;
      }
      var ok, codepoint := HexadecimalValue(o + 1, 4);
      assert src[o + 1..o + 5] == r[2..6];
      assert ok ==> IsHex(src[o + 1]) && IsHex(src[o + 2]) && IsHex(src[o + 3]) && IsHex(src[o + 4]);
      if !ok {
        return true, 0, 0;
      }
      FourDigits(r[2..6]);
      err, extra, high' := EscapeBytes(o, codepoint, high);
    }

    /** What follows from its number: in the second half of a pair, in the first, or in neither. */
    method EscapeBytes(o: nat, codepoint: nat, high: nat) returns (err: bool, extra: nat, high': nat)
      requires o + 5 < |src| && codepoint < 0x1_0000
      ensures err <==> if high != 0 then !IsLowSurrogate(codepoint)
                       else IsLowSurrogate(codepoint)
                            || (IsHighSurrogate(codepoint)
                                && !(o + 11 <= |src| && src[o + 5] == '\\' && src[o + 6] == 'u'))
      ensures !err ==>
                if high != 0 then extra == 3 && high' == 0
                else if IsHighSurrogate(codepoint) then extra == 0 && high' == codepoint
                else extra == |Utf8(codepoint)| - 1 && high' == 0
    {
      extra, high' := 0, high;
      if high != 0 {
        if codepoint >= 0xDC00 && codepoint <= 0xDFFF {
          extra, high' := 3, 0;
        } else {
          return true, 0, 0;
        }
      } else if codepoint <= 0x7F {
        extra := 0;
      } else if codepoint <= 0x7FF {
        extra := 1;
      } else if codepoint >= 0xD800 && codepoint <= 0xDBFF {
        if o + 11 > |src| || src[o + 5] != '\\' || src[o + 6] != 'u' {
          return true, 0, 0;
        }
        high' := codepoint;
      } else if codepoint >= 0xD800 && codepoint <= 0xDFFF {
        return true, 0, 0;
      } else {
        extra := 2;
      }
      return false, extra, high';
    }

    /** `high` is the pending half of the surrogate pair whose first escape ends at `o`. */
    ghost predicate Pending(o: nat, high: nat) {
      && o <= |src|
      && (high != 0 ==>
            && o >= 6 && HasUnicode(src[o - 6..]) && IsHighSurrogate(HexValue(src[o - 6..][2..6]))
            && |src| >= o + 6 && src[o] == '\\' && src[o + 1] == 'u'
            && high == HexValue(src[o - 6..][2..6]))
    }

    /** Where the item being read began. */
    ghost function ItemStart(o: nat, high: nat): string
      requires Pending(o, high)
    {
      if high != 0 then src[o - 6..] else src[o..]
    }

    /** The scan `x` of the whole string, seen from position `o` with `size` bytes counted so far. */
    ghost predicate Tracks(x: Scan<Items>, o: nat, high: nat, size: nat) {
      && Pending(o, high)
      && var y := ScanItems(ItemStart(o, high));
         && (x.Got? <==> y.Got?)
         && (x.Got? ==> x.rest == y.rest
                        && ItemsCost(x.t) + (if high != 0 then 1 else 0) == size + ItemsCost(y.t))
    }

    lemma LetterTracks(x: Scan<Items>, o: nat, high: nat, size: nat)
      requires o + 1 < |src| && src[o] == '\\' && IsEscapeLetter(src[o + 1])
      requires Tracks(x, o, high, size)
      ensures Tracks(x, o + 2, high, size + 1)
    {
      assert src[o..][2..] == src[o + 2..];
    }

    lemma SingleTracks(x: Scan<Items>, o: nat, size: nat)
      requires o <= |src| && HasUnicode(src[o..])
      requires Tracks(x, o, 0, size)
      ensures var n := HexValue(src[o..][2..6]);
              && (IsLowSurrogate(n) ==> !x.Got?)
              && (!IsLowSurrogate(n) && !IsHighSurrogate(n) ==> Tracks(x, o + 6, 0, size + |Utf8(n)|))
    {
      var r := src[o..];
      UnicodeStep(r);
      assert r[6..] == src[o + 6..];
    }

    /** After the first half of a pair nothing is known but that the half stands there. */
    lemma HighTracks(x: Scan<Items>, o: nat, size: nat)
      requires o <= |src| && HasUnicode(src[o..]) && IsHighSurrogate(HexValue(src[o..][2..6]))
      requires Tracks(x, o, 0, size)
      ensures x.Got? ==> o + 12 <= |src| && src[o + 6] == '\\' && src[o + 7] == 'u'
      ensures o + 12 <= |src| && src[o + 6] == '\\' && src[o + 7] == 'u' ==>
                Tracks(x, o + 6, HexValue(src[o..][2..6]), size + 1)
    {
      PairStep(src[o..]);
      assert src[o..][6..] == src[o + 6..];
    }

    lemma LowTracks(x: Scan<Items>, o: nat, high: nat, size: nat)
      requires high != 0 && Tracks(x, o, high, size)
      ensures x.Got? ==> HasUnicode(src[o..]) && IsLowSurrogate(HexValue(src[o..][2..6]))
      ensures HasUnicode(src[o..]) && IsLowSurrogate(HexValue(src[o..][2..6])) ==> Tracks(x, o + 6, 0, size + 4)
    {
      var r := src[o - 6..];
      PairStep(r);
      assert r[6..] == src[o..] && r[12..] == src[o + 6..];
      var it := Pair(r[2..6], src[o..][2..6]);
      assert ValidItem(it) ==> |DecodeItem(it)| == 4;
    }

    lemma PlainTracks(x: Scan<Items>, o: nat, high: nat, size: nat)
      requires o < |src| && src[o] != '"' && src[o] != '\\'
      requires Tracks(x, o, high, size)
      ensures IsForbidden(src[o]) ==> !x.Got?
      ensures !IsForbidden(src[o]) ==> Tracks(x, o + 1, high, size + 1)
    {
      PlainStep(src[o..]);
      assert src[o..][1..] == src[o + 1..];
    }

    lemma EndTracks(x: Scan<Items>, o: nat, high: nat, size: nat)
      requires o <= |src| && (o < |src| ==> src[o] == '"')
      requires Tracks(x, o, high, size)
      ensures o == |src| ==> !x.Got?
      ensures o < |src| ==> x.Got? && x.rest == src[o + 1..] && ItemsCost(x.t) == size
    {
      assert o < |src| ==> src[o..][1..] == src[o + 1..];
    }

    /** One turn of the string loop at a backslash; `size` already counts one byte for it. */
    method EscapeTurn(o: nat, high: nat, size: nat, ghost x: Scan<Items>) returns (err: bool, o': nat, high': nat, size': nat)
      requires o < |src| && src[o] == '\\'
      requires size > 0 && Tracks(x, o, high, size - 1)
      ensures err ==> !x.Got?
      ensures !err ==> o < o' && Tracks(x, o', high', size')
    {
      o', high', size' := o + 1, high, size;
      if o' == |src| {
        return true, o', high', size';
      }
      if IsEscapeLetter(src[o']) {
        LetterTracks(x, o, high, size - 1);
        o' := o' + 1;
        err := false;
      } else if src[o'] == 'u' {
        var extra;
        err, extra, high' := UnicodeEscape(o', high);
        if high != 0 {
          LowTracks(x, o, high, size - 1);
        } else if HasUnicode(src[o..]) {
          if IsHighSurrogate(HexValue(src[o..][2..6])) {
            HighTracks(x, o, size - 1);
          } else {
            SingleTracks(x, o, size - 1);
          }
        }
        size', o' := size + extra, o' + 5;
      } else {
        err := true;
      }
    }

    method GetStringSize(ghost x: Scan<Items>) returns (err: bool)
      requires offset < |src| && x == ScanString(Rest())
      modifies `offset, `domSize, `dataSize
      ensures err <==> !x.Got?
      ensures !err ==>
                && old(offset) < offset <= |src| && Rest() == x.rest
                && domSize == old(domSize) + STRING
                && dataSize == old(dataSize) + ItemsCost(x.t) + 1
    {
      domSize := domSize + STRING;
      if src[offset] != '"' {
        return true;
      }
      StartTracks(x, offset);
      var o, size;
      err, o, size := StringLoop(x);
      if err {
        return true;
      }
      offset := o;
      dataSize := dataSize + size + 1;
    }

    lemma StartTracks(x: Scan<Items>, o: nat)
      requires o < |src| && src[o] == '"' && x == ScanString(src[o..])
      ensures Tracks(x, o + 1, 0, 0)
    {
      assert src[o..][1..] == src[o + 1..];
    }

    /** The loop of json_get_string_size, json.h:726-864. */
    method StringLoop(ghost x: Scan<Items>) returns (err: bool, o: nat, size: nat)
      requires offset < |src| && Tracks(x, offset + 1, 0, 0)
      ensures err <==> !x.Got?
      ensures !err ==> offset < o <= |src| && src[o..] == x.rest && size == ItemsCost(x.t)
    {
      var high := 0;
      o, size := offset + 1, 0;
      while o < |src| && src[o] != '"'
        invariant offset < o && Tracks(x, o, high, size)
        decreases |src| - o
      {
        size := size + 1;
        if src[o] == '\\' {
          err, o, high, size := EscapeTurn(o, high, size, x);
        } else {
          err, o := PlainTurn(o, high, size, x);
        }
        if err {
          return;
        }
      }
      EndTracks(x, o, high, size);
      if o == |src| {
        return true, o, size;
      }
      o, err := o + 1, false;
    }

    /** One turn at any other character; `size` already counts it. */
    method PlainTurn(o: nat, high: nat, size: nat, ghost x: Scan<Items>) returns (err: bool, o': nat)
      requires o < |src| && src[o] != '"' && src[o] != '\\'
      requires size > 0 && Tracks(x, o, high, size - 1)
      ensures err ==> !x.Got?
      ensures !err ==> o < o' && Tracks(x, o', high, size)
    {
      PlainTracks(x, o, high, size - 1);
      err := src[o] == '\0' || src[o] == '\t' || src[o] == '\r' || src[o] == '\n';
      o' := o + 1;
    }

    // ---------------------------------------------------------------- size pass: numbers

    method SkipDigitRun(o: nat) returns (o': nat)
      requires o <= |src|
      ensures o <= o' <= |src| && src[o'..] == SkipDigits(src[o..])
    {
      o' := o;
      while o' < |src| && IsDigit(src[o'])
        invariant o <= o' <= |src|
        invariant SkipDigits(src[o'..]) == SkipDigits(src[o..])
      {
        assert src[o'..][1..] == src[o' + 1..];
        o' := o' + 1;
      }
    }

    /** json.h:1336-1383; `n` is what has been read of the number so far. */
    method ExponentSize(o: nat, ghost n: Num) returns (err: bool, o': nat)
      requires o <= |src|
      ensures var x := ScanExponent(n, src[o..]);
              && (err <==> x.Bad?)
              && (x.Got? ==> o <= o' <= |src| && src[o'..] == x.rest)
              && (x.Over? ==> o' == |src| + 1)
    {
      ghost var r := src[o..];
      o' := o;
      if o' < |src| && (src[o'] == 'e' || src[o'] == 'E') {
        o' := o' + 1;
        assert r[1..] == src[o'..];
        if o' < |src| && (src[o'] == '-' || src[o'] == '+') {
          assert src[o'..][1..] == src[o' + 1..];
          o' := o' + 1;
        }
        if o' < |src| && !IsDigit(src[o']) {
          return true, o';
        }
        if o' == |src| {
          return false, o' + 1;
        }
        assert src[o'..][1..] == src[o' + 1..];
        o' := SkipDigitRun(o' + 1);
      }
      err := o' < |src| && !EndsNumber([src[o']]);
    }

    /** json.h:1316-1334, and on. */
    method FractionSize(o: nat, ghost n: Num) returns (err: bool, o': nat)
      requires o <= |src|
      ensures var x := ScanFraction(n, src[o..]);
              && (err <==> x.Bad?)
              && (x.Got? ==> o <= o' <= |src| && src[o'..] == x.rest)
              && (x.Over? ==> o' == |src| + 1)
    {
      o' := o;
      ghost var n' := n;
      if o' < |src| && src[o'] == '.' {
        assert src[o..][1..] == src[o + 1..];
        o' := o' + 1;
        if o' >= |src| || !IsDigit(src[o']) {
          return true, o';
        }
        n' := n.(frac := Digits(src[o'..]));
        o' := SkipDigitRun(o');
      }
      err, o' := ExponentSize(o', n');
    }

    /** Its digits in front of a point; a zero must be alone. */
    method LeadSize(start: nat) returns (err: bool, o: nat)
      requires start <= |src|
      ensures start <= o <= |src|
      ensures var r := src[start..];
              && (err <==> |r| > 1 && r[0] == '0' && IsDigit(r[1]))
              && (!err ==> src[o..] == SkipDigits(r))
    {
      ghost var r := src[start..];
      o := start;
      if o < |src| && src[o] == '0' {
        assert r[1..] == src[o + 1..];
        o := o + 1;
        if o < |src| && IsDigit(src[o]) {
          return true, o;
        }
      }
      o := SkipDigitRun(o);
      err := false;
    }

    /** json_get_number_size. */
    method GetNumberSize() returns (err: bool)
      requires offset < |src| && (src[offset] == '-' || IsDigit(src[offset]))
      modifies `offset, `domSize, `dataSize
      ensures err <==> ScanNum(old(Rest())).Bad?
      ensures domSize == old(domSize) + NUMBER
      ensures ScanNum(old(Rest())).Over? ==> offset == |src| + 1
      ensures var x := ScanNum(old(Rest()));
              x.Got? ==> && old(offset) < offset <= |src| && Rest() == x.rest
                         && dataSize == old(dataSize) + |NumText(x.t)| + 1
    {
      domSize := domSize + NUMBER;
      ghost var r := Rest();
      var o := offset;
      var foundSign := false;
      if src[o] == '-' {
        o := o + 1;
        foundSign := true;
      }
      assert foundSign ==> r[1..] == src[o..];
      if foundSign && o < |src| && !IsDigit(src[o]) {
        return true;
      }
      ghost var n := Num(foundSign, Digits(src[o..]), "", "", "", "");
      err, o := LeadSize(o);
      if err {
        return true;
      }
      err, o := FractionSize(o, n);
      if err {
        return true;
      }
      if ScanNum(r).Got? {
        NumberRun(r);
      }
      dataSize := dataSize + (o - offset) + 1;
      offset := o;
    }

    // ---------------------------------------------------------------- size pass: values

    /** The member loop up to the value: key, blanks, colon, blanks (json.h:1028-1063). */
    method GetKeySize(ghost s: Scan<Items>) returns (err: bool)
      requires offset < |src| && s == ScanString(Rest())
      modifies `offset, `domSize, `dataSize
      ensures err <==> !(s.Got? && ScanColon(s.t, s.rest).Got?)
      ensures !err ==>
                && old(offset) < offset <= |src| && Rest() == ScanColon(s.t, s.rest).rest
                && domSize == old(domSize) + STRING
                && dataSize == old(dataSize) + ItemsCost(s.t) + 1
    {
      err := GetStringSize(s);
      if err {
        return true;
      }
      err := CheckColon(s);
    }

    /** The blanks and the colon behind the key. */
    method CheckColon(ghost s: Scan<Items>) returns (err: bool)
      requires offset <= |src| && s.Got? && Rest() == s.rest
      modifies `offset
      ensures err <==> !ScanColon(s.t, s.rest).Got?
      ensures !err ==> old(offset) < offset <= |src| && Rest() == ScanColon(s.t, s.rest).rest
    {
      err := SkipAllSkippables();
      ghost var r1 := Rest();
      if err || src[offset] != ':' {
        return true;
      }
      offset := offset + 1;
      assert Rest() == r1[1..];
      err := SkipAllSkippables();
    }

    /**
      The comma both loops look for in front of an item that is not the first: true when the
      loop goes on.  The array loop at json.h:1132-1153, the object loop at json.h:1002-1025.
    */
    method PassComma(allowComma: bool, ghost r: string, ghost close: char) returns (ok: bool)
      requires offset < |src| && Rest() == SkipSpace(r) && src[offset] != close
      modifies `offset
      ensures ok ==> old(offset) <= offset < |src| && Front(r, close, !allowComma, Rest())
      ensures !ok ==> allowComma && (src[old(offset)] != ',' || SkipSpace(SkipSpace(r)[1..]) == "")
    {
      if allowComma {
        if src[offset] != ',' {
          return false;
        }
        assert Rest()[1..] == src[offset + 1..];
        offset := offset + 1;
        var err := SkipAllSkippables();
        return !err;
      }
      return true;
    }

    method GetArraySize(ghost r: string, ghost depth: nat) returns (err: bool)
      requires offset < |src| && src[offset] == '[' && recursion <= MAX_RECURSION
      requires r == Rest() && depth == MAX_RECURSION - recursion
      modifies `offset, `domSize, `dataSize, `recursion
      ensures old(recursion) <= recursion
      ensures err <==> !ScanTree(r, depth).Got?
      ensures !err ==>
                var x := ScanTree(r, depth);
                && old(offset) < offset <= |src| && Rest() == x.rest && recursion == old(recursion)
                && domSize == old(domSize) + RecordSize(x.t)
                && dataSize == old(dataSize) + Cost(x.t)
      decreases |src| - offset, 0
    {
      recursion := recursion + 1;
      if recursion > MAX_RECURSION {
        return true;
      }
      assert r[1..] == src[offset + 1..];
      offset := offset + 1;
      domSize := domSize + ARRAY;
      err := ArrayLoop(Rest(), depth - 1);
      recursion := recursion - 1;
    }

    /** The loop of json_get_array_size, json.h:1114-1171. */
    method ArrayLoop(ghost r0: string, ghost depth: nat) returns (err: bool)
      requires offset <= |src| && 0 < recursion <= MAX_RECURSION
      requires r0 == Rest() && depth == MAX_RECURSION - recursion
      modifies `offset, `domSize, `dataSize, `recursion
      ensures old(recursion) <= recursion && (!err ==> recursion == old(recursion))
      ensures err <==> !ScanElems(r0, true, depth).Got?
      ensures !err ==>
                var x := ScanElems(r0, true, depth);
                && old(offset) < offset <= |src| && Rest() == x.rest
                && domSize == old(domSize) + ElemsRecordSize(x.t)
                && dataSize == old(dataSize) + ElemsCost(x.t)
      decreases |src| - offset, 4
    {
      ghost var x := ScanElems(r0, true, depth);
      ghost var y := x;
      ghost var records, bytes := 0, 0;
      var elements := 0;
      var allowComma := false;
      while offset < |src|
        invariant old(offset) <= offset <= |src| && recursion == old(recursion)
        invariant y == ScanElems(Rest(), !allowComma, depth)
        invariant records == domSize + ARRAY_ELEMENT * elements - old(domSize) && bytes == dataSize - old(dataSize)
        invariant ElemsTrack(x, y, records, bytes)
        decreases |src| - offset
      {
        ghost var r := Rest();
        err := SkipAllSkippables();
        if err {
          return true;
        }
        if src[offset] == ']' {
          assert Rest()[1..] == src[offset + 1..];
          offset := offset + 1;
          domSize := domSize + ARRAY_ELEMENT * elements;
          return false;
        }
        err, y, records, bytes := ArrayElementSize(allowComma, r, depth, x, y, records, bytes);
        if err {
          return true;
        }
        assert ARRAY_ELEMENT * (elements + 1) == ARRAY_ELEMENT * elements + ARRAY_ELEMENT;
        elements := elements + 1;
        allowComma := true;
      }
      return true;
    }

    /** The comma and the value of one turn of that loop. */
    method ArrayElementSize(allowComma: bool, ghost r: string, ghost depth: nat,
                            ghost x: Scan<Elems>, ghost y: Scan<Elems>, ghost records: int, ghost bytes: int)
      returns (err: bool, ghost y': Scan<Elems>, ghost records': int, ghost bytes': int)
      requires offset < |src| && 0 < recursion <= MAX_RECURSION && depth == MAX_RECURSION - recursion
      requires Rest() == SkipSpace(r) && src[offset] != ']'
      requires y == ScanElems(r, !allowComma, depth) && ElemsTrack(x, y, records, bytes)
      modifies `offset, `domSize, `dataSize, `recursion
      ensures old(recursion) <= recursion
      ensures err ==> !x.Got?
      ensures !err ==>
                && recursion == old(recursion) && old(offset) < offset <= |src|
                && y' == ScanElems(Rest(), false, depth) && ElemsTrack(x, y', records', bytes')
                && records' - records == domSize - old(domSize) + ARRAY_ELEMENT
                && bytes' - bytes == dataSize - old(dataSize)
      decreases |src| - offset, 3
    {
      y', records', bytes' := y, records, bytes;
      var ok := PassComma(allowComma, r, ']');
      if !ok {
        return true, y, records, bytes;
      }
      ghost var r2, v := Rest(), Bad;
      FrontHasNoBlank(r, ']', !allowComma, r2);
      records', bytes', v := ElemTurn(x, r, !allowComma, depth, records, bytes, r2);
      err := GetValueSize(r2, depth);
      if offset > |src| {
        err := true;
      }
      if !err {
        y' := ScanElems(v.rest, false, depth);
      }
    }

    method GetObjectSize(ghost r: string, ghost depth: nat) returns (err: bool)
      requires offset < |src| && src[offset] == '{' && recursion <= MAX_RECURSION
      requires r == Rest() && depth == MAX_RECURSION - recursion
      modifies `offset, `domSize, `dataSize, `recursion
      ensures var x := ScanTree(r, depth);
              && (err <==> x.Bad?)
              && (x.Over? ==> offset == |src| + 1)
              && old(recursion) <= recursion && (!err ==> recursion == old(recursion))
              && (x.Got? ==>
                    && old(offset) < offset <= |src| && Rest() == x.rest
                    && domSize == old(domSize) + RecordSize(x.t)
                    && dataSize == old(dataSize) + Cost(x.t))
      decreases |src| - offset, 0
    {
      recursion := recursion + 1;
      if recursion > MAX_RECURSION {
        return true;
      }
      assert r[1..] == src[offset + 1..];
      offset := offset + 1;
      domSize := domSize + OBJECT;
      if offset == |src| {
        recursion := recursion - 1;
        return true;
      }
      err := ObjectLoop(Rest(), depth - 1);
      recursion := recursion - 1;
    }

    /** The loop of json_get_object_size and what follows it, json.h:976-1085. */
    method ObjectLoop(ghost r0: string, ghost depth: nat) returns (err: bool)
      requires offset < |src| && 0 < recursion <= MAX_RECURSION
      requires r0 == Rest() && depth == MAX_RECURSION - recursion
      modifies `offset, `domSize, `dataSize, `recursion
      ensures old(recursion) <= recursion && (!err ==> recursion == old(recursion))
      ensures var x := ScanMembers(r0, true, depth);
              && (err <==> x.Bad?)
              && (x.Over? ==> offset == |src| + 1)
              && (x.Got? ==>
                    && old(offset) < offset <= |src| && Rest() == x.rest
                    && domSize == old(domSize) + MembersRecordSize(x.t)
                    && dataSize == old(dataSize) + MembersCost(x.t))
      decreases |src| - offset, 4
    {
      ghost var x := ScanMembers(r0, true, depth);
      ghost var y := x;
      ghost var records, bytes := 0, 0;
      var elements := 0;
      var allowComma := false;
      var foundClosingBrace := false;
      while offset < |src|
        invariant !foundClosingBrace && recursion == old(recursion)
        invariant old(offset) <= offset <= |src| + 1
        invariant offset > |src| ==> x.Over?
        invariant offset <= |src| ==>
                    && records == domSize + OBJECT_ELEMENT * elements - old(domSize)
                    && bytes == dataSize - old(dataSize)
        invariant offset <= |src| ==> y == ScanMembers(Rest(), !allowComma, depth)
        invariant offset <= |src| ==> MembersTrack(x, y, records, bytes)
        decreases |src| + 1 - offset
      {
        ghost var r := Rest();
        err := SkipAllSkippables();
        if err {
          return true;
        }
        if src[offset] == '}' {
          assert Rest()[1..] == src[offset + 1..];
          offset := offset + 1;
          foundClosingBrace := true;
          break;
        }
        err, y, records, bytes := ObjectMemberSize(allowComma, r, depth, x, y, records, bytes);
        if err {
          return true;
        }
        assert OBJECT_ELEMENT * (elements + 1) == OBJECT_ELEMENT * elements + OBJECT_ELEMENT;
        elements := elements + 1;
        allowComma := true;
      }
      if offset == |src| && !foundClosingBrace {
        return true;
      }
      domSize := domSize + OBJECT_ELEMENT * elements;
      return false;
    }

    /** The comma and the member of one turn of that loop. */
    method ObjectMemberSize(allowComma: bool, ghost r: string, ghost depth: nat,
                            ghost x: Scan<Members>, ghost y: Scan<Members>, ghost records: int, ghost bytes: int)
      returns (err: bool, ghost y': Scan<Members>, ghost records': int, ghost bytes': int)
      requires offset < |src| && 0 < recursion <= MAX_RECURSION && depth == MAX_RECURSION - recursion
      requires Rest() == SkipSpace(r) && src[offset] != '}'
      requires y == ScanMembers(r, !allowComma, depth) && MembersTrack(x, y, records, bytes)
      modifies `offset, `domSize, `dataSize, `recursion
      ensures old(recursion) <= recursion && (!err ==> recursion == old(recursion))
      ensures err ==> x.Bad?
      ensures !err ==> old(offset) < offset <= |src| + 1
      ensures !err && offset > |src| ==> x.Over?
      ensures !err && offset <= |src| ==>
                && y' == ScanMembers(Rest(), false, depth) && MembersTrack(x, y', records', bytes')
                && records' - records == domSize - old(domSize) + OBJECT_ELEMENT
                && bytes' - bytes == dataSize - old(dataSize)
      decreases |src| - offset, 3
    {
      y', records', bytes' := y, records, bytes;
      var ok := PassComma(allowComma, r, '}');
      if !ok {
        return true, y, records, bytes;
      }
      ghost var r2, v := Rest(), Bad;
      records', bytes', v := MemberTurn(x, r, !allowComma, depth, records, bytes, r2);
      err := GetMemberSize(r2, depth);
      if v.Got? {
        y' := ScanMembers(v.rest, false, depth);
      }
    }

    /** The key and the value of one member, json.h:1028-1069. */
    method GetMemberSize(ghost r: string, ghost depth: nat) returns (err: bool)
      requires offset < |src| && 0 < recursion <= MAX_RECURSION
      requires r == Rest() && depth == MAX_RECURSION - recursion
      modifies `offset, `domSize, `dataSize, `recursion
      ensures old(recursion) <= recursion && (!err ==> recursion == old(recursion))
      ensures var v := ScanMember(r, depth);
              && (err <==> v.Bad?)
              && (v.Over? ==> offset == |src| + 1)
              && (v.Got? ==>
                    && old(offset) < offset <= |src| && Rest() == v.rest
                    && domSize == old(domSize) + MemberRecords(v.t)
                    && dataSize == old(dataSize) + MemberCost(v.t))
      decreases |src| - offset, 2
    {
      err := GetKeySize(ScanString(r));
      if err {
        return true;
      }
      KeyLeavesNoBlank(r);
      err := GetValueSize(ScanKey(r).rest, depth);
    }

    method GetValueSize(ghost r: string, ghost depth: nat) returns (err: bool)
      requires offset <= |src| && recursion <= MAX_RECURSION
      requires r == Rest() && depth == MAX_RECURSION - recursion
      modifies `offset, `domSize, `dataSize, `recursion
      ensures var x := ScanValue(r, depth);
              && (err <==> x.Bad?)
              && (x.Over? ==> offset == |src| + 1)
              && old(recursion) <= recursion && (!err ==> recursion == old(recursion))
              && (x.Got? ==>
                    && old(offset) < offset <= |src| && Rest() == x.rest
                    && domSize == old(domSize) + VALUE + RecordSize(x.t)
                    && dataSize == old(dataSize) + Cost(x.t))
      decreases |src| - offset, 1
    {
      domSize := domSize + VALUE;
      err := SkipAllSkippables();
      if err {
        return true;
      }
      var c := src[offset];
      if c == '"' {
        err := GetStringSize(ScanString(SkipSpace(r)));
      } else if c == '{' {
        err := GetObjectSize(SkipSpace(r), depth);
      } else if c == '[' {
        err := GetArraySize(SkipSpace(r), depth);
      } else if c == '-' || IsDigit(c) {
        err := GetNumberSize();
      } else {
        err := GetWordSize();
      }
    }

    method GetWordSize() returns (err: bool)
      requires offset < |src|
      modifies `offset
      ensures var x := ScanWord(old(Rest()));
              && (err <==> x.Bad?)
              && (!err ==> old(offset) < offset <= |src| && Rest() == x.rest)
    {
      ghost var r := Rest();
      var o := offset;
      if o + 4 <= |src| && src[o] == 't' && src[o + 1] == 'r' && src[o + 2] == 'u' && src[o + 3] == 'e' {
        assert r[..4] == "true";
        offset := o + 4;
      } else if o + 5 <= |src| && src[o] == 'f' && src[o + 1] == 'a' && src[o + 2] == 'l' && src[o + 3] == 's' && src[o + 4] == 'e' {
        assert r[..5] == "false";
        offset := o + 5;
      } else if o + 4 <= |src| && src[o] == 'n' && src[o + 1] == 'u' && src[o + 2] == 'l' && src[o + 3] == 'l' {
        assert r[..4] == "null";
        offset := o + 4;
      } else {
        return true;
      }
      return false;
    }

    // ---------------------------------------------------------------- parse pass: strings

    /** `data[bytes_written++] = c`. */
    method Put(at: nat, c: char)
      requires at < data.Length
      modifies data
      ensures data[..at + 1] == old(data[..at]) + [c]
    {
      data[at] := c;
    }

    /** The four bytes of a completed pair, json.h:1552-1567. */
    method PutPair(at: nat, codepoint: nat, high: nat)
      requires IsHighSurrogate(high) && IsLowSurrogate(codepoint) && at + 4 <= data.Length
      modifies data
      ensures data[..at + 4] == old(data[..at]) + Utf8(Combined(high, codepoint))
    {
      var cp := WrappedPair(high, codepoint);
      PairExceeds(high, codepoint);
      FourBytes(Combined(high, codepoint));
      Put(at, ToChar(BitOr(0xF0, cp / 0x40000)));
      Put(at + 1, ToChar(BitOr(0x80, cp / 0x1000 % 0x40)));
      Put(at + 2, ToChar(BitOr(0x80, cp / 0x40 % 0x40)));
      Put(at + 3, ToChar(BitOr(0x80, cp % 0x40)));
    }

    /** The three bytes at json.h:1568-1577. */
    method PutTriple(at: nat, codepoint: nat)
      requires 0x800 <= codepoint < 0x10000 && IsScalar(codepoint) && at + 3 <= data.Length
      modifies data
      ensures data[..at + 3] == old(data[..at]) + Utf8(codepoint)
    {
      ThreeBytes(codepoint);
      Put(at, ToChar(BitOr(0xE0, codepoint / 0x1000)));
      Put(at + 1, ToChar(BitOr(0x80, codepoint / 0x40 % 0x40)));
      Put(at + 2, ToChar(BitOr(0x80, codepoint % 0x40)));
    }

    /**
      The writes of json_parse_string for a validated escape: nothing for a high surrogate, four
      bytes for a low one that completes `high`, else one to three.
    */
    method PutUnicode(at: nat, codepoint: nat, high: nat) returns (at': nat, high': nat)
      requires codepoint < 0x10000
      requires IsLowSurrogate(codepoint) ==> IsHighSurrogate(high)
      requires at + |UnicodeText(codepoint, high)| <= data.Length
      modifies data
      ensures high' == PendingAfter(codepoint, high)
      ensures at' == at + |UnicodeText(codepoint, high)|
      ensures data[..at'] == old(data[..at]) + UnicodeText(codepoint, high)
    {
      at', high' := at, high;
      if codepoint <= 0x7F {
        Put(at, codepoint as char);
        at' := at + 1;
      } else if codepoint <= 0x7FF {
        TwoBytes(codepoint);
        Put(at, ToChar(BitOr(0xC0, codepoint / 0x40)));
        Put(at + 1, ToChar(BitOr(0x80, codepoint % 0x40)));
        at' := at + 2;
      } else if codepoint >= 0xD800 && codepoint <= 0xDBFF {
        high' := codepoint;
      } else if codepoint >= 0xDC00 && codepoint <= 0xDFFF {
        PutPair(at, codepoint, high);
        at', high' := at + 4, 0;
      } else {
        PutTriple(at, codepoint);
        at' := at + 3;
      }
    }

    /** The accepted scan `x` of the whole string, seen from `o` with `w` written so far. */
    ghost predicate Writes(x: Scan<Items>, o: nat, high: nat, w: string) {
      && Pending(o, high)
      && var y := ScanItems(ItemStart(o, high));
         x.Got? && y.Got? && x.rest == y.rest && DecodeItems(x.t) == w + DecodeItems(y.t)
    }

    lemma PlainWrites(x: Scan<Items>, o: nat, high: nat, w: string)
      requires o < |src| && src[o] != '"' && src[o] != '\\'
      requires Writes(x, o, high, w)
      ensures Writes(x, o + 1, high, w + [src[o]])
    {
      var y := ScanItems(src[o..]);
      PlainStep(src[o..]);
      assert src[o..][1..] == src[o + 1..];
      WrittenSplits(w, [src[o]], DecodeItems(y.t.tail));
    }

    lemma EscapeWrites(x: Scan<Items>, o: nat, high: nat, w: string)
      requires o < |src| && src[o] == '\\'
      requires Writes(x, o, high, w)
      ensures o + 1 < |src| && (IsEscapeLetter(src[o + 1]) || HasUnicode(src[o..]))
      ensures IsEscapeLetter(src[o + 1]) ==> high == 0 && Writes(x, o + 2, 0, w + [EscapeChar(src[o + 1])])
    {
      if high != 0 {
        PairStep(src[o - 6..]);
        assert src[o - 6..][6..] == src[o..];
      }
      if IsEscapeLetter(src[o + 1]) {
        var y := ScanItems(src[o..]);
        assert src[o..][2..] == src[o + 2..];
        assert y.t.head == Escape(src[o + 1]);
        EscapeIsAscii(src[o + 1]);
        WrittenSplits(w, [EscapeChar(src[o + 1])], DecodeItems(y.t.tail));
      }
    }

    lemma SingleWrites(x: Scan<Items>, o: nat, w: string)
      requires o <= |src| && HasUnicode(src[o..]) && Writes(x, o, 0, w)
      ensures var n := HexValue(src[o..][2..6]);
              && !IsLowSurrogate(n)
              && (!IsHighSurrogate(n) ==> Writes(x, o + 6, 0, w + Utf8(n)))
              && (IsHighSurrogate(n) ==> Writes(x, o + 6, n, w))
    {
      var r := src[o..];
      var n := HexValue(r[2..6]);
      var y := ScanItems(r);
      UnicodeStep(r);
      assert r[6..] == src[o + 6..];
      if IsHighSurrogate(n) {
        PairStep(r);
      } else {
        WrittenSplits(w, Utf8(n), DecodeItems(y.t.tail));
      }
    }

    lemma LowWrites(x: Scan<Items>, o: nat, high: nat, w: string)
      requires high != 0 && Writes(x, o, high, w)
      ensures IsHighSurrogate(high) && HasUnicode(src[o..])
      ensures var n := HexValue(src[o..][2..6]);
              IsLowSurrogate(n) && Writes(x, o + 6, 0, w + Utf8(Combined(high, n)))
    {
      var r := src[o - 6..];
      PairStep(r);
      assert r[6..] == src[o..] && r[12..] == src[o + 6..];
      PairDecodes(r[2..6], r[6..][2..6], ScanItems(r[12..]).t, w);
    }

    method ReadEscape(o: nat) returns (codepoint: nat)
      requires o <= |src| && HasUnicode(src[o..])
      ensures codepoint == HexValue(src[o..][2..6])
    {
      var ok;
      ok, codepoint := HexadecimalValue(o + 2, 4);
      ghost var h := src[o..][2..6];
      assert h == src[o + 2..o + 6];
      FourDigits(h);
      assert forall i | o + 2 <= i < o + 6 :: src[i] == h[i - o - 2];
    }

    lemma UnicodeWrites(x: Scan<Items>, o: nat, high: nat, w: string)
      requires o <= |src| && HasUnicode(src[o..]) && Writes(x, o, high, w)
      ensures var n := HexValue(src[o..][2..6]);
              && (IsLowSurrogate(n) ==> IsHighSurrogate(high))
              && Writes(x, o + 6, PendingAfter(n, high), w + UnicodeText(n, high))
    {
      if high != 0 {
        LowWrites(x, o, high, w);
      } else {
        SingleWrites(x, o, w);
        assert w + "" == w;
      }
    }

    /** The escape branch of json_parse_string that decodes four digits, json.h:1532-1578. */
    method WriteUnicode(o: nat, high: nat, at: nat, ghost x: Scan<Items>, ghost w: string, ghost front: string)
      returns (o': nat, high': nat, at': nat, ghost w': string)
      requires o <= |src| && HasUnicode(src[o..]) && Writes(x, o, high, w)
      requires |front| + |DecodeItems(x.t)| < data.Length && Copied(at, front, w)
      modifies data
      ensures o < o' < |src| && Writes(x, o', high', w')
      ensures Copied(at', front, w')
    {
      UnicodeWrites(x, o, high, w);
      var codepoint := ReadEscape(o);
      o', high', w' := o + 6, PendingAfter(codepoint, high), w + UnicodeText(codepoint, high);
      Fits(x, o', high', w');
      at', high' := PutUnicode(at, codepoint, high);
      WrittenSplits(front, w, UnicodeText(codepoint, high));
    }

    /** `w` has been written behind `front`, and there is room for more. */
    ghost predicate Copied(at: nat, front: string, w: string)
      reads this, data
    {
      at == |front| + |w| && at < data.Length && data[..at] == front + w
    }

    /** The branch of json_parse_string for a backslash, json.h:1525-1616. */
    method WriteEscape(o: nat, high: nat, at: nat, ghost x: Scan<Items>, ghost w: string, ghost front: string)
      returns (o': nat, high': nat, at': nat, ghost w': string)
      requires o < |src| && src[o] == '\\' && Writes(x, o, high, w)
      requires |front| + |DecodeItems(x.t)| < data.Length && Copied(at, front, w)
      modifies data
      ensures o < o' < |src| && Writes(x, o', high', w')
      ensures Copied(at', front, w')
    {
      EscapeWrites(x, o, high, w);
      if IsEscapeLetter(src[o + 1]) {
        o', high', at' := o + 2, 0, at + 1;
        w' := w + [EscapeChar(src[o + 1])];
        Fits(x, o', high', w');
        Put(at, EscapeChar(src[o + 1]));
        WrittenSplits(front, w, [EscapeChar(src[o + 1])]);
      } else {
        o', high', at', w' := WriteUnicode(o, high, at, x, w, front);
      }
    }

    method CopyChar(o: nat, high: nat, at: nat, ghost x: Scan<Items>, ghost w: string, ghost front: string)
      returns (o': nat, at': nat, ghost w': string)
      requires o < |src| && src[o] != '"' && src[o] != '\\' && Writes(x, o, high, w)
      requires |front| + |DecodeItems(x.t)| < data.Length && Copied(at, front, w)
      modifies data
      ensures o < o' < |src| && Writes(x, o', high, w')
      ensures Copied(at', front, w')
    {
      PlainWrites(x, o, high, w);
      o', at', w' := o + 1, at + 1, w + [src[o]];
      Fits(x, o', high, w');
      Put(at, src[o]);
      WrittenSplits(front, w, [src[o]]);
    }

    /** json_parse_string: where the decoded text stands, and how long it is. */
    method ParseString(ghost x: Scan<Items>) returns (at: nat, size: nat)
      requires offset < |src| && x == ScanString(Rest()) && x.Got?
      requires next + |DecodeItems(x.t)| + 1 <= data.Length
      modifies `offset, `next, data
      ensures at == old(next) && size == |DecodeItems(x.t)|
      ensures old(offset) < offset <= |src| && Rest() == x.rest
      ensures next == old(next) + size + 1 <= data.Length
      ensures data[..next] == old(data[..next]) + (DecodeItems(x.t) + "\0")
    {
      at := next;
      ghost var front, text := data[..next], DecodeItems(x.t);
      var o, stop := StringBytes(x);
      Put(stop, '\0');
      WrittenSplits(front, text, "\0");
      size := stop - at;
      next := stop + 1;
      offset := o + 1;
    }

    /** The loop of json_parse_string, json.h:1524-1624: the closing quote, and the index behind the text. */
    method StringBytes(ghost x: Scan<Items>) returns (o: nat, stop: nat)
      requires offset < |src| && x == ScanString(Rest()) && x.Got?
      requires next + |DecodeItems(x.t)| + 1 <= data.Length
      modifies data
      ensures offset < o < |src| && src[o + 1..] == x.rest
      ensures stop == next + |DecodeItems(x.t)|
      ensures data[..stop] == old(data[..next]) + DecodeItems(x.t)
    {
      var high := 0;
      ghost var w, front := "", data[..next];
      o, stop := offset + 1, next;
      assert Rest()[1..] == src[o..];
      assert w + DecodeItems(x.t) == DecodeItems(x.t);
      Fits(x, o, high, w);
      while src[o] != '"'
        invariant offset < o < |src| && Writes(x, o, high, w)
        invariant Copied(stop, front, w)
        decreases |src| - o
      {
        if src[o] == '\\' {
          o, high, stop, w := WriteEscape(o, high, stop, x, w, front);
        } else {
          o, stop, w := CopyChar(o, high, stop, x, w, front);
        }
      }
      Ends(x, o, high, w);
    }

    lemma Ends(x: Scan<Items>, o: nat, high: nat, w: string)
      requires o < |src| && src[o] == '"' && Writes(x, o, high, w)
      ensures w == DecodeItems(x.t) && x.rest == src[o + 1..]
    {
      assert src[o..][1..] == src[o + 1..];
    }

    /** Between two items of an accepted string there is input left, and what is written stays short of the whole. */
    lemma Fits(x: Scan<Items>, o: nat, high: nat, w: string)
      requires Writes(x, o, high, w)
      ensures o < |src| && |w| <= |DecodeItems(x.t)|
    {}

    // ---------------------------------------------------------------- parse pass: numbers and values

    /** json_parse_number: the loose scan, which takes any run of the characters a number may contain. */
    method ParseNumber(ghost x: Scan<Num>) returns (at: nat, size: nat)
      requires offset < |src| && (src[offset] == '-' || IsDigit(src[offset])) && x == ScanNum(Rest()) && x.Got?
      requires next + |NumText(x.t)| + 1 <= data.Length
      modifies `offset, `next, data
      ensures at == old(next) && size == |NumText(x.t)|
      ensures old(offset) < offset <= |src| && Rest() == x.rest
      ensures next == old(next) + size + 1 <= data.Length
      ensures data[..next] == old(data[..next]) + (NumText(x.t) + "\0")
    {
      at := next;
      ghost var r, text := Rest(), NumText(x.t);
      NumberRun(r);
      ghost var front := data[..next];
      var o, stop := NumberBytes(r, text, x.rest);
      Put(stop, '\0');
      WrittenSplits(front, text, "\0");
      size := stop - next;
      next := stop + 1;
      offset := o;
    }

    /** Its loop, json.h:1934-1963. */
    method NumberBytes(ghost r: string, ghost text: string, ghost rest: string) returns (o: nat, stop: nat)
      requires offset <= |src| && r == Rest() && r == text + rest && EndsNumber(rest)
      requires forall j | 0 <= j < |text| :: IsLoose(text[j])
      requires next + |text| < data.Length
      modifies data
      ensures o == offset + |text| && src[o..] == rest
      ensures stop == next + |text| && data[..stop] == old(data[..next]) + text
    {
      o, stop := offset, next;
      while o < |src| && IsLoose(src[o])
        invariant offset <= o <= |src|
        invariant o - offset == stop - next <= |text|
        invariant stop < data.Length && data[..stop] == old(data[..next]) + text[..o - offset]
      {
        LooseRun(r, text, rest, o - offset);
        Put(stop, src[o]);
        o, stop := o + 1, stop + 1;
      }
      LooseRun(r, text, rest, o - offset);
    }

    /** json_parse_key, the colon, and the blanks on both sides of it (json.h:1773-1780). */
    method ParseKey(ghost s: Scan<Items>, ghost k: Scan<Key>) returns (at: nat, size: nat)
      requires offset < |src| && s == ScanString(Rest()) && s.Got? && k == ScanColon(s.t, s.rest) && k.Got?
      requires next + |DecodeItems(s.t)| + 1 <= data.Length
      modifies `offset, `next, data
      ensures at == old(next) && size == |DecodeItems(s.t)|
      ensures old(offset) < offset < |src| && Rest() == k.rest
      ensures next == old(next) + size + 1 <= data.Length
      ensures data[..next] == old(data[..next]) + (DecodeItems(s.t) + "\0")
    {
      at, size := ParseString(s);
      PassColon(s, k);
    }

    /** The blanks and the colon, which this pass does not look at again. */
    method PassColon(ghost s: Scan<Items>, ghost k: Scan<Key>)
      requires offset <= |src| && s.Got? && Rest() == s.rest && k == ScanColon(s.t, s.rest) && k.Got?
      modifies `offset
      ensures old(offset) < offset < |src| && Rest() == k.rest
    {
      var _ := SkipAllSkippables();
      ghost var r1 := Rest();
      offset := offset + 1;
      assert Rest() == r1[1..];
      var _ := SkipAllSkippables();
    }

    /** json_parse_value, its branches in separate methods; the caller has already taken the json_value_s itself from the records. */
    method ParseValue(ghost q: string, ghost depth: nat, ghost x: Scan<Tree>) returns (d: Dom)
      requires offset <= |src| && q == SkipSpace(Rest()) && q != "" && x == ScanTree(q, depth) && x.Got?
      requires next + |Payload(x.t)| <= data.Length
      modifies `offset, `next, `dom, data
      ensures old(offset) < offset <= |src| && Rest() == x.rest
      ensures d == Layout(x.t, old(next))
      ensures dom == old(dom) + RecordSize(x.t)
      ensures next == old(next) + |Payload(x.t)| <= data.Length
      ensures data[..next] == old(data[..next]) + Payload(x.t)
      decreases |src| - offset, 1, 2
    {
      var _ := SkipAllSkippables();
      var c := src[offset];
      if c == '{' || c == '[' {
        BracketParts(q, depth, x);
        d := ParseBracketed(q, depth - 1, x);
      } else {
        d := ParseScalar(q, depth, x);
      }
    }

    method ParseBracketed(ghost q: string, ghost depth: nat, ghost x: Scan<Tree>) returns (d: Dom)
      requires offset < |src| && q == Rest() && (q[0] == '{' || q[0] == '[')
      requires x.Got? && IsBracketed(q, depth, x)
      requires next + |Payload(x.t)| <= data.Length
      modifies `offset, `next, `dom, data
      ensures old(offset) < offset <= |src| && Rest() == x.rest
      ensures d == Layout(x.t, old(next))
      ensures dom == old(dom) + RecordSize(x.t)
      ensures next == old(next) + |Payload(x.t)| <= data.Length
      ensures data[..next] == old(data[..next]) + Payload(x.t)
      decreases |src| - offset, 1, 1
    {
      if src[offset] == '{' {
        d := ParseObjectValue(q, depth, x, ScanMembers(q[1..], true, depth));
      } else {
        d := ParseArrayValue(q, depth, x, ScanElems(q[1..], true, depth));
      }
    }

    method ParseObjectValue(ghost q: string, ghost depth: nat, ghost x: Scan<Tree>, ghost z: Scan<Members>) returns (d: Dom)
      requires offset < |src| && q == Rest() && q[0] == '{' && z == ScanMembers(q[1..], true, depth) && z.Got?
      requires x == Got(TObj(z.t), z.rest)
      requires next + |Payload(x.t)| <= data.Length
      modifies `offset, `next, `dom, data
      ensures old(offset) < offset <= |src| && Rest() == x.rest
      ensures d == Layout(x.t, old(next))
      ensures dom == old(dom) + RecordSize(x.t)
      ensures next == old(next) + |Payload(x.t)| <= data.Length
      ensures data[..next] == old(data[..next]) + Payload(x.t)
      decreases |src| - offset, 1, 0
    {
      dom := dom + OBJECT;
      d := ParseObject(q, depth, z);
    }

    method ParseArrayValue(ghost q: string, ghost depth: nat, ghost x: Scan<Tree>, ghost z: Scan<Elems>) returns (d: Dom)
      requires offset < |src| && q == Rest() && q[0] == '[' && z == ScanElems(q[1..], true, depth) && z.Got?
      requires x == Got(TArr(z.t), z.rest)
      requires next + |Payload(x.t)| <= data.Length
      modifies `offset, `next, `dom, data
      ensures old(offset) < offset <= |src| && Rest() == x.rest
      ensures d == Layout(x.t, old(next))
      ensures dom == old(dom) + RecordSize(x.t)
      ensures next == old(next) + |Payload(x.t)| <= data.Length
      ensures data[..next] == old(data[..next]) + Payload(x.t)
      decreases |src| - offset, 1, 0
    {
      dom := dom + ARRAY;
      d := ParseArray(q, depth, z);
    }

    method ParseScalar(ghost q: string, ghost depth: nat, ghost x: Scan<Tree>) returns (d: Dom)
      requires offset < |src| && q == Rest() && q[0] != '{' && q[0] != '[' && x == ScanTree(q, depth) && x.Got?
      requires next + |Payload(x.t)| <= data.Length
      modifies `offset, `next, `dom, data
      ensures old(offset) < offset <= |src| && Rest() == x.rest
      ensures d == Layout(x.t, old(next))
      ensures dom == old(dom) + RecordSize(x.t)
      ensures next == old(next) + |Payload(x.t)| <= data.Length
      ensures data[..next] == old(data[..next]) + Payload(x.t)
    {
      var c := src[offset];
      if c == '"' {
        dom := dom + STRING;
        var at, size := ParseString(ScanString(q));
        d := DStr(at, size);
      } else if c == '-' || IsDigit(c) {
        dom := dom + NUMBER;
        var at, size := ParseNumber(ScanNum(q));
        d := DNumber(at, size);
      } else {
        d := ParseWord(q);
        assert data[..next] == old(data[..next]) + "";
      }
    }

    method ParseWord(ghost q: string) returns (d: Dom)
      requires offset < |src| && q == Rest() && ScanWord(q).Got?
      modifies `offset
      ensures old(offset) < offset <= |src| && Rest() == ScanWord(q).rest
      ensures d == Layout(ScanWord(q).t, 0)
    {
      var o := offset;
      if o + 4 <= |src| && src[o] == 't' && src[o + 1] == 'r' && src[o + 2] == 'u' && src[o + 3] == 'e' {
        assert q[..4] == "true";
        offset := o + 4;
        return DTrue;
      } else if o + 5 <= |src| && src[o] == 'f' && src[o + 1] == 'a' && src[o + 2] == 'l' && src[o + 3] == 's' && src[o + 4] == 'e' {
        assert q[..5] == "false";
        offset := o + 5;
        return DFalse;
      } else {
        assert q[..4] == "null";
        offset := o + 4;
        return DNull;
      }
    }


    /** json_parse_array.  After a comma its loop starts over, and `comma` remembers that. */
    method ParseArray(ghost q: string, ghost depth: nat, ghost z: Scan<Elems>) returns (d: Dom)
      requires offset < |src| && src[offset] == '[' && q == Rest() && z == ScanElems(q[1..], true, depth) && z.Got?
      requires next + |ElemsPayload(z.t)| <= data.Length
      modifies `offset, `next, `dom, data
      ensures old(offset) < offset <= |src| && Rest() == z.rest
      ensures d == DArr(ElemsLayout(z.t, old(next)))
      ensures dom == old(dom) + ElemsRecordSize(z.t)
      ensures next == old(next) + |ElemsPayload(z.t)| <= data.Length
      ensures data[..next] == old(data[..next]) + ElemsPayload(z.t)
      decreases |src| - offset, 0
    {
      assert q[1..] == src[offset + 1..];
      offset := offset + 1;
      var elems := ArrayElements(q[1..], depth, z);
      d := DArr(elems);
    }

    /** The loop of json_parse_array, json.h:1830-1893. */
    method ArrayElements(ghost r: string, ghost depth: nat, ghost z: Scan<Elems>) returns (elems: seq<Dom>)
      requires offset <= |src| && r == Rest() && z == ScanElems(r, true, depth) && z.Got?
      requires next + |ElemsPayload(z.t)| <= data.Length
      modifies `offset, `next, `dom, data
      ensures old(offset) < offset <= |src| && Rest() == z.rest
      ensures elems == ElemsLayout(z.t, old(next))
      ensures dom == old(dom) + ElemsRecordSize(z.t)
      ensures next == old(next) + |ElemsPayload(z.t)| <= data.Length
      ensures data[..next] == old(data[..next]) + ElemsPayload(z.t)
      decreases |src| - offset, 4
    {
      ghost var front := data[..next];
      ghost var st := BeginArray(r, depth, z);
      var allowComma := false;
      elems := [];
      var done := false;
      while !done
        invariant old(offset) <= offset <= |src| && (!done ==> offset < |src|)
        invariant !done ==> InArray(st, depth, z, old(dom), front, elems, allowComma)
        invariant done ==> Rest() == z.rest && ArrayDone(z.t, old(dom), front, elems)
        invariant done ==> old(offset) < offset
        decreases !done, |src| - offset
      {
        done, allowComma, elems, st := ArrayTurn(allowComma, elems, st, depth, z, old(dom), front);
      }
    }

    method BeginArray(ghost r: string, ghost depth: nat, ghost z: Scan<Elems>) returns (ghost st: ArrayState)
      requires offset <= |src| && r == Rest() && z == ScanElems(r, true, depth) && z.Got?
      requires next + |ElemsPayload(z.t)| <= data.Length
      modifies `offset
      ensures old(offset) <= offset && InArray(st, depth, z, dom, data[..next], [], false)
    {
      st := ArrayState(r, true, false, z);
      st.Head(depth);
      SpaceSplits(r);
      var _ := SkipAllSkippables();
      ElemsFilledStart(z.t, dom, data[..next]);
    }

    /** What holds at the head of that loop. */
    ghost predicate InArray(st: ArrayState, depth: nat, z: Scan<Elems>, dom0: nat, front: string, elems: seq<Dom>, allowComma: bool)
      reads this, data
    {
      && offset < |src|
      && st.Valid(depth) && SkipSpace(Rest()) == st.Item() && st.Item() != ""
      && allowComma == (!st.first && !st.comma) && z.Got? && st.y.rest == z.rest
      && next <= data.Length && |front + ElemsPayload(z.t)| <= data.Length
      && ElemsFilled(z.t, dom0, front, st.y.t, elems, dom, data[..next])
    }

    /** And what holds when the closing bracket has been passed. */
    ghost predicate ArrayDone(z: Elems, dom0: nat, front: string, elems: seq<Dom>)
      reads this, data
    {
      && next <= data.Length
      && elems == ElemsLayout(z, |front|)
      && dom == dom0 + ElemsRecordSize(z)
      && data[..next] == front + ElemsPayload(z)
    }

    /** One turn of that loop, json.h:1839-1892. */
    method ArrayTurn(allowComma: bool, elems: seq<Dom>, ghost st: ArrayState, ghost depth: nat, ghost z: Scan<Elems>,
                     ghost dom0: nat, ghost front: string)
      returns (done: bool, allowComma': bool, elems': seq<Dom>, ghost st': ArrayState)
      requires InArray(st, depth, z, dom0, front, elems, allowComma)
      modifies `offset, `next, `dom, data
      ensures old(offset) < offset <= |src|
      ensures !done ==> InArray(st', depth, z, dom0, front, elems', allowComma')
      ensures done ==> Rest() == z.rest && ArrayDone(z.t, dom0, front, elems')
      decreases |src| - offset, 3
    {
      done, allowComma', elems', st' := false, false, elems, st;
      st.Head(depth);
      var _ := SkipAllSkippables();
      if src[offset] == ']' {
        ArrayEnd(st, depth, z, dom0, front, elems, allowComma);
        done := true;
      } else if allowComma && src[offset] == ',' {
        st' := ArrayComma(st, depth, z, dom0, front, elems);
      } else {
        var value;
        value, st' := ArrayElementValue(st, depth, z, dom0, front, elems, allowComma);
        allowComma', elems' := true, elems + [value];
      }
    }

    method ArrayEnd(ghost st: ArrayState, ghost depth: nat, ghost z: Scan<Elems>, ghost dom0: nat, ghost front: string,
                 ghost elems: seq<Dom>, ghost allowComma: bool)
      requires InArray(st, depth, z, dom0, front, elems, allowComma) && Rest() == st.Item() && src[offset] == ']'
      modifies `offset
      ensures old(offset) < offset <= |src| && Rest() == z.rest && ArrayDone(z.t, dom0, front, elems)
    {
      st.Head(depth);
      ElemsFilledEnd(z.t, dom0, front, st.y.t, elems, dom, data[..next]);
      assert Rest()[1..] == src[offset + 1..];
      offset := offset + 1;
    }

    method ArrayComma(ghost st: ArrayState, ghost depth: nat, ghost z: Scan<Elems>, ghost dom0: nat, ghost front: string,
                   ghost elems: seq<Dom>) returns (ghost st': ArrayState)
      requires InArray(st, depth, z, dom0, front, elems, true) && Rest() == st.Item() && src[offset] == ','
      modifies `offset
      ensures old(offset) < offset && InArray(st', depth, z, dom0, front, elems, false)
    {
      st.Head(depth);
      st.AtComma(depth);
      assert Rest()[1..] == src[offset + 1..];
      offset := offset + 1;
      st' := st.(comma := true);
    }

    /** The rest of one turn of that loop, once the comma has been seen to: json.h:1859-1892. */
    method ArrayElementValue(ghost st: ArrayState, ghost depth: nat, ghost z: Scan<Elems>, ghost dom0: nat, ghost front: string,
                             ghost elems: seq<Dom>, ghost allowComma: bool) returns (value: Dom, ghost st': ArrayState)
      requires InArray(st, depth, z, dom0, front, elems, allowComma) && Rest() == st.Item()
      requires src[offset] != ']' && (allowComma ==> src[offset] != ',')
      modifies `offset, `next, `dom, data
      ensures old(offset) < offset && InArray(st', depth, z, dom0, front, elems + [value], true)
      decreases |src| - offset, 2
    {
      st.Head(depth);
      if !st.first && !st.comma {
        st.AtComma(depth);
      }
      st.AtElement(depth);
      ghost var item := st.Item();
      ghost var v := ScanTree(item, depth);
      ElemsFilledNext(z.t, dom0, front, st.y.t, elems, dom, data[..next]);
      dom := dom + ARRAY_ELEMENT + VALUE;
      value := ParseValue(item, depth, v);
      st' := ArrayState(v.rest, false, false, ScanElems(v.rest, false, depth));
      st'.Head(depth);
    }

    /** json_parse_object; its loop has the same shape. */
    method ParseObject(ghost q: string, ghost depth: nat, ghost z: Scan<Members>) returns (d: Dom)
      requires offset < |src| && src[offset] == '{' && q == Rest() && z == ScanMembers(q[1..], true, depth) && z.Got?
      requires next + |MembersPayload(z.t)| <= data.Length
      modifies `offset, `next, `dom, data
      ensures old(offset) < offset <= |src| && Rest() == z.rest
      ensures d == DObj(MembersLayout(z.t, old(next)))
      ensures dom == old(dom) + MembersRecordSize(z.t)
      ensures next == old(next) + |MembersPayload(z.t)| <= data.Length
      ensures data[..next] == old(data[..next]) + MembersPayload(z.t)
      decreases |src| - offset, 0
    {
      assert q[1..] == src[offset + 1..];
      offset := offset + 1;
      var members := ObjectMembers(q[1..], depth, z);
      d := DObj(members);
    }

    /** The loop of json_parse_object, json.h:1706-1803. */
    method ObjectMembers(ghost r: string, ghost depth: nat, ghost z: Scan<Members>) returns (members: seq<DMember>)
      requires offset <= |src| && r == Rest() && z == ScanMembers(r, true, depth) && z.Got?
      requires next + |MembersPayload(z.t)| <= data.Length
      modifies `offset, `next, `dom, data
      ensures old(offset) < offset <= |src| && Rest() == z.rest
      ensures members == MembersLayout(z.t, old(next))
      ensures dom == old(dom) + MembersRecordSize(z.t)
      ensures next == old(next) + |MembersPayload(z.t)| <= data.Length
      ensures data[..next] == old(data[..next]) + MembersPayload(z.t)
      decreases |src| - offset, 4
    {
      ghost var front := data[..next];
      ghost var st := BeginObject(r, depth, z);
      var allowComma := false;
      members := [];
      var done := false;
      while !done
        invariant old(offset) <= offset <= |src| && (!done ==> offset < |src|)
        invariant !done ==> InObject(st, depth, z, old(dom), front, members, allowComma)
        invariant done ==> Rest() == z.rest && ObjectDone(z.t, old(dom), front, members)
        invariant done ==> old(offset) < offset
        decreases !done, |src| - offset
      {
        done, allowComma, members, st := ObjectTurn(allowComma, members, st, depth, z, old(dom), front);
      }
    }

    method BeginObject(ghost r: string, ghost depth: nat, ghost z: Scan<Members>) returns (ghost st: ObjectState)
      requires offset <= |src| && r == Rest() && z == ScanMembers(r, true, depth) && z.Got?
      requires next + |MembersPayload(z.t)| <= data.Length
      modifies `offset
      ensures old(offset) <= offset && InObject(st, depth, z, dom, data[..next], [], false)
    {
      st := ObjectState(r, true, false, z);
      st.Head(depth);
      SpaceSplits(r);
      var _ := SkipAllSkippables();
      MembersFilledStart(z.t, dom, data[..next]);
    }

    ghost predicate InObject(st: ObjectState, depth: nat, z: Scan<Members>, dom0: nat, front: string,
                             members: seq<DMember>, allowComma: bool)
      reads this, data
    {
      && offset < |src|
      && st.Valid(depth) && SkipSpace(Rest()) == st.Item() && st.Item() != ""
      && allowComma == (!st.first && !st.comma) && z.Got? && st.y.rest == z.rest
      && next <= data.Length && |front + MembersPayload(z.t)| <= data.Length
      && MembersFilled(z.t, dom0, front, st.y.t, members, dom, data[..next])
    }

    ghost predicate ObjectDone(z: Members, dom0: nat, front: string, members: seq<DMember>)
      reads this, data
    {
      && next <= data.Length
      && members == MembersLayout(z, |front|)
      && dom == dom0 + MembersRecordSize(z)
      && data[..next] == front + MembersPayload(z)
    }

    /** One turn of that loop, json.h:1716-1802. */
    method ObjectTurn(allowComma: bool, members: seq<DMember>, ghost st: ObjectState, ghost depth: nat, ghost z: Scan<Members>,
                      ghost dom0: nat, ghost front: string)
      returns (done: bool, allowComma': bool, members': seq<DMember>, ghost st': ObjectState)
      requires InObject(st, depth, z, dom0, front, members, allowComma)
      modifies `offset, `next, `dom, data
      ensures old(offset) < offset <= |src|
      ensures !done ==> InObject(st', depth, z, dom0, front, members', allowComma')
      ensures done ==> Rest() == z.rest && ObjectDone(z.t, dom0, front, members')
      decreases |src| - offset, 3
    {
      done, allowComma', members', st' := false, false, members, st;
      st.Head(depth);
      var _ := SkipAllSkippables();
      if src[offset] == '}' {
        ObjectEnd(st, depth, z, dom0, front, members, allowComma);
        done := true;
      } else if allowComma && src[offset] == ',' {
        st' := ObjectComma(st, depth, z, dom0, front, members);
      } else {
        var member;
        member, st' := ObjectMemberValue(st, depth, z, dom0, front, members, allowComma);
        allowComma', members' := true, members + [member];
      }
    }

    method ObjectEnd(ghost st: ObjectState, ghost depth: nat, ghost z: Scan<Members>, ghost dom0: nat, ghost front: string,
                 ghost members: seq<DMember>, ghost allowComma: bool)
      requires InObject(st, depth, z, dom0, front, members, allowComma) && Rest() == st.Item() && src[offset] == '}'
      modifies `offset
      ensures old(offset) < offset <= |src| && Rest() == z.rest && ObjectDone(z.t, dom0, front, members)
    {
      st.Head(depth);
      MembersFilledEnd(z.t, dom0, front, st.y.t, members, dom, data[..next]);
      assert Rest()[1..] == src[offset + 1..];
      offset := offset + 1;
    }

    method ObjectComma(ghost st: ObjectState, ghost depth: nat, ghost z: Scan<Members>, ghost dom0: nat, ghost front: string,
                   ghost members: seq<DMember>) returns (ghost st': ObjectState)
      requires InObject(st, depth, z, dom0, front, members, true) && Rest() == st.Item() && src[offset] == ','
      modifies `offset
      ensures old(offset) < offset && InObject(st', depth, z, dom0, front, members, false)
    {
      st.Head(depth);
      st.AtComma(depth);
      assert Rest()[1..] == src[offset + 1..];
      offset := offset + 1;
      st' := st.(comma := true);
    }

    /** The rest of one turn of that loop, once the comma has been seen to: json.h:1743-1802. */
    method ObjectMemberValue(ghost st: ObjectState, ghost depth: nat, ghost z: Scan<Members>, ghost dom0: nat, ghost front: string,
                             ghost members: seq<DMember>, ghost allowComma: bool) returns (member: DMember, ghost st': ObjectState)
      requires InObject(st, depth, z, dom0, front, members, allowComma) && Rest() == st.Item()
      requires src[offset] != '}' && (allowComma ==> src[offset] != ',')
      modifies `offset, `next, `dom, data
      ensures old(offset) < offset && InObject(st', depth, z, dom0, front, members + [member], true)
      decreases |src| - offset, 2
    {
      st.Head(depth);
      if !st.first && !st.comma {
        st.AtComma(depth);
      }
      st.AtMember(depth);
      ghost var key := ScanString(st.Item());
      ghost var k := ScanColon(key.t, key.rest);
      ghost var v := ScanTree(k.rest, depth);
      MembersFilledNext(z.t, dom0, front, st.y.t, members, dom, data[..next]);
      MembersFilledFits(z.t, front, st.y.t, data[..next]);
      dom := dom + OBJECT_ELEMENT + STRING;
      var at, size := ParseKey(key, k);
      dom := dom + VALUE;
      var value := ParseValue(k.rest, depth, v);
      member := DMember(at, size, value);
      st' := ObjectState(v.rest, false, false, ScanMembers(v.rest, false, depth));
      st'.Head(depth);
    }

    // ---------------------------------------------------------------- json_parse_ex

    /** The first pass: the whole input is one value, or it is refused. */
    method Measure() returns (err: bool)
      requires offset == domSize == dataSize == recursion == 0
      modifies `offset, `domSize, `dataSize, `recursion
      ensures err <==> ScanDoc(src).Rejected?
      ensures !err ==>
                var t := ScanDoc(src).doc.v;
                domSize == VALUE + RecordSize(t) && dataSize == Cost(t)
    {
      assert src[0..] == src;
      err := GetValueSize(src, MAX_RECURSION);
      if !err {
        var _ := SkipAllSkippables();
        if offset != |src| {
          err := true;
        }
      }
    }

    /**
      json_parse_ex with its default allocator.  The second pass uses up exactly the records the
      first one counted, and all of the data area but one byte for each surrogate pair.
    */
    method Parse() returns (accepted: bool, root: Dom)
      requires offset == domSize == dataSize == recursion == dom == next == 0
      modifies this
      ensures accepted <==> ScanDoc(src).Accepted?
      ensures accepted ==>
                var t := ScanDoc(src).doc.v;
                && fresh(data)
                && root == Layout(t, 0) && InBounds(root, data.Length)
                && Resolve(root, data[..]) == DecodeTree(t)
                && dom == domSize == VALUE + RecordSize(t)
                && data.Length == dataSize == next + Pairs(t)
                && StopsBefore(ScanDoc(src).doc.trail)
    {
      root := DNull;
      var err := Measure();
      if err {
        return false, root;
      }
      ghost var t := ScanDoc(src).doc.v;
      data := new char[dataSize];
      offset, dom, next := 0, VALUE, 0;
      assert src[0..] == src;
      root := ParseValue(SkipSpace(src), MAX_RECURSION, ScanTree(SkipSpace(src), MAX_RECURSION));
      assert data[..next] == Payload(t);
      assert Holds(data[..], 0, Payload(t));
      ResolveLayout(t, 0, data[..]);
      LayoutInBounds(t, 0, data.Length);
      accepted := true;
    }

    /** The second pass stops where the value ends. */
    ghost predicate StopsBefore(trail: string)
      reads this`offset
    {
      offset <= |src| && Rest() == trail
    }
  }

  lemma PairDecodes(hi: string, lo: string, tail: Items, w: string)
    requires ValidItem(Pair(hi, lo))
    ensures w + DecodeItems(SCons(Pair(hi, lo), tail)) == (w + Utf8(Combined(HexValue(hi), HexValue(lo)))) + DecodeItems(tail)
  {
    WrittenSplits(w, Utf8(Combined(HexValue(hi), HexValue(lo))), DecodeItems(tail));
  }

  /** The scan `x` of a bracketed value is that of what stands behind the bracket. */
  ghost predicate IsBracketed(q: string, depth: nat, x: Scan<Tree>)
    requires q != ""
  {
    && (q[0] == '{' ==>
          var z := ScanMembers(q[1..], true, depth);
          z.Got? && x == Got(TObj(z.t), z.rest))
    && (q[0] == '[' ==>
          var z := ScanElems(q[1..], true, depth);
          z.Got? && x == Got(TArr(z.t), z.rest))
  }

  lemma BracketParts(q: string, depth: nat, x: Scan<Tree>)
    requires q != "" && (q[0] == '{' || q[0] == '[') && x == ScanTree(q, depth) && x.Got?
    ensures depth > 0 && IsBracketed(q, depth - 1, x)
  {}

  lemma WrittenSplits(w: string, a: string, b: string)
    ensures w + (a + b) == (w + a) + b
  {}

  lemma EscapeIsAscii(c: char)
    requires IsEscapeLetter(c)
    ensures DecodeItem(Escape(c)) == [EscapeChar(c)]
  {}

  /** The characters json_parse_number copies. */
  predicate IsLoose(c: char) {
    IsDigit(c) || c == '.' || c == 'e' || c == 'E' || c == '+' || c == '-'
  }

  lemma NumberRun(r: string)
    requires r != "" && (r[0] == '-' || IsDigit(r[0])) && ScanNum(r).Got?
    ensures var x := ScanNum(r);
            && r == NumText(x.t) + x.rest && EndsNumber(x.rest)
            && (forall j | 0 <= j < |NumText(x.t)| :: IsLoose(NumText(x.t)[j]))
            && NumText(x.t) != ""
  {
    NumSound(r);
    EmitNumSplits(ScanNum(r).t, ScanNum(r).rest);
    NumIsLoose(ScanNum(r).t);
  }

  lemma LooseRun(r: string, text: string, rest: string, i: nat)
    requires r == text + rest && EndsNumber(rest) && i <= |text|
    requires forall j | 0 <= j < |text| :: IsLoose(text[j])
    ensures i < |text| ==> r[i] == text[i] && IsLoose(r[i]) && text[..i + 1] == text[..i] + [r[i]]
    ensures i == |text| ==> text[..i] == text && r[i..] == rest && (i < |r| ==> !IsLoose(r[i]))
  {
    if i == |text| && i < |r| {
      assert r[i] == rest[0];
    }
  }

  lemma NumIsLoose(n: Num)
    requires ValidNum(n) || n == BareMinus
    ensures forall i | 0 <= i < |NumText(n)| :: IsLoose(NumText(n)[i])
  {
    var e := EmitExponent(n, "");
    var f := EmitFraction(n, "");
    assert forall i | 0 <= i < |e| :: IsLoose(e[i]);
    assert forall i | 0 <= i < |f| :: IsLoose(f[i]);
    var t := n.digits + f;
    assert forall i | 0 <= i < |t| :: IsLoose(t[i]);
    assert n.minus ==> NumText(n) == "-" + t;
  }
}
