/**
  How the alarm server cuts a TCP stream into JSON texts (alarm_server.cpp).

  `findJsonEnd` counts braces and knows nothing of the grammar; it is shown to agree with the
  parser on every accepted object.  `processBuffer` keeps what it cannot use yet; the frames it
  finds are shown not to depend on how the stream was chunked.
*/
module AlarmFraming {
  import opened JsonSyntax
  import opened JsonScan

  /** What the brace scanner finds: the input behind the closing brace, or that there is none yet. */
  datatype Found = Ends(rest: string) | Open

  /** The loop of findJsonEnd from a given state of its three variables. */
  function BraceScan(r: string, depth: int, inStr: bool, esc: bool): (f: Found)
    ensures f.Ends? ==> |f.rest| < |r|
  {
    if r == "" then Open
    else if esc then BraceScan(r[1..], depth, inStr, false)
    else if r[0] == '\\' && inStr then BraceScan(r[1..], depth, inStr, true)
    else if r[0] == '"' then BraceScan(r[1..], depth, !inStr, false)
    else if inStr then BraceScan(r[1..], depth, inStr, false)
    else if r[0] == '{' then BraceScan(r[1..], depth + 1, inStr, false)
    else if r[0] == '}' then if depth - 1 == 0 then Ends(r[1..]) else BraceScan(r[1..], depth - 1, inStr, false)
    else BraceScan(r[1..], depth, inStr, false)
  }

  function FindEnd(data: string): Found {
    BraceScan(data, 0, false, false)
  }

  /** findJsonEnd: the length of the first balanced object, 0 if it is not complete. */
  method FindJsonEnd(data: string) returns (end: nat)
    ensures end == 0 <==> FindEnd(data).Open?
    ensures end <= |data|
    ensures end != 0 ==> FindEnd(data) == Ends(data[end..])
  {
    var depth, inStr, esc := 0, false, false;
    for i := 0 to |data|
      invariant BraceScan(data[i..], depth, inStr, esc) == FindEnd(data)
    {
      var c := data[i];
      assert data[i..][1..] == data[i + 1..];
      if esc {
        esc := false;
      } else if c == '\\' && inStr {
        esc := true;
      } else if c == '"' {
        inStr := !inStr;
      } else if !inStr {
        if c == '{' {
          depth := depth + 1;
        } else if c == '}' {
          depth := depth - 1;
          if depth == 0 {
            return i + 1;
          }
        }
      }
    }
    end := 0;
  }

  // ------------------------------------------------------------------ agreement with the grammar

  ghost predicate Neutral(w: string) {
    forall i | 0 <= i < |w| :: w[i] != '"' && w[i] != '{' && w[i] != '}'
  }

  /** Outside strings, only quotes and braces move the scanner. */
  lemma {:induction false} NeutralPassed(w: string, k: string, depth: int)
    requires Neutral(w)
    ensures BraceScan(w + k, depth, false, false) == BraceScan(k, depth, false, false)
  {
    if w == "" {
      assert w + k == k;
    } else {
      assert (w + k)[0] == w[0] && (w + k)[1..] == w[1..] + k;
      NeutralPassed(w[1..], k, depth);
    }
  }

  /** Inside a string: every item, however spelled, leaves the scanner in the string. */
  lemma ItemPassed(it: Item, k: string, depth: int)
    requires ValidItem(it)
    ensures BraceScan(EmitItem(it, k), depth, true, false) == BraceScan(k, depth, true, false)
  {
    match it {
      case Plain(c) => assert ([c] + k)[1..] == k;
      case Escape(c) =>
        assert EmitItem(it, k)[1..] == [c] + k;
        assert ([c] + k)[1..] == k;
      case Unicode(h) => HexPassed(h, k, depth);
      case Pair(hi, lo) =>
        HexPassed(lo, k, depth);
        HexPassed(hi, "\\u" + (lo + k), depth);
    }
  }

  lemma HexPassed(h: string, k: string, depth: int)
    requires FourHex(h)
    ensures BraceScan("\\u" + (h + k), depth, true, false) == BraceScan(k, depth, true, false)
  {
    var r := "\\u" + (h + k);
    assert r[1..][1..] == h + k;
    PlainPassed(h, k, depth);
  }

  lemma {:induction false} PlainPassed(w: string, k: string, depth: int)
    requires forall i | 0 <= i < |w| :: w[i] != '"' && w[i] != '\\'
    ensures BraceScan(w + k, depth, true, false) == BraceScan(k, depth, true, false)
  {
    if w == "" {
      assert w + k == k;
    } else {
      assert (w + k)[0] == w[0] && (w + k)[1..] == w[1..] + k;
      PlainPassed(w[1..], k, depth);
    }
  }

  lemma {:induction false} ItemsPassed(s: Items, k: string, depth: int)
    requires ValidItems(s)
    ensures BraceScan(EmitItems(s, k), depth, true, false) == BraceScan(k, depth, false, false)
  {
    match s {
      case SEnd => assert ("\"" + k)[1..] == k;
      case SCons(it, tail) =>
        ItemPassed(it, EmitItems(tail, k), depth);
        ItemsPassed(tail, k, depth);
    }
  }

  lemma StringPassed(s: Items, k: string, depth: int)
    requires ValidItems(s)
    ensures BraceScan("\"" + EmitItems(s, k), depth, false, false) == BraceScan(k, depth, false, false)
  {
    assert ("\"" + EmitItems(s, k))[1..] == EmitItems(s, k);
    ItemsPassed(s, k, depth);
  }

  lemma NumPassed(n: Num, k: string, depth: int)
    requires ValidNum(n)
    ensures BraceScan(EmitNum(n, k), depth, false, false) == BraceScan(k, depth, false, false)
  {
    NeutralPassed(n.exponent, k, depth);
    NeutralPassed(n.sign, n.exponent + k, depth);
    NeutralPassed(n.letter, n.sign + (n.exponent + k), depth);
    NeutralPassed(n.frac, EmitExponent(n, k), depth);
    NeutralPassed(".", n.frac + EmitExponent(n, k), depth);
    NeutralPassed(n.digits, EmitFraction(n, k), depth);
    NeutralPassed("-", n.digits + EmitFraction(n, k), depth);
  }

  /** A value inside at least one object is passed with the depth it was met at. */
  lemma {:induction false} TreePassed(t: Tree, limit: nat, k: string, depth: nat)
    requires ValidTree(t, limit) && depth > 0
    ensures BraceScan(EmitTree(t, k), depth, false, false) == BraceScan(k, depth, false, false)
    decreases t, 0
  {
    match t {
      case TNull => NeutralPassed("null", k, depth);
      case TTrue => NeutralPassed("true", k, depth);
      case TFalse => NeutralPassed("false", k, depth);
      case TNum(n) => NumPassed(n, k, depth);
      case TStr(s) => StringPassed(s, k, depth);
      case TArr(es) =>
        NeutralPassed("[", EmitElems(es, true, k), depth);
        ElemsPassed(es, true, limit - 1, k, depth);
      case TObj(ms) =>
        assert ("{" + EmitMembers(ms, true, k))[1..] == EmitMembers(ms, true, k);
        MembersPassed(ms, true, limit - 1, k, depth + 1);
    }
  }

  lemma {:induction false} ElemsPassed(es: Elems, first: bool, limit: nat, k: string, depth: nat)
    requires ValidElems(es, first, limit) && depth > 0
    ensures BraceScan(EmitElems(es, first, k), depth, false, false) == BraceScan(k, depth, false, false)
    decreases es
  {
    match es {
      case EEnd(pad) =>
        NeutralPassed(pad, "]" + k, depth);
        NeutralPassed("]", k, depth);
      case ECons(pad, gap, v, tail) =>
        var q := EmitTree(v, EmitElems(tail, false, k));
        SeparatorPassed(pad, first, gap, q, depth);
        TreePassed(v, limit, EmitElems(tail, false, k), depth);
        ElemsPassed(tail, false, limit, k, depth);
    }
  }

  lemma SeparatorPassed(pad: string, first: bool, gap: string, q: string, depth: int)
    requires AllSpace(pad) && AllSpace(gap)
    ensures BraceScan(pad + (Comma(first) + (gap + q)), depth, false, false) == BraceScan(q, depth, false, false)
  {
    NeutralPassed(gap, q, depth);
    NeutralPassed(Comma(first), gap + q, depth);
    NeutralPassed(pad, Comma(first) + (gap + q), depth);
  }

  /** What the closing brace of an object does to the scanner. */
  function Closed(k: string, depth: int): Found {
    if depth - 1 == 0 then Ends(k) else BraceScan(k, depth - 1, false, false)
  }

  lemma {:induction false} MembersPassed(ms: Members, first: bool, limit: nat, k: string, depth: nat)
    requires ValidMembers(ms, first, limit) && depth > 0
    ensures BraceScan(EmitMembers(ms, first, k), depth, false, false) == Closed(k, depth)
    decreases ms
  {
    match ms {
      case MEnd(pad) =>
        NeutralPassed(pad, "}" + k, depth);
        assert ("}" + k)[1..] == k;
      case MCons(pad, gap, key, before, after, v, tail) =>
        var rest := EmitMembers(tail, false, k);
        var value := EmitTree(v, rest);
        SeparatorPassed(pad, first, gap, "\"" + EmitItems(key, before + (":" + (after + value))), depth);
        KeyPassed(key, before, after, value, depth);
        TreePassed(v, limit, rest, depth);
        MembersPassed(tail, false, limit, k, depth);
    }
  }

  lemma KeyPassed(key: Items, before: string, after: string, value: string, depth: int)
    requires ValidItems(key) && AllSpace(before) && AllSpace(after)
    ensures BraceScan("\"" + EmitItems(key, before + (":" + (after + value))), depth, false, false)
            == BraceScan(value, depth, false, false)
  {
    StringPassed(key, before + (":" + (after + value)), depth);
    NeutralPassed(before, ":" + (after + value), depth);
    NeutralPassed(":", after + value, depth);
    NeutralPassed(after, value, depth);
  }

  /** More input does not move an end that has been found. */
  lemma {:induction false} EndIsStable(a: string, b: string, depth: int, inStr: bool, esc: bool)
    requires BraceScan(a, depth, inStr, esc).Ends?
    ensures BraceScan(a + b, depth, inStr, esc) == Ends(BraceScan(a, depth, inStr, esc).rest + b)
    decreases |a|
  {
    assert (a + b)[0] == a[0] && (a + b)[1..] == a[1..] + b;
    var c := a[0];
    if esc { EndIsStable(a[1..], b, depth, inStr, false); }
    else if c == '\\' && inStr { EndIsStable(a[1..], b, depth, inStr, true); }
    else if c == '"' { EndIsStable(a[1..], b, depth, !inStr, false); }
    else if inStr { EndIsStable(a[1..], b, depth, inStr, false); }
    else if c == '{' { EndIsStable(a[1..], b, depth + 1, inStr, false); }
    else if c == '}' { if depth - 1 != 0 { EndIsStable(a[1..], b, depth - 1, inStr, false); } }
    else { EndIsStable(a[1..], b, depth, inStr, false); }
  }

  /** An accepted text that begins with a brace. */
  ghost predicate ObjectText(t: string) {
    t != "" && t[0] == '{' && ScanDoc(t).Accepted?
  }

  /**
    The scanner and the parser agree: in front of any further input, the scanner ends an accepted
    object exactly where the parser's value ends, so only the blanks behind it are left over.
  */
  lemma FramingAgrees(t: string, r: string)
    requires ObjectText(t)
    ensures ScanDoc(t).doc.v.TObj?
    ensures FindEnd(t + r) == Ends(ScanDoc(t).doc.trail + r)
    ensures AllSpace(ScanDoc(t).doc.trail)
    ensures t[|t| - 1] == '}' ==> FindEnd(t + r) == Ends(r)
  {
    var trail := ScanDoc(t).doc.trail;
    ObjectIsFramed(t);
    EndIsStable(t, r, 0, false, false);
    EndIsSuffix(t, 0, false, false);
    LastOfSuffix(t, trail);
    assert trail == "" ==> trail + r == r;
  }

  lemma LastOfSuffix(t: string, s: string)
    requires |s| <= |t| && t[|t| - |s|..] == s
    ensures s != "" ==> t[|t| - 1] == s[|s| - 1]
  {}

  lemma ObjectIsFramed(t: string)
    requires ObjectText(t)
    ensures ScanDoc(t).doc.v.TObj? && AllSpace(ScanDoc(t).doc.trail)
    ensures FindEnd(t) == Ends(ScanDoc(t).doc.trail)
  {
    var d := ScanDoc(t).doc;
    AcceptanceIsGrammar(t, d);
    if BareMinusDoc(d) {
      BareMinusStarts(d);
      assert false;
    }
    TextStartsValue(t, d);
    var body := EmitMembers(d.v.ms, true, d.trail);
    assert t[1..] == body;
    MembersPassed(d.v.ms, true, MAX_RECURSION - 1, d.trail, 1);
  }

  lemma TextStartsValue(t: string, d: Doc)
    requires t != "" && t[0] == '{' && EmitDoc(d) == t && ValidDoc(d)
    ensures d.lead == "" && d.v.TObj? && t == "{" + EmitMembers(d.v.ms, true, d.trail)
  {
    TreeStarts(d.v, MAX_RECURSION, d.trail);
    HeadOf(d.lead, EmitTree(d.v, d.trail));
    if d.v.TNum? {
      NumComplete(d.v.n, d.trail);
    }
  }

  lemma HeadOf(a: string, b: string)
    requires a + b != ""
    ensures (a + b)[0] == if a != "" then a[0] else b[0]
    ensures a == "" ==> a + b == b
  {}

  /** What the scanner leaves over is a suffix. */
  lemma {:induction false} EndIsSuffix(r: string, depth: int, inStr: bool, esc: bool)
    requires BraceScan(r, depth, inStr, esc).Ends?
    ensures var rest := BraceScan(r, depth, inStr, esc).rest;
            r[|r| - |rest|..] == rest
    decreases |r|
  {
    var c, t := r[0], r[1..];
    var rest := BraceScan(r, depth, inStr, esc).rest;
    assert r[|r| - |rest|..] == t[|t| - |rest|..];
    if esc { EndIsSuffix(t, depth, inStr, false); }
    else if c == '\\' && inStr { EndIsSuffix(t, depth, inStr, true); }
    else if c == '"' { EndIsSuffix(t, depth, !inStr, false); }
    else if inStr { EndIsSuffix(t, depth, inStr, false); }
    else if c == '{' { EndIsSuffix(t, depth + 1, inStr, false); }
    else if c == '}' { if depth - 1 != 0 { EndIsSuffix(t, depth - 1, inStr, false); } }
    else { EndIsSuffix(t, depth, inStr, false); }
  }

  // ------------------------------------------------------------------ frames

  const MAX_BUF: nat := 32768

  /** The buffer from its first opening brace on; empty if it has none. */
  function FromBrace(buf: string): (r: string)
    ensures |r| <= |buf|
    ensures r != "" ==> r[0] == '{'
  {
    if buf == "" || buf[0] == '{' then buf else FromBrace(buf[1..])
  }

  datatype Split = Split(frames: seq<string>, left: string)

  /** What processBuffer cuts off a buffer, and what it leaves in it. */
  function Frames(buf: string): Split
    decreases |buf|
  {
    var b := FromBrace(buf);
    if b == "" then Split([], if |buf| > MAX_BUF then "" else buf)
    else
      match FindEnd(b)
      case Open => Split([], b)
      case Ends(rest) =>
        var more := Frames(rest);
        Split([b[..|b| - |rest|]] + more.frames, more.left)
  }

  ghost predicate BraceFree(s: string) {
    '{' !in s
  }

  lemma {:induction false} NoBrace(s: string)
    ensures FromBrace(s) == "" <==> BraceFree(s)
  {
    if s != "" && s[0] != '{' { NoBrace(s[1..]); }
  }

  lemma {:induction false} SkipToBrace(a: string, b: string)
    ensures BraceFree(a) ==> FromBrace(a + b) == FromBrace(b)
    ensures !BraceFree(a) ==> FromBrace(a + b) == FromBrace(a) + b
  {
    if a == "" {
      assert a + b == b;
    } else if a[0] != '{' {
      assert (a + b)[1..] == a[1..] + b;
      SkipToBrace(a[1..], b);
    }
  }

  /** Bytes without a brace wait for one until there are more than 32 KiB of them; then they are dropped. */
  lemma BraceFreeIsKept(buf: string)
    requires BraceFree(buf)
    ensures Frames(buf) == Split([], if |buf| > 32768 then "" else buf)
  {
    NoBrace(buf);
  }

  /** An object that is not complete waits, from its brace on, whatever its length. */
  lemma OpenIsKept(gap: string, b: string)
    requires BraceFree(gap) && b != "" && b[0] == '{' && FindEnd(b).Open?
    ensures Frames(gap + b) == Split([], b)
  {
    SkipToBrace(gap, b);
  }

  /** Leftovers that behave alike for every continuation: equal, or both without a brace. */
  ghost predicate Alike(x: string, y: string) {
    x == y || (BraceFree(x) && BraceFree(y))
  }

  lemma SameFrames(x: string, y: string)
    requires FromBrace(x) == FromBrace(y)
    ensures Frames(x).frames == Frames(y).frames && Alike(Frames(x).left, Frames(y).left)
  {
    NoBrace(x);
    NoBrace(y);
  }

  lemma AlikeContinue(x: string, y: string, b: string)
    requires Alike(x, y)
    ensures Frames(x + b).frames == Frames(y + b).frames && Alike(Frames(x + b).left, Frames(y + b).left)
  {
    if x != y {
      SkipToBrace(x, b);
      SkipToBrace(y, b);
      SameFrames(x + b, y + b);
    }
  }

  /**
    Processing a first part, then appending a second and going on, finds the same frames as
    processing both at once, also when the overflow rule has cleared the buffer in between.
  */
  lemma {:induction false} ChunkInvariance(a: string, b: string)
    ensures var one := Frames(a + b);
            var two := Frames(Frames(a).left + b);
            && one.frames == Frames(a).frames + two.frames
            && Alike(one.left, two.left)
    decreases |a|
  {
    var f := FromBrace(a);
    NoBrace(a);
    SkipToBrace(a, b);
    if f == "" {
      NoBrace(Frames(a).left);
      SkipToBrace(Frames(a).left, b);
      SameFrames(a + b, Frames(a).left + b);
    } else if FindEnd(f).Open? {
      assert FromBrace(f + b) == f + b;
      SameFrames(a + b, f + b);
    } else {
      var rest := FindEnd(f).rest;
      EndIsStable(f, b, 0, false, false);
      ChunkInvariance(rest, b);
      assert (f + b)[..|f + b| - |rest + b|] == f[..|f| - |rest|];
    }
  }

  // ------------------------------------------------------------------ streams

  function Concat(chunks: seq<string>): string {
    if chunks == [] then "" else chunks[0] + Concat(chunks[1..])
  }

  /** The frames found when the chunks arrive one after the other at a buffer holding `left`. */
  function Feed(left: string, chunks: seq<string>): Split
    decreases |chunks|
  {
    if chunks == [] then Split([], left)
    else
      var s := Frames(left + chunks[0]);
      var more := Feed(s.left, chunks[1..]);
      Split(s.frames + more.frames, more.left)
  }

  /** However the stream is cut, the frames are those of the whole stream. */
  lemma {:induction false} FeedIsWhole(left: string, chunks: seq<string>)
    requires chunks != []
    ensures Feed(left, chunks).frames == Frames(left + Concat(chunks)).frames
    ensures Alike(Feed(left, chunks).left, Frames(left + Concat(chunks)).left)
    decreases |chunks|
  {
    var a := left + chunks[0];
    var s := Frames(a);
    if |chunks| == 1 {
      assert Concat(chunks) == chunks[0];
      assert Feed(s.left, chunks[1..]) == Split([], s.left);
    } else {
      var b := Concat(chunks[1..]);
      FeedIsWhole(s.left, chunks[1..]);
      ChunkInvariance(a, b);
      assert left + Concat(chunks) == a + b;
    }
  }

  /** A stream of texts, each behind some other bytes. */
  function Stream(gaps: seq<string>, texts: seq<string>, tail: string): string
    requires |gaps| == |texts|
    decreases |texts|
  {
    if texts == [] then tail else gaps[0] + (texts[0] + Stream(gaps[1..], texts[1..], tail))
  }

  /** An accepted object text without blanks behind it. */
  ghost predicate TightObject(t: string) {
    ObjectText(t) && t[|t| - 1] == '}'
  }

  lemma {:induction false} StreamIsFramed(gaps: seq<string>, texts: seq<string>, tail: string)
    requires |gaps| == |texts| && BraceFree(tail)
    requires forall i | 0 <= i < |gaps| :: BraceFree(gaps[i])
    requires forall i | 0 <= i < |texts| :: TightObject(texts[i])
    ensures Frames(Stream(gaps, texts, tail)).frames == texts
    decreases |texts|
  {
    if texts == [] {
      BraceFreeIsKept(tail);
    } else {
      StreamIsFramed(gaps[1..], texts[1..], tail);
      NextIsFramed(gaps[0], texts[0], Stream(gaps[1..], texts[1..], tail));
      assert texts == [texts[0]] + texts[1..];
    }
  }

  lemma NextIsFramed(gap: string, t: string, more: string)
    requires BraceFree(gap) && TightObject(t)
    ensures Frames(gap + (t + more)).frames == [t] + Frames(more).frames
  {
    SkipToBrace(gap, t + more);
    FramingAgrees(t, more);
    OneFramed(gap, t, more);
  }

  /** An object that is framed whole, behind other bytes. */
  lemma OneFramed(gap: string, t: string, more: string)
    requires t != "" && t[0] == '{' && FromBrace(gap + (t + more)) == FromBrace(t + more) && FindEnd(t + more) == Ends(more)
    ensures Frames(gap + (t + more)).frames == [t] + Frames(more).frames
  {
    assert FromBrace(t + more) == t + more;
    assert (t + more)[..|t|] == t;
  }
}
