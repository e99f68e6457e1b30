/**
  json_write_minified and json_write_pretty: a pass that computes the size, one allocation, and a
  pass that fills it.

  Each size method returns the length of `Show`, and each write method appends `Show` to what the
  buffer holds, so every write lands inside the allocation and fills it to the last byte.

  The texts of numbers are those that the size pass counts as they are written, which all that any
  flags allow are (`JsonNumber.ExtendedIsWritten`); `GetNumberSize` says what it counts of the others.
*/
module JsonWriter {
  import opened JsonSyntax
  import opened JsonScan
  import opened JsonDom
  import opened JsonText
  import opened JsonNumber
  import opened JsonParser
  import opened Numerals

  // ------------------------------------------------------------------ lengths

  lemma {:induction false} RepeatLength(s: string, n: nat)
    ensures |Repeat(s, n)| == n * |s|
  {
    if n > 0 {
      RepeatLength(s, n - 1);
      assert n * |s| == (n - 1) * |s| + |s|;
    }
  }

  lemma RepeatEmpty(n: nat)
    ensures Repeat("", n) == ""
  {
    RepeatLength("", n);
  }

  /** What the size passes add for one element: its indent, its newline, its text. */
  function ElemWidth(v: Value, depth: nat, st: Style): nat {
    |Repeat(st.indent, depth + 1)| + |st.newline| + |Show(v, depth + 1, st)|
  }

  function ElemWidths(elems: seq<Value>, depth: nat, st: Style): nat {
    if elems == [] then 0 else ElemWidth(elems[0], depth, st) + ElemWidths(elems[1..], depth, st)
  }

  function MemberWidth(m: Member, depth: nat, st: Style): nat {
    |Repeat(st.indent, depth + 1)| + |st.newline| + |ShowMember(m, depth, st)|
  }

  function MemberWidths(members: seq<Member>, depth: nat, st: Style): nat {
    if members == [] then 0 else MemberWidth(members[0], depth, st) + MemberWidths(members[1..], depth, st)
  }

  /** The commas are counted apart, and the newline behind the last item belongs to the bracket. */
  lemma {:induction false} ElemsLength(elems: seq<Value>, first: bool, depth: nat, st: Style)
    ensures elems != [] && first ==>
              |ShowElems(elems, first, depth, st)| + |st.newline| == ElemWidths(elems, depth, st) + |elems| - 1
    ensures !first ==> |ShowElems(elems, first, depth, st)| == ElemWidths(elems, depth, st) + |elems|
  {
    if elems != [] {
      ElemsLength(elems[1..], false, depth, st);
    }
  }

  lemma {:induction false} MembersLength(members: seq<Member>, first: bool, depth: nat, st: Style)
    ensures members != [] && first ==>
              |ShowMembers(members, first, depth, st)| + |st.newline| == MemberWidths(members, depth, st) + |members| - 1
    ensures !first ==> |ShowMembers(members, first, depth, st)| == MemberWidths(members, depth, st) + |members|
  {
    if members != [] {
      MembersLength(members[1..], false, depth, st);
    }
  }

  lemma ArrayLength(elems: seq<Value>, depth: nat, st: Style, pad: nat)
    requires pad == |Repeat(st.indent, depth)|
    ensures |Show(Arr(elems), depth, st)|
            == if elems == [] then 2
               else 1 + |st.newline| + (|elems| - 1) + ElemWidths(elems, depth, st) + pad + 1
  {
    ElemsLength(elems, true, depth, st);
  }

  lemma ObjectLength(members: seq<Member>, depth: nat, st: Style, pad: nat)
    requires pad == |Repeat(st.indent, depth)|
    ensures |Show(Obj(members), depth, st)|
            == if members == [] then 2
               else 1 + |st.newline| + (|members| - 1) + MemberWidths(members, depth, st) + pad + 1
  {
    MembersLength(members, true, depth, st);
  }

  // ------------------------------------------------------------------ size passes

  /** json_write_get_string_size. */
  method GetStringSize(s: string) returns (size: nat)
    ensures size == |ShowString(s)|
  {
    size := 0;
    for i := 0 to |s|
      invariant size + |ShowChars(s[i..])| == |ShowChars(s)|
    {
      assert s[i..][1..] == s[i + 1..];
      size := size + (if IsEscaped(s[i]) then 2 else 1);
    }
    assert ShowChars(s[|s|..]) == "";
    size := size + 2;
  }

  /** json_write_get_number_size, json.h:2528-2648; it forgets a text that begins like infinity and is not. */
  method GetNumberSize(text: string) returns (size: nat)
    requires Comparable(text)
    ensures size == if Uncounted(text) then 0 else |ShowNumber(text)|
  {
    if |text| >= 2 && (text[1] == 'x' || text[1] == 'X') {
      size := DecimalSize(HexadecimalNumber(text));
      return;
    }
    var i := 0;
    if i < |text| && (text[i] == '+' || text[i] == '-') {
      i := i + 1;
    }
    if i < |text| && text[i] == 'I' {
      var n := Compare(text[i..], INFINITY);
      size := 0;
      if n == |INFINITY| {
        size := 22;
        if text[0] == '-' {
          size := size + 1;
        }
      }
      LargestDigits();
      return;
    }
    if i < |text| && text[i] == 'N' {
      var n := Compare(text[i..], NOT_A_NUMBER);
      if n == |NOT_A_NUMBER| {
        return 1;
      }
    }
    size := PlainSize(text, i);
  }

  /** The comparison with a literal that both functions for numbers have, twice. */
  method Compare(rest: string, word: string) returns (n: nat)
    ensures n == Fetched(rest, word)
  {
    n := 0;
    while n < |rest|
      invariant n <= |rest| && n <= |word|
      invariant Fetched(rest, word) == n + Fetched(rest[n..], word[n..])
    {
      if n == |word| || word[n] != rest[n] {
        return n + 1;
      }
      assert rest[n..][1..] == rest[n + 1..] && word[n..][1..] == word[n + 1..];
      n := n + 1;
    }
  }

  /** The digits of the decimal form, counted. */
  method DecimalSize(number: nat) returns (i: nat)
    ensures i == |Decimal(number)|
  {
    var n: nat := number / 10;
    i := 1;
    while n != 0
      invariant |Decimal(number)| == i + if n == 0 then 0 else |Decimal(n)|
    {
      n := n / 10;
      i := i + 1;
    }
  }

  /** The rest of json_write_get_number_size, behind its label too. */
  method PlainSize(text: string, start: nat) returns (size: nat)
    requires !Hexadecimal(text) && !Infinite(text) && !NotANumber(text) && start == SignLength(text)
    ensures size == |ShowNumber(text)|
  {
    var i := start;
    size := 0;
    if i < |text| && text[i] == '.' {
      size := size + 1;
    } else {
      i := SkipNumberDigits(text, i);
      assert TrailingPoint(text) <==> text[i..] == ".";
      if i + 1 == |text| && text[i] == '.' {
        assert text[i..] == ".";
        size := size + 1;
      } else {
        assert text[i..] == "." ==> i + 1 == |text|;
      }
    }
    size := size + |text|;
    if text != "" && text[0] == '+' {
      size := size - 1;
    }
  }

  /** The loop over the digits that both functions for numbers have. */
  method SkipNumberDigits(text: string, start: nat) returns (i: nat)
    requires start <= |text|
    ensures start <= i <= |text| && text[i..] == SkipDigits(text[start..])
  {
    i := start;
    while i < |text| && '0' <= text[i] <= '9'
      invariant start <= i <= |text| && SkipDigits(text[i..]) == SkipDigits(text[start..])
    {
      assert text[i..][1..] == text[i + 1..];
      i := i + 1;
    }
  }

  /** json_write_minified_get_value_size and its two list functions. */
  method MinifiedSize(v: Value, ghost depth: nat) returns (size: nat)
    requires NumbersWritable(v)
    ensures size == |Show(v, depth, MINIFIED)|
    decreases v, 1
  {
    match v {
      case Null => size := 4;
      case True => size := 4;
      case False => size := 5;
      case Number(text) => size := GetNumberSize(text);
      case Str(s) => size := GetStringSize(s);
      case Arr(elems) => size := MinifiedArraySize(elems, depth);
      case Obj(members) => size := MinifiedObjectSize(members, depth);
    }
  }

  method MinifiedArraySize(elems: seq<Value>, ghost depth: nat) returns (size: nat)
    requires NumbersWritable(Arr(elems))
    ensures size == |Show(Arr(elems), depth, MINIFIED)|
    decreases elems, 2
  {
    size := 2;
    if 1 < |elems| {
      size := size + |elems| - 1;
    }
    ghost var start := size;
    for i := 0 to |elems|
      invariant size + ElemWidths(elems[i..], depth, MINIFIED) == start + ElemWidths(elems, depth, MINIFIED)
    {
      assert elems[i..][1..] == elems[i + 1..];
      RepeatEmpty(depth + 1);
      var n := MinifiedSize(elems[i], depth + 1);
      size := size + n;
    }
    RepeatEmpty(depth);
    ArrayLength(elems, depth, MINIFIED, 0);
  }

  method MinifiedObjectSize(members: seq<Member>, ghost depth: nat) returns (size: nat)
    requires NumbersWritable(Obj(members))
    ensures size == |Show(Obj(members), depth, MINIFIED)|
    decreases members, 2
  {
    size := 2;
    size := size + |members|;
    if 1 < |members| {
      size := size + |members| - 1;
    }
    ghost var start := size - |members|;
    for i := 0 to |members|
      invariant size + MemberWidths(members[i..], depth, MINIFIED)
                == start + MemberWidths(members, depth, MINIFIED) + (|members| - i)
    {
      assert members[i..][1..] == members[i + 1..];
      var n := GetStringSize(members[i].name);
      size := size + n;
      n := MinifiedMemberValueSize(members[i], depth);
      size := size + n;
    }
    RepeatEmpty(depth);
    ObjectLength(members, depth, MINIFIED, 0);
  }

  method MinifiedMemberValueSize(m: Member, ghost depth: nat) returns (size: nat)
    requires NumbersWritableIn(m)
    ensures size == |Show(m.value, depth + 1, MINIFIED)|
    ensures MemberWidth(m, depth, MINIFIED) == |ShowString(m.name)| + 1 + size
    decreases m, 1
  {
    RepeatEmpty(depth + 1);
    size := MinifiedSize(m.value, depth + 1);
  }

  /** json_write_pretty_get_value_size and its two list functions. */
  method PrettySize(v: Value, depth: nat, indentSize: nat, newlineSize: nat, ghost st: Style) returns (size: nat)
    requires NumbersWritable(v)
    requires indentSize == |st.indent| && newlineSize == |st.newline| && |Colon(st)| == 3
    ensures size == |Show(v, depth, st)|
    decreases v, 1
  {
    match v {
      case Null => size := 4;
      case True => size := 4;
      case False => size := 5;
      case Number(text) => size := GetNumberSize(text);
      case Str(s) => size := GetStringSize(s);
      case Arr(elems) => size := PrettyArraySize(elems, depth, indentSize, newlineSize, st);
      case Obj(members) => size := PrettyObjectSize(members, depth, indentSize, newlineSize, st);
    }
  }

  /** The bytes of an indent. */
  method IndentSize(depth: nat, indentSize: nat, ghost st: Style) returns (size: nat)
    requires indentSize == |st.indent|
    ensures size == |Repeat(st.indent, depth)|
  {
    RepeatLength(st.indent, depth);
    size := depth * indentSize;
  }

  method PrettyArraySize(elems: seq<Value>, depth: nat, indentSize: nat, newlineSize: nat, ghost st: Style) returns (size: nat)
    requires NumbersWritable(Arr(elems))
    requires indentSize == |st.indent| && newlineSize == |st.newline| && |Colon(st)| == 3
    ensures size == |Show(Arr(elems), depth, st)|
    decreases elems, 2
  {
    var pad := IndentSize(depth, indentSize, st);
    size := 1;
    if 0 < |elems| {
      var n := PrettyElemsSize(elems, depth, indentSize, newlineSize, st);
      size := size + newlineSize + (|elems| - 1) + n + pad;
    }
    size := size + 1;
    ArrayLength(elems, depth, st, pad);
  }

  /** The loop of json_write_pretty_get_array_size. */
  method PrettyElemsSize(elems: seq<Value>, depth: nat, indentSize: nat, newlineSize: nat, ghost st: Style) returns (size: nat)
    requires NumbersWritable(Arr(elems))
    requires indentSize == |st.indent| && newlineSize == |st.newline| && |Colon(st)| == 3
    ensures size == ElemWidths(elems, depth, st)
    decreases elems, 1
  {
    size := 0;
    for i := 0 to |elems|
      invariant size + ElemWidths(elems[i..], depth, st) == ElemWidths(elems, depth, st)
    {
      assert elems[i..][1..] == elems[i + 1..];
      var pad := IndentSize(depth + 1, indentSize, st);
      var n := PrettySize(elems[i], depth + 1, indentSize, newlineSize, st);
      size := size + pad + n + newlineSize;
    }
  }

  method PrettyObjectSize(members: seq<Member>, depth: nat, indentSize: nat, newlineSize: nat, ghost st: Style) returns (size: nat)
    requires NumbersWritable(Obj(members))
    requires indentSize == |st.indent| && newlineSize == |st.newline| && |Colon(st)| == 3
    ensures size == |Show(Obj(members), depth, st)|
    decreases members, 2
  {
    var pad := IndentSize(depth, indentSize, st);
    size := 1;
    if 0 < |members| {
      var n := PrettyMembersSize(members, depth, indentSize, newlineSize, st);
      size := size + newlineSize + (|members| - 1) + n + pad;
    }
    size := size + 1;
    ObjectLength(members, depth, st, pad);
  }

  /** The loop of json_write_pretty_get_object_size. */
  method PrettyMembersSize(members: seq<Member>, depth: nat, indentSize: nat, newlineSize: nat, ghost st: Style) returns (size: nat)
    requires NumbersWritable(Obj(members))
    requires indentSize == |st.indent| && newlineSize == |st.newline| && |Colon(st)| == 3
    ensures size == MemberWidths(members, depth, st)
    decreases members, 1
  {
    size := 0;
    for i := 0 to |members|
      invariant size + MemberWidths(members[i..], depth, st) == MemberWidths(members, depth, st)
    {
      assert members[i..][1..] == members[i + 1..];
      var pad := IndentSize(depth + 1, indentSize, st);
      size := size + pad + newlineSize;
      var n := GetStringSize(members[i].name);
      size := size + n + 3;
      n := PrettyMemberValueSize(members[i], depth, indentSize, newlineSize, st);
      size := size + n;
    }
  }

  method PrettyMemberValueSize(m: Member, depth: nat, indentSize: nat, newlineSize: nat, ghost st: Style) returns (size: nat)
    requires NumbersWritableIn(m)
    requires indentSize == |st.indent| && newlineSize == |st.newline| && |Colon(st)| == 3
    ensures size == |Show(m.value, depth + 1, st)|
    ensures MemberWidth(m, depth, st)
            == |Repeat(st.indent, depth + 1)| + newlineSize + |ShowString(m.name)| + 3 + size
    decreases m, 1
  {
    size := PrettySize(m.value, depth + 1, indentSize, newlineSize, st);
  }

  // ------------------------------------------------------------------ write passes

  /** A run of `*data++ = c`. */
  method WriteChars(data: array<char>, at: nat, s: string) returns (at': nat)
    requires at + |s| <= data.Length
    modifies data
    ensures at' == at + |s|
    ensures data[..at'] == old(data[..at]) + s
  {
    at' := at;
    for i := 0 to |s|
      invariant at' == at + i
      invariant data[..at'] == old(data[..at]) + s[..i]
    {
      data[at'] := s[i];
      at' := at' + 1;
    }
    assert s[..|s|] == s;
  }

  method WriteIndent(data: array<char>, at: nat, indent: string, n: nat) returns (at': nat)
    requires at + |Repeat(indent, n)| <= data.Length
    modifies data
    ensures at' == at + |Repeat(indent, n)|
    ensures data[..at'] == old(data[..at]) + Repeat(indent, n)
  {
    at' := at;
    for k := 0 to n
      invariant at' + |Repeat(indent, n - k)| == at + |Repeat(indent, n)|
      invariant data[..at'] + Repeat(indent, n - k) == old(data[..at]) + Repeat(indent, n)
    {
      assert Repeat(indent, n - k) == indent + Repeat(indent, n - k - 1);
      at' := WriteChars(data, at', indent);
    }
  }

  /** json_write_string. */
  method WriteString(data: array<char>, at: nat, s: string) returns (at': nat)
    requires at + |ShowString(s)| <= data.Length
    modifies data
    ensures at' == at + |ShowString(s)|
    ensures data[..at'] == old(data[..at]) + ShowString(s)
  {
    at' := WriteChars(data, at, "\"");
    ghost var front := data[..at'];
    assert front + ShowChars(s) == front + ShowChars(s[0..]);
    for i := 0 to |s|
      invariant at' + |ShowChars(s[i..])| == at + 1 + |ShowChars(s)|
      invariant data[..at'] + ShowChars(s[i..]) == front + ShowChars(s)
    {
      assert s[i..][1..] == s[i + 1..];
      at' := WriteChars(data, at', ShowChar(s[i]));
    }
    assert ShowChars(s[|s|..]) == "";
    assert data[..at'] == front + ShowChars(s);
    at' := WriteChars(data, at', "\"");
    WrittenSplits(old(data[..at]), "\"" + ShowChars(s), "\"");
    WrittenSplits(old(data[..at]), "\"", ShowChars(s));
  }

  /** json_write_number, json.h:2768-2947; what is not infinity after all is copied. */
  method WriteNumber(data: array<char>, at: nat, text: string) returns (at': nat)
    requires Comparable(text) && at + |ShowNumber(text)| <= data.Length
    modifies data
    ensures at' == at + |ShowNumber(text)|
    ensures data[..at'] == old(data[..at]) + ShowNumber(text)
  {
    if |text| >= 2 && (text[1] == 'x' || text[1] == 'X') {
      at' := WriteDecimal(data, at, HexadecimalNumber(text));
      return;
    }
    var i := 0;
    if i < |text| && (text[i] == '+' || text[i] == '-') {
      i := i + 1;
    }
    if i < |text| && text[i] == 'I' {
      var n := Compare(text[i..], INFINITY);
      if n == |INFINITY| {
        at' := WriteLargest(data, at, text);
        return;
      }
    }
    if i < |text| && text[i] == 'N' {
      var n := Compare(text[i..], NOT_A_NUMBER);
      if n == |NOT_A_NUMBER| {
        at' := WriteChars(data, at, "0");
        return;
      }
    }
    at' := WritePlain(data, at, text, i);
  }

  /** Infinity, as the largest double. */
  method WriteLargest(data: array<char>, at: nat, text: string) returns (at': nat)
    requires at + |Minus(text) + LARGEST| <= data.Length
    modifies data
    ensures at' == at + |Minus(text) + LARGEST|
    ensures data[..at'] == old(data[..at]) + (Minus(text) + LARGEST)
  {
    at' := at;
    if text != "" && text[0] == '-' {
      at' := WriteChars(data, at', "-");
    }
    at' := WriteChars(data, at', LARGEST);
  }

  /** The last digit of a decimal form, and what is in front of it. */
  lemma LastDigit(digits: string, i: nat, n: nat)
    requires i <= |digits| && digits[..i] == Decimal(n)
    ensures i > 0 && digits[i - 1] == ('0' as int + n % 10) as char
    ensures n >= 10 ==> digits[..i - 1] == Decimal(n / 10)
    ensures n < 10 ==> i == 1
  {
    var front := digits[..i];
    assert |front| == i && front[i - 1] == digits[i - 1];
    if n >= 10 {
      assert front == Decimal(n / 10) + [front[i - 1]];
      assert digits[..i - 1] == Decimal(n / 10);
    }
  }

  /** The digits from the i-th on stand at their places behind what was there before. */
  ghost predicate TailWritten(data: array<char>, at: nat, before: seq<char>, digits: string, i: nat)
    reads data
  {
    && i <= |digits| && at + |digits| <= data.Length && data[..at] == before
    && forall j | i <= j < |digits| :: data[at + j] == digits[j]
  }

  method PutDigit(data: array<char>, at: nat, c: char, ghost before: seq<char>, ghost digits: string, i: nat)
    requires i > 0 && TailWritten(data, at, before, digits, i) && c == digits[i - 1]
    modifies data
    ensures TailWritten(data, at, before, digits, i - 1)
  {
    data[at + i - 1] := c;
    assert data[..at] == old(data[..at]);
  }

  /** The decimal form, from its last digit to its first. */
  method WriteDecimal(data: array<char>, at: nat, number: nat) returns (at': nat)
    requires at + |Decimal(number)| <= data.Length
    modifies data
    ensures at' == at + |Decimal(number)|
    ensures data[..at'] == old(data[..at]) + Decimal(number)
  {
    ghost var before, digits := data[..at], Decimal(number);
    var i: nat := DecimalSize(number);
    at' := at + i;
    assert digits[..i] == digits;
    var n: nat, more := number, true;
    while more
      invariant TailWritten(data, at, before, digits, i)
      invariant if more then digits[..i] == Decimal(n) else i == 0
      decreases i
    {
      LastDigit(digits, i, n);
      PutDigit(data, at, ('0' as int + n % 10) as char, before, digits, i);
      n := n / 10;
      i := i - 1;
      more := n != 0;
    }
    assert data[..at'] == before + digits;
  }

  /** The rest of json_write_number. */
  method WritePlain(data: array<char>, at: nat, text: string, start: nat) returns (at': nat)
    requires !Hexadecimal(text) && !Infinite(text) && !NotANumber(text) && start == SignLength(text)
    requires at + |ShowNumber(text)| <= data.Length
    modifies data
    ensures at' == at + |ShowNumber(text)|
    ensures data[..at'] == old(data[..at]) + ShowNumber(text)
  {
    var i := start;
    if i < |text| && text[i] == '.' {
      at' := WritePointed(data, at, text);
      return;
    }
    i := SkipNumberDigits(text, i);
    assert TrailingPoint(text) <==> text[i..] == ".";
    if i + 1 == |text| && text[i] == '.' {
      assert text[i..] == ".";
      at' := WriteTrailing(data, at, text);
    } else {
      assert text[i..] == "." ==> i + 1 == |text|;
      at' := WriteUnsigned(data, at, text);
    }
  }

  /** The text but for a leading plus. */
  method WriteUnsigned(data: array<char>, at: nat, text: string) returns (at': nat)
    requires at + |WithoutPlus(text)| <= data.Length
    modifies data
    ensures at' == at + |WithoutPlus(text)|
    ensures data[..at'] == old(data[..at]) + WithoutPlus(text)
  {
    var i := 0;
    if text != "" && text[i] == '+' {
      i := i + 1;
    }
    at' := WriteChars(data, at, text[i..]);
  }

  /** Skips a leading plus, and writes a leading minus. */
  method WriteSign(data: array<char>, at: nat, text: string) returns (i: nat, at': nat)
    requires SignLength(text) < |text| && text[SignLength(text)] != '-' && at + |Minus(text)| <= data.Length
    modifies data
    ensures i == SignLength(text) && at' == at + |Minus(text)|
    ensures data[..at'] == old(data[..at]) + Minus(text)
  {
    i := 0;
    at' := at;
    if text[i] == '+' {
      i := i + 1;
    }
    if text[i] == '-' {
      at' := WriteChars(data, at', "-");
      i := i + 1;
    }
  }

  /** The branch for a leading point. */
  method WritePointed(data: array<char>, at: nat, text: string) returns (at': nat)
    requires LeadingPoint(text) && !Hexadecimal(text) && at + |ShowNumber(text)| <= data.Length
    modifies data
    ensures at' == at + |ShowNumber(text)|
    ensures data[..at'] == old(data[..at]) + ShowNumber(text)
  {
    PointedShown(text);
    var i;
    i, at' := WriteSign(data, at, text);
    at' := WriteChars(data, at', "0");
    at' := WriteChars(data, at', text[i..]);
  }

  /** The branch for a trailing point. */
  method WriteTrailing(data: array<char>, at: nat, text: string) returns (at': nat)
    requires !LeadingPoint(text) && TrailingPoint(text) && !Hexadecimal(text) && !Infinite(text) && !NotANumber(text)
    requires at + |ShowNumber(text)| <= data.Length
    modifies data
    ensures at' == at + |ShowNumber(text)|
    ensures data[..at'] == old(data[..at]) + ShowNumber(text)
  {
    TrailingShown(text);
    var i;
    i, at' := WriteSign(data, at, text);
    at' := WriteChars(data, at', text[i..]);
    at' := WriteChars(data, at', "0");
  }

  lemma Brackets(front: string, open: string, body: string, close: string)
    ensures ((front + open) + body) + close == front + (open + body + close)
  {}

  lemma Body(front: string, newline: string, items: string, indent: string)
    ensures (((front + newline) + items) + newline) + indent == front + (newline + items + newline + indent)
  {}

  lemma Cut(front: string, a: string, b: string, c: string)
    ensures front + (a + b + c) == ((front + a) + b) + c
    ensures |a + b + c| == |a| + |b| + |c|
  {}

  /** The buffer is filled up to `at`, and with `rest` behind that it holds `all`. */
  ghost predicate Left(data: array<char>, at: nat, rest: string, all: string)
    reads data
  {
    at + |rest| == |all| <= data.Length && data[..at] + rest == all
  }

  /** json_write_minified_value, json.h:3057-3094. */
  method MinifiedValue(v: Value, ghost depth: nat, data: array<char>, at: nat) returns (at': nat)
    requires NumbersWritable(v)
    requires at + |Show(v, depth, MINIFIED)| <= data.Length
    modifies data
    ensures at' == at + |Show(v, depth, MINIFIED)|
    ensures data[..at'] == old(data[..at]) + Show(v, depth, MINIFIED)
    decreases v, 1
  {
    match v {
      case Null => at' := WriteChars(data, at, "null");
      case True => at' := WriteChars(data, at, "true");
      case False => at' := WriteChars(data, at, "false");
      case Number(text) => at' := WriteNumber(data, at, text);
      case Str(s) => at' := WriteString(data, at, s);
      case Arr(elems) => at' := MinifiedArray(elems, depth, data, at);
      case Obj(members) => at' := MinifiedObject(members, depth, data, at);
    }
  }

  /** json_write_minified_array, json.h:2997-3020. */
  method MinifiedArray(elems: seq<Value>, ghost depth: nat, data: array<char>, at: nat) returns (at': nat)
    requires NumbersWritable(Arr(elems))
    requires at + |Show(Arr(elems), depth, MINIFIED)| <= data.Length
    modifies data
    ensures at' == at + |Show(Arr(elems), depth, MINIFIED)|
    ensures data[..at'] == old(data[..at]) + Show(Arr(elems), depth, MINIFIED)
    decreases elems, 4
  {
    ghost var st, items := MINIFIED, ShowElems(elems, true, depth, MINIFIED);
    at' := WriteChars(data, at, "[");
    at' := MinifiedArrayItems(elems, depth, data, at');
    at' := WriteChars(data, at', "]");
    RepeatEmpty(depth);
    assert ShowBody(items, elems == [], depth, st) == items;
    Brackets(old(data[..at]), "[", items, "]");
  }

  /** Its loop. */
  method MinifiedArrayItems(elems: seq<Value>, ghost depth: nat, data: array<char>, at: nat) returns (at': nat)
    requires NumbersWritable(Arr(elems))
    requires at + |ShowElems(elems, true, depth, MINIFIED)| <= data.Length
    modifies data
    ensures at' == at + |ShowElems(elems, true, depth, MINIFIED)|
    ensures data[..at'] == old(data[..at]) + ShowElems(elems, true, depth, MINIFIED)
    decreases elems, 3
  {
    at' := at;
    ghost var all := data[..at] + ShowElems(elems, true, depth, MINIFIED);
    for i := 0 to |elems|
      invariant Left(data, at', ShowElems(elems[i..], i == 0, depth, MINIFIED), all)
    {
      assert elems[i..][1..] == elems[i + 1..];
      at' := MinifiedArrayTurn(elems[i], elems[i..], i == 0, depth, all, data, at');
    }
    assert ShowElems(elems[|elems|..], |elems| == 0, depth, MINIFIED) == "";
  }

  /** One turn of it. */
  method MinifiedArrayTurn(item: Value, ghost elems: seq<Value>, first: bool, ghost depth: nat,
                           ghost all: string, data: array<char>, at: nat)
    returns (at': nat)
    requires elems != [] && elems[0] == item && NumbersWritable(item)
    requires Left(data, at, ShowElems(elems, first, depth, MINIFIED), all)
    modifies data
    ensures Left(data, at', ShowElems(elems[1..], false, depth, MINIFIED), all)
    decreases item, 2
  {
    ghost var rest := ShowElems(elems[1..], false, depth, MINIFIED);
    Cut(data[..at], Separator(first, depth, MINIFIED), Show(item, depth + 1, MINIFIED), rest);
    at' := MinifiedSeparator(first, depth, data, at);
    at' := MinifiedValue(item, depth + 1, data, at');
  }

  /** json_write_minified_object, json.h:3022-3055. */
  method MinifiedObject(members: seq<Member>, ghost depth: nat, data: array<char>, at: nat) returns (at': nat)
    requires NumbersWritable(Obj(members))
    requires at + |Show(Obj(members), depth, MINIFIED)| <= data.Length
    modifies data
    ensures at' == at + |Show(Obj(members), depth, MINIFIED)|
    ensures data[..at'] == old(data[..at]) + Show(Obj(members), depth, MINIFIED)
    decreases members, 4
  {
    ghost var st, items := MINIFIED, ShowMembers(members, true, depth, MINIFIED);
    at' := WriteChars(data, at, "{");
    at' := MinifiedObjectItems(members, depth, data, at');
    at' := WriteChars(data, at', "}");
    RepeatEmpty(depth);
    assert ShowBody(items, members == [], depth, st) == items;
    Brackets(old(data[..at]), "{", items, "}");
  }

  /** Its loop. */
  method MinifiedObjectItems(members: seq<Member>, ghost depth: nat, data: array<char>, at: nat) returns (at': nat)
    requires NumbersWritable(Obj(members))
    requires at + |ShowMembers(members, true, depth, MINIFIED)| <= data.Length
    modifies data
    ensures at' == at + |ShowMembers(members, true, depth, MINIFIED)|
    ensures data[..at'] == old(data[..at]) + ShowMembers(members, true, depth, MINIFIED)
    decreases members, 3
  {
    at' := at;
    ghost var all := data[..at] + ShowMembers(members, true, depth, MINIFIED);
    for i := 0 to |members|
      invariant Left(data, at', ShowMembers(members[i..], i == 0, depth, MINIFIED), all)
    {
      assert members[i..][1..] == members[i + 1..];
      at' := MinifiedObjectTurn(members[i], members[i..], i == 0, depth, all, data, at');
    }
    assert ShowMembers(members[|members|..], |members| == 0, depth, MINIFIED) == "";
  }

  /** One turn of it. */
  method MinifiedObjectTurn(item: Member, ghost members: seq<Member>, first: bool, ghost depth: nat,
                            ghost all: string, data: array<char>, at: nat)
    returns (at': nat)
    requires members != [] && members[0] == item && NumbersWritableIn(item)
    requires Left(data, at, ShowMembers(members, first, depth, MINIFIED), all)
    modifies data
    ensures Left(data, at', ShowMembers(members[1..], false, depth, MINIFIED), all)
    decreases item, 3
  {
    ghost var rest := ShowMembers(members[1..], false, depth, MINIFIED);
    Cut(data[..at], Separator(first, depth, MINIFIED), ShowMember(item, depth, MINIFIED), rest);
    at' := MinifiedSeparator(first, depth, data, at);
    at' := MinifiedMember(item, depth, data, at');
  }

  method MinifiedMember(m: Member, ghost depth: nat, data: array<char>, at: nat) returns (at': nat)
    requires NumbersWritableIn(m)
    requires at + |ShowMember(m, depth, MINIFIED)| <= data.Length
    modifies data
    ensures at' == at + |ShowMember(m, depth, MINIFIED)|
    ensures data[..at'] == old(data[..at]) + ShowMember(m, depth, MINIFIED)
    decreases m, 2
  {
    ghost var name, value := ShowString(m.name), Show(m.value, depth + 1, MINIFIED);
    MinifiedParts(m, depth);
    Cut(old(data[..at]), name, ":", value);
    at' := WriteString(data, at, m.name);
    at' := WriteChars(data, at', ":");
    at' := MinifiedValue(m.value, depth + 1, data, at');
  }

  lemma MinifiedParts(m: Member, depth: nat)
    ensures ShowMember(m, depth, MINIFIED) == ShowString(m.name) + ":" + Show(m.value, depth + 1, MINIFIED)
  {
    assert Colon(MINIFIED) == ":";
  }

  method MinifiedSeparator(first: bool, ghost depth: nat, data: array<char>, at: nat) returns (at': nat)
    requires at + |Separator(first, depth, MINIFIED)| <= data.Length
    modifies data
    ensures at' == at + |Separator(first, depth, MINIFIED)|
    ensures data[..at'] == old(data[..at]) + Separator(first, depth, MINIFIED)
  {
    RepeatEmpty(depth + 1);
    at' := at;
    if !first {
      at' := WriteChars(data, at', ",");
    }
  }

  method WriteSeparator(first: bool, depth: nat, indent: string, newline: string, data: array<char>, at: nat) returns (at': nat)
    requires at + |Separator(first, depth, Pretty(indent, newline))| <= data.Length
    modifies data
    ensures at' == at + |Separator(first, depth, Pretty(indent, newline))|
    ensures data[..at'] == old(data[..at]) + Separator(first, depth, Pretty(indent, newline))
  {
    at' := at;
    if !first {
      at' := WriteChars(data, at', ",");
      at' := WriteChars(data, at', newline);
    }
    at' := WriteIndent(data, at', indent, depth + 1);
  }

  /** json_write_pretty_value, json.h:3396-3436. */
  method PrettyValue(v: Value, depth: nat, indent: string, newline: string, data: array<char>, at: nat) returns (at': nat)
    requires NumbersWritable(v)
    requires at + |Show(v, depth, Pretty(indent, newline))| <= data.Length
    modifies data
    ensures at' == at + |Show(v, depth, Pretty(indent, newline))|
    ensures data[..at'] == old(data[..at]) + Show(v, depth, Pretty(indent, newline))
    decreases v, 1
  {
    match v {
      case Null => at' := WriteChars(data, at, "null");
      case True => at' := WriteChars(data, at, "true");
      case False => at' := WriteChars(data, at, "false");
      case Number(text) => at' := WriteNumber(data, at, text);
      case Str(s) => at' := WriteString(data, at, s);
      case Arr(elems) => at' := PrettyArray(elems, depth, indent, newline, data, at);
      case Obj(members) => at' := PrettyObject(members, depth, indent, newline, data, at);
    }
  }

  /** json_write_pretty_array, json.h:3270-3325. */
  method PrettyArray(elems: seq<Value>, depth: nat, indent: string, newline: string, data: array<char>, at: nat) returns (at': nat)
    requires NumbersWritable(Arr(elems))
    requires at + |Show(Arr(elems), depth, Pretty(indent, newline))| <= data.Length
    modifies data
    ensures at' == at + |Show(Arr(elems), depth, Pretty(indent, newline))|
    ensures data[..at'] == old(data[..at]) + Show(Arr(elems), depth, Pretty(indent, newline))
    decreases elems, 4
  {
    ghost var st, items := Pretty(indent, newline), ShowElems(elems, true, depth, Pretty(indent, newline));
    at' := WriteChars(data, at, "[");
    if 0 < |elems| {
      at' := WriteChars(data, at', newline);
      at' := PrettyArrayItems(elems, depth, indent, newline, data, at');
      at' := WriteChars(data, at', newline);
      at' := WriteIndent(data, at', indent, depth);
      Body(old(data[..at]) + "[", newline, items, Repeat(indent, depth));
    }
    at' := WriteChars(data, at', "]");
    Brackets(old(data[..at]), "[", ShowBody(items, elems == [], depth, st), "]");
  }

  /** Its loop. */
  method PrettyArrayItems(elems: seq<Value>, depth: nat, indent: string, newline: string, data: array<char>, at: nat) returns (at': nat)
    requires NumbersWritable(Arr(elems))
    requires at + |ShowElems(elems, true, depth, Pretty(indent, newline))| <= data.Length
    modifies data
    ensures at' == at + |ShowElems(elems, true, depth, Pretty(indent, newline))|
    ensures data[..at'] == old(data[..at]) + ShowElems(elems, true, depth, Pretty(indent, newline))
    decreases elems, 3
  {
    at' := at;
    ghost var all := data[..at] + ShowElems(elems, true, depth, Pretty(indent, newline));
    for i := 0 to |elems|
      invariant Left(data, at', ShowElems(elems[i..], i == 0, depth, Pretty(indent, newline)), all)
    {
      assert elems[i..][1..] == elems[i + 1..];
      at' := PrettyArrayTurn(elems[i], elems[i..], i == 0, depth, indent, newline, all, data, at');
    }
    assert ShowElems(elems[|elems|..], |elems| == 0, depth, Pretty(indent, newline)) == "";
  }

  /** One turn of it. */
  method PrettyArrayTurn(item: Value, ghost elems: seq<Value>, first: bool, depth: nat, indent: string, newline: string,
                         ghost all: string, data: array<char>, at: nat)
    returns (at': nat)
    requires elems != [] && elems[0] == item && NumbersWritable(item)
    requires Left(data, at, ShowElems(elems, first, depth, Pretty(indent, newline)), all)
    modifies data
    ensures Left(data, at', ShowElems(elems[1..], false, depth, Pretty(indent, newline)), all)
    decreases item, 2
  {
    ghost var rest := ShowElems(elems[1..], false, depth, Pretty(indent, newline));
    Cut(data[..at], Separator(first, depth, Pretty(indent, newline)), Show(item, depth + 1, Pretty(indent, newline)), rest);
    at' := WriteSeparator(first, depth, indent, newline, data, at);
    at' := PrettyValue(item, depth + 1, indent, newline, data, at');
  }

  /** json_write_pretty_object, json.h:3327-3394. */
  method PrettyObject(members: seq<Member>, depth: nat, indent: string, newline: string, data: array<char>, at: nat) returns (at': nat)
    requires NumbersWritable(Obj(members))
    requires at + |Show(Obj(members), depth, Pretty(indent, newline))| <= data.Length
    modifies data
    ensures at' == at + |Show(Obj(members), depth, Pretty(indent, newline))|
    ensures data[..at'] == old(data[..at]) + Show(Obj(members), depth, Pretty(indent, newline))
    decreases members, 4
  {
    ghost var st, items := Pretty(indent, newline), ShowMembers(members, true, depth, Pretty(indent, newline));
    at' := WriteChars(data, at, "{");
    if 0 < |members| {
      at' := WriteChars(data, at', newline);
      at' := PrettyObjectItems(members, depth, indent, newline, data, at');
      at' := WriteChars(data, at', newline);
      at' := WriteIndent(data, at', indent, depth);
      Body(old(data[..at]) + "{", newline, items, Repeat(indent, depth));
    }
    at' := WriteChars(data, at', "}");
    Brackets(old(data[..at]), "{", ShowBody(items, members == [], depth, st), "}");
  }

  /** Its loop. */
  method PrettyObjectItems(members: seq<Member>, depth: nat, indent: string, newline: string, data: array<char>, at: nat) returns (at': nat)
    requires NumbersWritable(Obj(members))
    requires at + |ShowMembers(members, true, depth, Pretty(indent, newline))| <= data.Length
    modifies data
    ensures at' == at + |ShowMembers(members, true, depth, Pretty(indent, newline))|
    ensures data[..at'] == old(data[..at]) + ShowMembers(members, true, depth, Pretty(indent, newline))
    decreases members, 3
  {
    at' := at;
    ghost var all := data[..at] + ShowMembers(members, true, depth, Pretty(indent, newline));
    for i := 0 to |members|
      invariant Left(data, at', ShowMembers(members[i..], i == 0, depth, Pretty(indent, newline)), all)
    {
      assert members[i..][1..] == members[i + 1..];
      at' := PrettyObjectTurn(members[i], members[i..], i == 0, depth, indent, newline, all, data, at');
    }
    assert ShowMembers(members[|members|..], |members| == 0, depth, Pretty(indent, newline)) == "";
  }

  /** One turn of it. */
  method PrettyObjectTurn(item: Member, ghost members: seq<Member>, first: bool, depth: nat, indent: string, newline: string,
                          ghost all: string, data: array<char>, at: nat)
    returns (at': nat)
    requires members != [] && members[0] == item && NumbersWritableIn(item)
    requires Left(data, at, ShowMembers(members, first, depth, Pretty(indent, newline)), all)
    modifies data
    ensures Left(data, at', ShowMembers(members[1..], false, depth, Pretty(indent, newline)), all)
    decreases item, 3
  {
    ghost var rest := ShowMembers(members[1..], false, depth, Pretty(indent, newline));
    Cut(data[..at], Separator(first, depth, Pretty(indent, newline)), ShowMember(item, depth, Pretty(indent, newline)), rest);
    at' := WriteSeparator(first, depth, indent, newline, data, at);
    at' := PrettyMember(item, depth, indent, newline, data, at');
  }

  method PrettyMember(m: Member, depth: nat, indent: string, newline: string, data: array<char>, at: nat) returns (at': nat)
    requires NumbersWritableIn(m)
    requires at + |ShowMember(m, depth, Pretty(indent, newline))| <= data.Length
    modifies data
    ensures at' == at + |ShowMember(m, depth, Pretty(indent, newline))|
    ensures data[..at'] == old(data[..at]) + ShowMember(m, depth, Pretty(indent, newline))
    decreases m, 2
  {
    ghost var name, value := ShowString(m.name), Show(m.value, depth + 1, Pretty(indent, newline));
    PrettyParts(m, depth, indent, newline);
    Cut(old(data[..at]), name, " : ", value);
    at' := WriteString(data, at, m.name);
    at' := WriteChars(data, at', " : ");
    at' := PrettyValue(m.value, depth + 1, indent, newline, data, at');
  }

  lemma PrettyParts(m: Member, depth: nat, indent: string, newline: string)
    ensures var st := Pretty(indent, newline);
            ShowMember(m, depth, st) == ShowString(m.name) + " : " + Show(m.value, depth + 1, st)
  {
    assert Colon(Pretty(indent, newline)) == " : ";
  }

  // ------------------------------------------------------------------ the two entry points

  /** json_write_minified: the text and a NUL, in an allocation that holds exactly that. */
  method WriteMinified(v: Value) returns (data: array<char>, size: nat)
    requires NumbersWritable(v)
    ensures fresh(data) && size == data.Length
    ensures data[..] == Show(v, 0, MINIFIED) + "\0"
  {
    size := MinifiedSize(v, 0);
    size := size + 1;
    data := new char[size];
    var end := MinifiedValue(v, 0, data, 0);
    data[end] := '\0';
    assert data[..] == data[..end] + "\0";
  }

  /** json_write_pretty. */
  method WritePretty(v: Value, indent: string, newline: string) returns (data: array<char>, size: nat)
    requires NumbersWritable(v)
    ensures fresh(data) && size == data.Length
    ensures data[..] == Show(v, 0, Pretty(indent, newline)) + "\0"
  {
    size := PrettySize(v, 0, |indent|, |newline|, Pretty(indent, newline));
    size := size + 1;
    data := new char[size];
    var end := PrettyValue(v, 0, indent, newline, data, 0);
    data[end] := '\0';
    assert data[..] == data[..end] + "\0";
  }

  /** The text written for a value, handed back to json_parse without its NUL. */
  method WriteThenParse(v: Value) returns (state: ParseState, accepted: bool, root: Dom)
    requires NumbersOk(v)
    ensures fresh(state)
    ensures accepted && Resolve(root, state.data[..]) == v <==> NulFree(v) && Nested(v, MAX_RECURSION)
  {
    OkIsWritable(v);
    var data, size := WriteMinified(v);
    state := new ParseState(data[..size - 1]);
    accepted, root := state.Parse();
    assert data[..size - 1] == Show(v, 0, MINIFIED);
    RoundTrip(v, MINIFIED);
  }
}
