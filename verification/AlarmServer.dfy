/**
  What the alarm server makes of a TCP stream (alarm_server.cpp): each frame is parsed, its
  members fill an event, the camera address is byte-swapped, and alarms go to the callback.

  `AlarmClient` is one client thread with its buffer; `Handle` is what a list of frames
  amounts to.  The callback is modelled by the list of events it was given.
*/
module AlarmServer {
  import opened AddressText
  import opened AlarmFraming
  import opened JsonSyntax
  import opened JsonScan
  import opened JsonDom
  import opened JsonParser
  import JsonText
  import opened Numerals
  import opened Wrappers

  datatype Event = Event(
    address: string,
    channel: int,
    description: string,
    eventType: string,
    serialId: string,
    startTime: string,
    status: string,
    kind: string,
    addressIp: string)

  const BLANK: Event := Event("", 0, "", "", "", "", "", "", "")

  /** An event under construction; std::stoi throws on a channel that is no int. */
  datatype Draft = Filled(e: Event) | Threw

  // ------------------------------------------------------------------ one object

  function AssignText(e: Event, key: string, s: string): Event {
    if key == "Type" then e.(kind := s)
    else if key == "Address" then e.(address := s)
    else if key == "Descrip" then e.(description := s)
    else if key == "Event" then e.(eventType := s)
    else if key == "SerialID" then e.(serialId := s)
    else if key == "StartTime" then e.(startTime := s)
    else if key == "Status" then e.(status := s)
    else e
  }

  function AssignNumber(e: Event, key: string, n: string): Draft {
    if key == "Channel" then
      match Stoi(n)
      case Some(v) => Filled(e.(channel := v))
      case None => Threw
    else Filled(e)
  }

  function Assign(e: Event, m: Member): Draft {
    match m.value
    case Str(s) => Filled(AssignText(e, m.name, s))
    case Number(n) => AssignNumber(e, m.name, n)
    case _ => Filled(e)
  }

  function Fill(e: Event, ms: seq<Member>): Draft
    decreases |ms|
  {
    if ms == [] then Filled(e)
    else
      match Assign(e, ms[0])
      case Threw => Threw
      case Filled(e1) => Fill(e1, ms[1..])
  }

  /** The address as sent is little-endian; one that cannot be read is left as it is. */
  function Convert(e: Event): Event {
    if |e.address| < 10 then e
    else
      match Stoul16(e.address[2..])
      case None => e
      case Some(v) => e.(address := HexAddress(Swap(v % WORD)), addressIp := Dotted(Swap(v % WORD)))
  }

  datatype Outcome = Outcome(events: seq<Event>, threw: bool)

  function Deliver(v: Value): Outcome {
    match v
    case Obj(ms) => (
      match Fill(BLANK, ms)
      case Threw => Outcome([], true)
      case Filled(e) => Outcome(if e.kind == "Alarm" then [Convert(e)] else [], false))
    case _ => Outcome([], false)
  }

  /** One frame; a text the parser refuses is skipped. */
  function HandleText(text: string): Outcome {
    if ScanDoc(text).Accepted? then Deliver(DecodeTree(ScanDoc(text).doc.v)) else Outcome([], false)
  }

  /** A list of frames, up to the first exception, which ends the program. */
  function Handle(frames: seq<string>): Outcome
    decreases |frames|
  {
    if frames == [] then Outcome([], false)
    else
      var o := HandleText(frames[0]);
      if o.threw then o
      else
        var more := Handle(frames[1..]);
        Outcome(o.events + more.events, more.threw)
  }

  // ------------------------------------------------------------------ what an event holds

  /** The last text given for a key, or the initial one. */
  function LastText(ms: seq<Member>, key: string, initial: string): string
    decreases |ms|
  {
    if ms == [] then initial
    else
      var m := ms[|ms| - 1];
      if m.name == key && m.value.Str? then m.value.s else LastText(ms[..|ms| - 1], key, initial)
  }

  ghost predicate IsChannel(m: Member) {
    m.name == "Channel" && m.value.Number?
  }

  ghost function LastChannel(ms: seq<Member>, initial: int): int
    decreases |ms|
  {
    if ms == [] then initial
    else
      var m := ms[|ms| - 1];
      if IsChannel(m) then
        match Stoi(m.value.text)
        case Some(v) => v
        case None => 0
      else LastChannel(ms[..|ms| - 1], initial)
  }

  ghost predicate ChannelsFit(ms: seq<Member>) {
    forall m | m in ms :: IsChannel(m) ==> Stoi(m.value.text).Some?
  }

  lemma {:induction false} FillSnoc(e: Event, ms: seq<Member>, m: Member)
    ensures Fill(e, ms + [m]) ==
            match Fill(e, ms)
            case Threw => Threw
            case Filled(e1) => Assign(e1, m)
    decreases |ms|
  {
    if ms == [] {
      assert (ms + [m])[1..] == [];
    } else {
      assert (ms + [m])[1..] == ms[1..] + [m];
      if Assign(e, ms[0]).Filled? {
        FillSnoc(Assign(e, ms[0]).e, ms[1..], m);
      }
    }
  }

  /** The filled event of an object: for every key the last member of the right kind wins. */
  ghost function Summary(e: Event, ms: seq<Member>): Event {
    Event(LastText(ms, "Address", e.address), LastChannel(ms, e.channel), LastText(ms, "Descrip", e.description),
          LastText(ms, "Event", e.eventType), LastText(ms, "SerialID", e.serialId),
          LastText(ms, "StartTime", e.startTime), LastText(ms, "Status", e.status),
          LastText(ms, "Type", e.kind), e.addressIp)
  }

  /** An exception escapes exactly when some numeric channel is no int; otherwise the last members win. */
  lemma {:induction false} FillTakesTheLast(e: Event, ms: seq<Member>)
    ensures Fill(e, ms) == if ChannelsFit(ms) then Filled(Summary(e, ms)) else Threw
    decreases |ms|
  {
    if ms != [] {
      var init, m := ms[..|ms| - 1], ms[|ms| - 1];
      assert ms == init + [m];
      FillTakesTheLast(e, init);
      FillSnoc(e, init, m);
      assert ChannelsFit(ms) <==> ChannelsFit(init) && (IsChannel(m) ==> Stoi(m.value.text).Some?);
    }
  }

  /** Position `i` holds the last text for the key. */
  ghost predicate LastAt(ms: seq<Member>, key: string, i: nat) {
    && i < |ms| && ms[i].name == key && ms[i].value.Str?
    && forall j | i < j < |ms| :: !(ms[j].name == key && ms[j].value.Str?)
  }

  lemma {:induction false} LastTextAt(ms: seq<Member>, key: string, initial: string, i: nat)
    requires LastAt(ms, key, i)
    ensures LastText(ms, key, initial) == ms[i].value.s
    decreases |ms|
  {
    var n := |ms| - 1;
    if i < n {
      assert ms[..n][i] == ms[i];
      LastTextAt(ms[..n], key, initial, i);
    }
  }

  /** No member gives a text for the key. */
  ghost predicate Unset(ms: seq<Member>, key: string) {
    forall j | 0 <= j < |ms| :: !(ms[j].name == key && ms[j].value.Str?)
  }

  lemma {:induction false} UnsetText(ms: seq<Member>, key: string, initial: string)
    requires Unset(ms, key)
    ensures LastText(ms, key, initial) == initial
    decreases |ms|
  {
    if ms != [] { UnsetText(ms[..|ms| - 1], key, initial); }
  }

  /** Position `i` holds the last numeric channel. */
  ghost predicate ChannelAt(ms: seq<Member>, i: nat) {
    i < |ms| && IsChannel(ms[i]) && forall j | i < j < |ms| :: !IsChannel(ms[j])
  }

  lemma {:induction false} LastChannelAt(ms: seq<Member>, initial: int, i: nat)
    requires ChannelAt(ms, i) && Stoi(ms[i].value.text).Some?
    ensures LastChannel(ms, initial) == Stoi(ms[i].value.text).value
    decreases |ms|
  {
    var n := |ms| - 1;
    if i < n {
      assert ms[..n][i] == ms[i];
      LastChannelAt(ms[..n], initial, i);
    }
  }

  lemma {:induction false} UnsetChannel(ms: seq<Member>, initial: int)
    requires forall j | 0 <= j < |ms| :: !IsChannel(ms[j])
    ensures LastChannel(ms, initial) == initial
    decreases |ms|
  {
    if ms != [] { UnsetChannel(ms[..|ms| - 1], initial); }
  }

  // ------------------------------------------------------------------ the client thread

  /** std::string::find of an opening brace; the length stands for npos. */
  method FindBrace(buf: string) returns (start: nat)
    ensures start <= |buf| && FromBrace(buf) == buf[start..]
  {
    start := 0;
    while start < |buf| && buf[start] != '{'
      invariant start <= |buf| && FromBrace(buf) == FromBrace(buf[start..])
    {
      assert buf[start..][1..] == buf[start + 1..];
      start := start + 1;
    }
  }

  class AlarmClient {
    var buffer: string
    var events: seq<Event>

    constructor ()
      ensures buffer == "" && events == []
    {
      buffer, events := "", [];
    }

    /** The loop over the members of a parsed object, which reads names and values from the data area. */
    method FillEvent(p: ParseState, members: seq<DMember>) returns (d: Draft)
      requires InBounds(DObj(members), p.data.Length)
      ensures d == Fill(BLANK, ResolveMembers(members, p.data[..]))
    {
      ghost var data := p.data[..];
      var e := BLANK;
      for i := 0 to |members|
        invariant Fill(e, ResolveMembers(members[i..], data)) == Fill(BLANK, ResolveMembers(members, data))
      {
        var m := members[i];
        assert members[i..] == [m] + members[i + 1..];
        ResolveMembersCons(m, members[i + 1..], data);
        assert MemberInBounds(m, p.data.Length);
        var step := AssignMember(p, m, e);
        assert ResolveMembers(members[i..], data)[1..] == ResolveMembers(members[i + 1..], data);
        if step.Threw? {
          return Threw;
        }
        e := step.e;
      }
      assert members[|members|..] == [];
      d := Filled(e);
    }

    method AssignMember(p: ParseState, m: DMember, e: Event) returns (d: Draft)
      requires MemberInBounds(m, p.data.Length)
      ensures d == Assign(e, ResolveMember(m, p.data[..]))
    {
      ghost var data := p.data[..];
      var key := p.data[m.nameAt..m.nameAt + m.nameSize];
      assert key == Slice(data, m.nameAt, m.nameSize);
      match m.value {
        case DStr(at, size) =>
          var s := p.data[at..at + size];
          assert s == Slice(data, at, size);
          d := Filled(AssignText(e, key, s));
        case DNumber(at, size) =>
          var n := p.data[at..at + size];
          assert n == Slice(data, at, size);
          d := AssignNumber(e, key, n);
        case _ =>
          d := Filled(e);
      }
    }

    /** The part of processBuffer that parses one frame and hands an alarm to the callback. */
    method HandleFrame(text: string) returns (threw: bool)
      modifies `events
      ensures threw == HandleText(text).threw
      ensures events == old(events) + HandleText(text).events
    {
      var p := new ParseState(text);
      var accepted, root := p.Parse();
      threw := false;
      if accepted && root.DObj? {
        var d := FillEvent(p, root.members);
        if d.Threw? {
          return true;
        }
        if d.e.kind == "Alarm" {
          events := events + [Convert(d.e)];
        }
      }
    }

    /** What has been delivered and what `more` still holds make up `all`, on top of `before`. */
    ghost predicate Owes(before: seq<Event>, all: Split, more: Split)
      reads `events
    {
      && Handle(all.frames).threw == Handle(more.frames).threw
      && before + Handle(all.frames).events == events + Handle(more.frames).events
      && all.left == more.left
    }

    /** processBuffer: takes every complete object off the buffer. */
    method ProcessBuffer() returns (threw: bool)
      modifies this
      ensures var s := Frames(old(buffer));
              && threw == Handle(s.frames).threw
              && events == old(events) + Handle(s.frames).events
              && (!threw ==> buffer == s.left)
    {
      ghost var before, all := events, Frames(buffer);
      while buffer != ""
        invariant Owes(before, all, Frames(buffer))
        decreases |buffer|
      {
        var start := FindBrace(buffer);
        if start == |buffer| {
          if |buffer| > MAX_BUF {
            buffer := "";
          }
          return false;
        }
        var done;
        done, threw := NextObject(start, before, all);
        if done {
          return;
        }
      }
      threw := false;
    }

    /** One turn of that loop, once a brace has been found; `done` is its return. */
    method NextObject(start: nat, ghost before: seq<Event>, ghost all: Split) returns (done: bool, threw: bool)
      requires start < |buffer| && FromBrace(buffer) == buffer[start..]
      requires Owes(before, all, Frames(buffer))
      modifies this
      ensures !done ==> !threw && |buffer| < |old(buffer)| && Owes(before, all, Frames(buffer))
      ensures done ==> threw == Handle(all.frames).threw && events == before + Handle(all.frames).events
      ensures done && !threw ==> buffer == all.left
    {
      ghost var was := buffer;
      buffer := buffer[start..];
      var end := FindJsonEnd(buffer);
      if end == 0 {
        return true, false;
      }
      var text := buffer[..end];
      buffer := buffer[end..];
      NextFrame(was, text, buffer);
      HandleCons(text, Frames(buffer).frames);
      threw := HandleFrame(text);
      done := threw;
      EventsRegroup(old(events), HandleText(text).events, Handle(Frames(buffer).frames).events);
    }

    /** The thread's loop: each received chunk is appended and processed. */
    method RunClient(chunks: seq<string>) returns (threw: bool)
      modifies this
      ensures var s := Feed(old(buffer), chunks);
              && threw == Handle(s.frames).threw
              && events == old(events) + Handle(s.frames).events
              && (!threw ==> buffer == s.left)
    {
      ghost var before, all := events, Feed(buffer, chunks);
      for i := 0 to |chunks|
        invariant Owes(before, all, Feed(buffer, chunks[i..]))
      {
        threw := ServeChunk(chunks[i], chunks[i..], before, all);
        if threw {
          return;
        }
        assert chunks[i..][1..] == chunks[i + 1..];
      }
      assert chunks[|chunks|..] == [];
      threw := false;
    }

    /** One turn of its loop. */
    method ServeChunk(chunk: string, ghost chunks: seq<string>, ghost before: seq<Event>, ghost all: Split)
      returns (threw: bool)
      requires chunks != [] && chunks[0] == chunk && Owes(before, all, Feed(buffer, chunks))
      modifies this
      ensures threw ==> Handle(all.frames).threw && events == before + Handle(all.frames).events
      ensures !threw ==> Owes(before, all, Feed(buffer, chunks[1..]))
    {
      ghost var was, s := events, Frames(buffer + chunk);
      ghost var more := Feed(s.left, chunks[1..]);
      assert Feed(buffer, chunks) == Split(s.frames + more.frames, more.left);
      HandleConcat(s.frames, more.frames);
      buffer := buffer + chunk;
      threw := ProcessBuffer();
      EventsRegroup(was, Handle(s.frames).events, Handle(more.frames).events);
    }
  }

  lemma EventsRegroup(a: seq<Event>, b: seq<Event>, c: seq<Event>)
    ensures a + (b + c) == (a + b) + c
  {}

  lemma HandleCons(text: string, frames: seq<string>)
    ensures Handle([text] + frames).threw == (HandleText(text).threw || Handle(frames).threw)
    ensures Handle([text] + frames).events
            == HandleText(text).events + if HandleText(text).threw then [] else Handle(frames).events
  {
    assert ([text] + frames)[1..] == frames;
  }

  /** Cutting one frame off the buffer. */
  lemma NextFrame(buf: string, text: string, rest: string)
    requires text != "" && FromBrace(buf) == text + rest && FindEnd(text + rest) == Ends(rest)
    ensures Frames(buf).frames == [text] + Frames(rest).frames
    ensures Frames(buf).left == Frames(rest).left
  {
    assert (text + rest)[..|text|] == text;
  }

  lemma {:induction false} HandleConcat(a: seq<string>, b: seq<string>)
    ensures Handle(a + b).threw == (Handle(a).threw || Handle(b).threw)
    ensures Handle(a + b).events == Handle(a).events + if Handle(a).threw then [] else Handle(b).events
    decreases |a|
  {
    if a == [] {
      assert a + b == b;
    } else {
      var rest := a[1..];
      assert a + b == [a[0]] + (rest + b);
      assert a == [a[0]] + rest;
      HandleConcat(rest, b);
      HandleCons(a[0], rest + b);
      HandleCons(a[0], rest);
      if !HandleText(a[0]).threw && !Handle(rest).threw {
        EventsRegroup(HandleText(a[0]).events, Handle(rest).events, Handle(b).events);
      }
    }
  }

  // ------------------------------------------------------------------ end to end

  /** The alarms among the texts, in order. */
  function Alarms(texts: seq<string>): seq<Event>
    decreases |texts|
  {
    if texts == [] then [] else HandleText(texts[0]).events + Alarms(texts[1..])
  }

  ghost predicate Harmless(text: string) {
    !HandleText(text).threw
  }

  /**
    However a stream of accepted objects, separated by bytes without an opening brace, is cut into
    chunks, the callback gets the alarms among the objects: each once and in order.
  */
  lemma StreamIsDelivered(gaps: seq<string>, texts: seq<string>, tail: string, chunks: seq<string>)
    requires |gaps| == |texts| && BraceFree(tail) && chunks != []
    requires forall i | 0 <= i < |gaps| :: BraceFree(gaps[i])
    requires forall i | 0 <= i < |texts| :: TightObject(texts[i])
    requires Concat(chunks) == Stream(gaps, texts, tail)
    ensures Handle(Feed("", chunks).frames) == Handle(texts)
    ensures Handle(texts).threw <==> exists i | 0 <= i < |texts| :: !Harmless(texts[i])
    ensures !Handle(texts).threw ==> Handle(Feed("", chunks).frames).events == Alarms(texts)
  {
    FeedIsWhole("", chunks);
    assert "" + Concat(chunks) == Concat(chunks);
    StreamIsFramed(gaps, texts, tail);
    HandleIsAlarms(texts);
  }

  lemma {:induction false} HandleIsAlarms(texts: seq<string>)
    ensures Handle(texts).threw <==> exists i | 0 <= i < |texts| :: !Harmless(texts[i])
    ensures !Handle(texts).threw ==> Handle(texts).events == Alarms(texts)
    decreases |texts|
  {
    if texts != [] {
      HandleIsAlarms(texts[1..]);
      assert forall i | 0 < i < |texts| :: texts[i] == texts[1..][i - 1];
      assert Harmless(texts[0]) <==> !HandleText(texts[0]).threw;
    }
  }

  /** What one accepted object contributes: an alarm exactly when its last textual "Type" says so. */
  lemma ObjectIsDelivered(text: string)
    requires ObjectText(text)
    ensures var v := DecodeTree(ScanDoc(text).doc.v);
            && v.Obj?
            && (Harmless(text) <==> ChannelsFit(v.members))
            && (Harmless(text) ==>
                  HandleText(text).events
                  == if LastText(v.members, "Type", "") == "Alarm" then [Convert(Summary(BLANK, v.members))] else [])
  {
    ObjectIsFramed(text);
    FillTakesTheLast(BLANK, DecodeTree(ScanDoc(text).doc.v).members);
  }

  /** The members an accepted object text denotes. */
  ghost function MembersOf(text: string): seq<Member>
    requires ObjectText(text)
  {
    ObjectIsDelivered(text);
    DecodeTree(ScanDoc(text).doc.v).members
  }

  /** An accepted object whose last textual "Type" is Alarm. */
  ghost predicate AlarmText(text: string) {
    ObjectText(text) && Harmless(text) && LastText(MembersOf(text), "Type", "") == "Alarm"
  }

  /**
    The event of an alarm, field by field: each holds the last text for its name and is empty
    without one, the channel is the last numeric one and zero without one, and an address of fewer
    than ten characters is passed on without a dotted form.
  */
  lemma AlarmFields(text: string)
    requires AlarmText(text)
    ensures var ms := MembersOf(text);
            && |HandleText(text).events| == 1
            && var e := HandleText(text).events[0];
            && e.kind == "Alarm" && e.channel == LastChannel(ms, 0)
            && e.description == LastText(ms, "Descrip", "") && e.eventType == LastText(ms, "Event", "")
            && e.serialId == LastText(ms, "SerialID", "") && e.startTime == LastText(ms, "StartTime", "")
            && e.status == LastText(ms, "Status", "")
            && (|LastText(ms, "Address", "")| < 10 ==> e.address == LastText(ms, "Address", "") && e.addressIp == "")
  {
    ObjectIsDelivered(text);
  }

  /** The text yields one event, on that channel. */
  ghost predicate ArrivesOn(text: string, channel: int) {
    |HandleText(text).events| == 1 && HandleText(text).events[0].channel == channel
  }

  /** A channel spelled as an int in front of anything that is no digit arrives as that int; beyond an int it throws. */
  lemma ChannelArrives(text: string, i: nat, n: int, k: string)
    requires ObjectText(text) && ChannelAt(MembersOf(text), i) && n >= 0 && NoDigitFirst(k)
    ensures var spelled := MembersOf(text)[i].value.text;
            && (spelled == Decimal(n) + k ==> Arrives(text, n, n <= 2147483647))
            && (spelled == "-" + (Decimal(n) + k) ==> Arrives(text, -n, n <= 2147483648))
  {
    var spelled := MembersOf(text)[i].value.text;
    StoiReads(n, k);
    if spelled == Decimal(n) + k {
      ChannelRead(text, i, n, n <= 2147483647);
    }
    if spelled == "-" + (Decimal(n) + k) {
      ChannelRead(text, i, -n, n <= 2147483648);
    }
  }

  /** The text throws, or yields one event on that channel if it is an alarm at all. */
  ghost predicate Arrives(text: string, channel: int, fits: bool)
    requires ObjectText(text)
  {
    if fits then AlarmText(text) ==> ArrivesOn(text, channel) else HandleText(text).threw
  }

  lemma ChannelRead(text: string, i: nat, channel: int, fits: bool)
    requires ObjectText(text) && ChannelAt(MembersOf(text), i)
    requires Stoi(MembersOf(text)[i].value.text) == if fits then Some(channel) else None
    ensures Arrives(text, channel, fits)
  {
    var ms := MembersOf(text);
    ObjectIsDelivered(text);
    assert IsChannel(ms[i]) && ms[i] in ms;
    if fits && AlarmText(text) {
      LastChannelAt(ms, 0, i);
      AlarmFields(text);
    }
  }

  /** A text that the parser refuses changes nothing. */
  lemma RefusedIsSkipped(text: string)
    ensures !ScanDoc(text).Accepted? ==> HandleText(text) == Outcome([], false)
  {}

  /** An object printed by either writer is framed whole and delivered as the object it was. */
  lemma WrittenIsDelivered(v: Value, st: JsonText.Style)
    requires v.Obj? && JsonText.NumbersOk(v) && JsonText.Blank(st)
    requires JsonText.NulFree(v) && JsonText.Nested(v, MAX_RECURSION)
    ensures TightObject(JsonText.Show(v, 0, st))
    ensures HandleText(JsonText.Show(v, 0, st)) == Deliver(v)
  {
    JsonText.RoundTrip(v, st);
  }

  /**
    An address of two characters and hexadecimal digits in either case, whatever follows them: the
    last eight digits are replaced by their pairs in reverse order, and the dotted form shows the
    same four bytes.  A short address, and one that a long cannot hold, stay as they are.
  */
  lemma ConvertSwaps(e: Event, prefix: string, h: string, k: string)
    requires |prefix| == 2 && e.address == prefix + (h + k)
    requires h != "" && AllHex(h) && EndsHex(h, k)
    ensures AllHex(LastEight(h))
    ensures Convert(e) ==
            if |e.address| < 10 || HexFold(0, h) >= LONG_WORD then e
            else
              var t := LastEight(h);
              var a, b, c, d := ByteAt(t, 0), ByteAt(t, 2), ByteAt(t, 4), ByteAt(t, 6);
              e.(address := "0x" + TwoDigits(d) + TwoDigits(c) + TwoDigits(b) + TwoDigits(a),
                 addressIp := Decimal(d) + "." + Decimal(c) + "." + Decimal(b) + "." + Decimal(a))
  {
    assert e.address[2..] == h + k;
    WordIsLastEight(h);
    StoulReads(h, k);
    SwapReverses(LastEight(h));
  }

  /** The same for eight digits, each in either case, written out. */
  lemma ConvertSpelled(e: Event, prefix: string, a: nat, b: nat, c: nat, d: nat, h: string, k: string)
    requires |prefix| == 2 && e.address == prefix + (h + k) && (k != "" ==> !IsHex(k[0]))
    requires a < 0x100 && b < 0x100 && c < 0x100 && d < 0x100
    requires Spells(h, [a / 16, a % 16, b / 16, b % 16, c / 16, c % 16, d / 16, d % 16])
    ensures Convert(e) ==
            e.(address := ['0', 'x', UPPER[d / 16], UPPER[d % 16], UPPER[c / 16], UPPER[c % 16],
                           UPPER[b / 16], UPPER[b % 16], UPPER[a / 16], UPPER[a % 16]],
               addressIp := Decimal(d) + "." + Decimal(c) + "." + Decimal(b) + "." + Decimal(a))
  {
    var ds := [a / 16, a % 16, b / 16, b % 16, c / 16, c % 16, d / 16, d % 16];
    SpelledIsRead(h, ds);
    EightFit(h);
    assert LastEight(h) == h;
    SpelledBytes(h, a, b, c, d);
    ConvertSwaps(e, prefix, h, k);
    FourBytesShown(a, b, c, d);
  }

  lemma FourBytesShown(a: nat, b: nat, c: nat, d: nat)
    requires a < 0x100 && b < 0x100 && c < 0x100 && d < 0x100
    ensures "0x" + TwoDigits(d) + TwoDigits(c) + TwoDigits(b) + TwoDigits(a)
            == ['0', 'x', UPPER[d / 16], UPPER[d % 16], UPPER[c / 16], UPPER[c % 16],
                UPPER[b / 16], UPPER[b % 16], UPPER[a / 16], UPPER[a % 16]]
  {
    TwoDigitsAre(a);
    TwoDigitsAre(b);
    TwoDigitsAre(c);
    TwoDigitsAre(d);
    TenCharacters(UPPER[d / 16], UPPER[d % 16], UPPER[c / 16], UPPER[c % 16],
                  UPPER[b / 16], UPPER[b % 16], UPPER[a / 16], UPPER[a % 16]);
  }

  lemma TenCharacters(p: char, q: char, r: char, s: char, t: char, u: char, v: char, w: char)
    ensures "0x" + [p, q] + [r, s] + [t, u] + [v, w] == ['0', 'x', p, q, r, s, t, u, v, w]
  {}

  lemma SpelledBytes(h: string, a: nat, b: nat, c: nat, d: nat)
    requires a < 0x100 && b < 0x100 && c < 0x100 && d < 0x100
    requires Spells(h, [a / 16, a % 16, b / 16, b % 16, c / 16, c % 16, d / 16, d % 16]) && AllHex(h)
    ensures ByteAt(h, 0) == a && ByteAt(h, 2) == b && ByteAt(h, 4) == c && ByteAt(h, 6) == d
  {
    ByteSpelled(h, 0, a);
    ByteSpelled(h, 2, b);
    ByteSpelled(h, 4, c);
    ByteSpelled(h, 6, d);
  }

  lemma EightFit(h: string)
    requires |h| == 8 && AllHex(h)
    ensures HexFold(0, h) < LONG_WORD
  {
    HexFoldFrom(0, h);
    assert Pow16(4) == 0x1_0000 && Pow16(8) == 0x1_0000_0000;
  }

  /** The case of an address does not matter. */
  lemma ConvertUppercase(e: Event)
    requires |e.address| >= 10
    ensures Stoul16(e.address[2..]).Some? ==> Convert(e.(address := Uppercase(e.address))) == Convert(e)
  {
    StoulUppercase(e.address[2..]);
    assert Uppercase(e.address)[2..] == Uppercase(e.address[2..]);
  }

  /** An address without a digit where one should be is passed on as it is. */
  lemma ConvertStays(e: Event)
    requires |e.address| >= 10 && var c := e.address[2]; !IsCSpace(c) && c != '+' && c != '-' && !IsHex(c)
    ensures Convert(e) == e
  {
    var r := e.address[2..];
    assert r[0] == e.address[2] && SkipCSpace(r) == r;
    assert LeadHex(r) == "";
  }

  lemma HexAddressLength(v: nat)
    ensures |HexAddress(v)| == 10
  {}

  lemma SmallModulo(v: nat, n: nat)
    requires v < n
    ensures v % n == v
  {}
}
