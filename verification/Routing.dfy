/**
  From an alarm to a camera: the address in the camera's URL (config.cpp), its dotted spelling
  (utils.hpp), the three indexes and the lookup (camera_manager.cpp).
*/
module Routing {
  import opened AddressText
  import opened AlarmFraming
  import opened AlarmServer
  import opened Bits
  import opened JsonDom
  import opened JsonScan
  import opened JsonSyntax
  import opened Numerals
  import opened Wrappers

  // ------------------------------------------------------------------ the host of a URL

  function Before(c: char, r: string): string {
    if r == "" || r[0] == c then "" else [r[0]] + Before(c, r[1..])
  }

  /** What follows the first "://". */
  function AfterScheme(r: string): Option<string> {
    if |r| < 3 then None
    else if r[0] == ':' && r[1] == '/' && r[2] == '/' then Some(r[3..])
    else AfterScheme(r[1..])
  }

  /** What follows the first '@', or everything. */
  function AfterUser(r: string): string {
    if '@' in r then Behind('@', r) else r
  }

  function Behind(c: char, r: string): string {
    if r == "" then "" else if r[0] == c then r[1..] else Behind(c, r[1..])
  }

  /** The host, as extract_ip_hex_from_rtsp cuts it out. */
  function Host(r: string): string {
    Before(':', if '/' in r then Before('/', r) else Before(':', r))
  }

  // ------------------------------------------------------------------ its address

  datatype Scanned = Int(value: int, rest: string) | NoInt

  /** One %d of sscanf. */
  function ScanInt(r: string): Scanned {
    var r0 := SkipCSpace(r);
    var minus := r0 != "" && r0[0] == '-';
    var r1 := AfterSign(r0);
    LeadDecimalIsDigits(r1);
    var d := LeadDecimal(r1);
    LeadIsShort(r1);
    if d == "" then NoInt
    else
      var n: int := DecFold(0, d);
      Int(if minus then -n else n, r1[|d|..])
  }

  lemma {:induction false} LeadIsShort(r: string)
    ensures |LeadDecimal(r)| <= |r|
  {
    if r != "" && IsDigit(r[0]) { LeadIsShort(r[1..]); }
  }

  /** "%d." */
  function ScanIntDot(r: string): Scanned {
    match ScanInt(r)
    case NoInt => NoInt
    case Int(v, rest) => if rest != "" && rest[0] == '.' then Int(v, rest[1..]) else NoInt
  }

  /** A 32-bit word, as arithmetic on int and the conversion to uint32_t leave it. */
  function Word(x: int): nat {
    x % 0x1_0000_0000
  }

  /** Four numbers shifted to the places of the bytes of a word, and or-ed. */
  function Pack(a: int, b: int, c: int, d: int): nat {
    BitOr(BitOr(BitOr(Word(a * 0x100_0000), Word(b * 0x1_0000)), Word(c * 0x100)), Word(d))
  }

  /** The word of the host's four numbers; zero if they are not there. */
  function HostWord(h: string): nat {
    match ScanIntDot(h)
    case NoInt => 0
    case Int(a, r1) => (
      match ScanIntDot(r1)
      case NoInt => 0
      case Int(b, r2) => (
        match ScanIntDot(r2)
        case NoInt => 0
        case Int(c, r3) => (
          match ScanInt(r3)
          case NoInt => 0
          case Int(d, _) => Pack(a, b, c, d))))
  }

  /** extract_ip_hex_from_rtsp. */
  function HexKey(url: string): string {
    match AfterScheme(url)
    case None => "0x00000000"
    case Some(r) => HexAddress(HostWord(Host(AfterUser(r))))
  }

  /** hexToIp. */
  function HexToIp(hex: string): string {
    if |hex| < 10 then "0.0.0.0"
    else
      match Stoul16(hex[2..])
      case None => "0.0.0.0"
      case Some(v) => Dotted(v % WORD)
  }

  // ------------------------------------------------------------------ reading a dotted quad back

  lemma ScanDecimal(n: nat, k: string)
    requires NoDigitFirst(k)
    ensures ScanInt(Decimal(n) + k) == Int(n, k)
  {
    var d := Decimal(n);
    DecimalIsDigits(n);
    LeadDecimalOf(d, k);
    assert (d + k)[0] == d[0] && IsDigit(d[0]);
    assert SkipCSpace(d + k) == d + k;
    assert (d + k)[|d|..] == k;
  }

  lemma ScanDecimalDot(n: nat, k: string)
    ensures ScanIntDot(Decimal(n) + ("." + k)) == Int(n, k)
  {
    ScanDecimal(n, "." + k);
    assert ("." + k)[1..] == k;
  }

  /** Four numbers and three dots in front of `k`. */
  function Line(a: nat, b: nat, c: nat, d: nat, k: string): string {
    Decimal(a) + ("." + (Decimal(b) + ("." + (Decimal(c) + ("." + (Decimal(d) + k))))))
  }

  lemma DottedThen(v: nat, k: string)
    ensures Dotted(v) + k == Line(v / 0x100_0000 % 0x100, v / 0x1_0000 % 0x100, v / 0x100 % 0x100, v % 0x100, k)
  {
    Regroup(Decimal(v / 0x100_0000 % 0x100), Decimal(v / 0x1_0000 % 0x100), Decimal(v / 0x100 % 0x100),
            Decimal(v % 0x100), k);
  }

  lemma Regroup(a: string, b: string, c: string, d: string, k: string)
    ensures (a + "." + b + "." + c + "." + d) + k == a + ("." + (b + ("." + (c + ("." + (d + k))))))
  {}

  /** The bytes do not overlap, so the bitwise or is their sum. */
  lemma PackBytes(a: nat, b: nat, c: nat, d: nat)
    requires a < 0x100 && b < 0x100 && c < 0x100 && d < 0x100
    ensures Pack(a, b, c, d) == Quad(a, b, c, d)
  {
    WordsFit(a, b, c, d);
    OrOfBytes(a, b, c, d);
  }

  lemma WordsFit(a: nat, b: nat, c: nat, d: nat)
    requires a < 0x100 && b < 0x100 && c < 0x100 && d < 0x100
    ensures Word(a * 0x100_0000) == a * 0x100_0000 && Word(b * 0x1_0000) == b * 0x1_0000
    ensures Word(c * 0x100) == c * 0x100 && Word(d) == d
  {}

  lemma HostWordOf(v: nat, k: string)
    requires v < WORD && NoDigitFirst(k)
    ensures HostWord(Dotted(v) + k) == v
  {
    var a, b, c, d := v / 0x100_0000 % 0x100, v / 0x1_0000 % 0x100, v / 0x100 % 0x100, v % 0x100;
    DottedThen(v, k);
    FourBytesOf(v);
    assert v / 0x100_0000 == a;
    LineIsQuad(Dotted(v) + k, a, b, c, d, k);
  }

  lemma LineIsQuad(text: string, a: nat, b: nat, c: nat, d: nat, k: string)
    requires NoDigitFirst(k) && text == Line(a, b, c, d, k)
    requires a < 0x100 && b < 0x100 && c < 0x100 && d < 0x100
    ensures HostWord(text) == Quad(a, b, c, d)
  {
    FourNumbers(a, b, c, d, k);
    PackBytes(a, b, c, d);
  }

  lemma FourNumbers(a: nat, b: nat, c: nat, d: nat, k: string)
    requires NoDigitFirst(k)
    ensures HostWord(Line(a, b, c, d, k)) == Pack(a, b, c, d)
  {
    var r3 := Decimal(d) + k;
    var r2 := Decimal(c) + ("." + r3);
    var r1 := Decimal(b) + ("." + r2);
    ScanDecimalDot(a, r1);
    ScanDecimalDot(b, r2);
    ScanDecimalDot(c, r3);
    ScanDecimal(d, k);
  }

  /** A number that is no byte runs over into the bytes before it; what leaves the word is lost. */
  lemma NumberRunsOver(n: nat, k: string)
    requires NoDigitFirst(k)
    ensures HostWord(Line(n, 0, 0, 0, k)) == n * 0x100_0000 % 0x1_0000_0000
    ensures HostWord(Line(0, n, 0, 0, k)) == n * 0x1_0000 % 0x1_0000_0000
    ensures HostWord(Line(0, 0, n, 0, k)) == n * 0x100 % 0x1_0000_0000
    ensures HostWord(Line(0, 0, 0, n, k)) == n % 0x1_0000_0000
  {
    FourNumbers(n, 0, 0, 0, k);
    FourNumbers(0, n, 0, 0, k);
    FourNumbers(0, 0, n, 0, k);
    FourNumbers(0, 0, 0, n, k);
    OrZero(Word(n * 0x100_0000));
    OrZero(Word(n * 0x1_0000));
    OrZero(Word(n * 0x100));
    OrZero(Word(n));
    OrZero(0);
  }

  // ------------------------------------------------------------------ the URL around it

  /** A URL whose host is the quad of `ip`, with or without a user, and no '@' behind the user. */
  ghost predicate UrlOf(url: string, ip: nat) {
    exists scheme: string, user: string, tail: string ::
      && url == scheme + ("://" + (user + (Dotted(ip) + tail)))
      && ':' !in scheme && '@' !in tail && NoDigitFirst(tail)
      && (user != "" ==> user[|user| - 1] == '@' && '@' !in user[..|user| - 1])
  }

  lemma {:induction false} SchemePassed(scheme: string, r: string)
    requires ':' !in scheme
    ensures AfterScheme(scheme + ("://" + r)) == Some(r)
  {
    var t := scheme + ("://" + r);
    if scheme == "" {
      assert t == "://" + r && t[3..] == r;
    } else {
      assert t[0] == scheme[0] && t[1..] == scheme[1..] + ("://" + r);
      SchemePassed(scheme[1..], r);
    }
  }

  lemma {:induction false} UserPassed(user: string, r: string)
    requires user != "" && user[|user| - 1] == '@' && '@' !in user[..|user| - 1]
    ensures '@' in user + r && Behind('@', user + r) == r
    decreases |user|
  {
    var t := user + r;
    assert t[|user| - 1] == '@';
    if |user| == 1 {
      assert t[1..] == r;
    } else {
      assert user[..|user| - 1][0] == user[0];
      assert t[0] == user[0] && t[1..] == user[1..] + r;
      assert user[1..][..|user[1..]| - 1] == user[..|user| - 1][1..];
      UserPassed(user[1..], r);
    }
  }

  lemma {:induction false} BeforeSplits(c: char, a: string, b: string)
    requires c !in a
    ensures Before(c, a + b) == a + Before(c, b)
  {
    if a == "" {
      assert a + b == b;
    } else {
      assert (a + b)[0] == a[0] && (a + b)[1..] == a[1..] + b;
      BeforeSplits(c, a[1..], b);
    }
  }

  lemma DottedIsPlain(v: nat, c: char)
    requires c != '.' && !IsDigit(c)
    ensures c !in Dotted(v)
  {
    DecimalIsDigits(v / 0x100_0000 % 0x100);
    DecimalIsDigits(v / 0x1_0000 % 0x100);
    DecimalIsDigits(v / 0x100 % 0x100);
    DecimalIsDigits(v % 0x100);
    NotADigit(Decimal(v / 0x100_0000 % 0x100), c);
    NotADigit(Decimal(v / 0x1_0000 % 0x100), c);
    NotADigit(Decimal(v / 0x100 % 0x100), c);
    NotADigit(Decimal(v % 0x100), c);
  }

  lemma NotADigit(d: string, c: char)
    requires AllDigits(d) && !IsDigit(c)
    ensures c !in d
  {}

  lemma CutKeepsNoDigit(c: char, k: string)
    requires NoDigitFirst(k)
    ensures NoDigitFirst(Before(c, k))
  {}

  /** Whatever follows the quad, the host is the quad and something that does not begin with a digit. */
  lemma HostOf(ip: nat, tail: string)
    requires NoDigitFirst(tail)
    ensures exists k :: NoDigitFirst(k) && Host(Dotted(ip) + tail) == Dotted(ip) + k
  {
    var c := if '/' in Dotted(ip) + tail then '/' else ':';
    DottedIsPlain(ip, '/');
    DottedIsPlain(ip, ':');
    BeforeSplits(c, Dotted(ip), tail);
    CutKeepsNoDigit(c, tail);
    BeforeSplits(':', Dotted(ip), Before(c, tail));
    CutKeepsNoDigit(':', Before(c, tail));
    assert Host(Dotted(ip) + tail) == Dotted(ip) + Before(':', Before(c, tail));
  }

  lemma UserSkipped(user: string, ip: nat, tail: string)
    requires '@' !in tail && (user != "" ==> user[|user| - 1] == '@' && '@' !in user[..|user| - 1])
    ensures AfterUser(user + (Dotted(ip) + tail)) == Dotted(ip) + tail
  {
    if user == "" {
      DottedIsPlain(ip, '@');
      assert user + (Dotted(ip) + tail) == Dotted(ip) + tail;
    } else {
      UserPassed(user, Dotted(ip) + tail);
    }
  }

  /** The three spellings of a camera's address agree. */
  lemma KeysAgree(url: string, ip: nat)
    requires ip < WORD && UrlOf(url, ip)
    ensures HexKey(url) == HexAddress(ip) && HexToIp(HexKey(url)) == Dotted(ip)
  {
    var scheme: string, user: string, tail: string :|
      && url == scheme + ("://" + (user + (Dotted(ip) + tail)))
      && ':' !in scheme && '@' !in tail && NoDigitFirst(tail)
      && (user != "" ==> user[|user| - 1] == '@' && '@' !in user[..|user| - 1]);
    SchemePassed(scheme, user + (Dotted(ip) + tail));
    UserSkipped(user, ip, tail);
    HostOf(ip, tail);
    var k :| NoDigitFirst(k) && Host(Dotted(ip) + tail) == Dotted(ip) + k;
    HostWordOf(ip, k);
    HexReadBack(ip);
  }

  lemma HexReadBack(ip: nat)
    requires ip < WORD
    ensures HexToIp(HexAddress(ip)) == Dotted(ip)
  {
    HexAddressLength(ip);
    StoulReadsHex(ip);
    SmallModulo(ip, WORD);
  }

  /** A host that does not begin like a number, and a URL without a scheme, have no address. */
  lemma NoAddress(url: string)
    requires match AfterScheme(url)
             case None => true
             case Some(r) => var h := Host(AfterUser(r)); h != "" && !IsCSpace(h[0]) && !IsDigit(h[0]) && h[0] != '+' && h[0] != '-'
    ensures HexKey(url) == "0x00000000" && HexToIp(HexKey(url)) == "0.0.0.0"
  {
    if AfterScheme(url).Some? {
      var h := Host(AfterUser(AfterScheme(url).value));
      assert SkipCSpace(h) == h && LeadDecimal(h) == "";
      assert HostWord(h) == 0;
    }
    ZeroAddress();
  }

  lemma {:induction false} ZeroDigits(n: nat)
    ensures forall i | 0 <= i < n :: HexDigits(0, n)[i] == '0'
  {
    if n > 0 { ZeroDigits(n - 1); }
  }

  lemma DottedZero()
    ensures Dotted(0) == "0.0.0.0"
  {
    assert Decimal(0) == "0";
    assert "0" + "." + "0" + "." == "0.0.";
    assert "0.0." + "0" + "." + "0" == "0.0.0.0";
  }

  lemma ZeroAddress()
    ensures HexAddress(0) == "0x00000000" && HexToIp("0x00000000") == "0.0.0.0"
  {
    ZeroDigits(8);
    assert HexDigits(0, 8) == "00000000";
    assert "0x" + "00000000" == "0x00000000";
    HexReadBack(0);
    DottedZero();
  }

  // ------------------------------------------------------------------ the indexes

  datatype Camera = Camera(serial: string, url: string)

  /** Later entries replace earlier ones. */
  function Index(keys: seq<string>): map<string, nat>
    decreases |keys|
  {
    if keys == [] then map[] else Index(keys[..|keys| - 1])[keys[|keys| - 1] := |keys| - 1]
  }

  /** A key is found exactly if it was entered, at its last entry. */
  lemma {:induction false} IndexMeans(keys: seq<string>, k: string)
    ensures k in Index(keys) <==> k in keys
    ensures k in keys ==>
              var i := Index(keys)[k];
              i < |keys| && keys[i] == k && forall j | i < j < |keys| :: keys[j] != k
    decreases |keys|
  {
    if keys != [] {
      var init, last := keys[..|keys| - 1], keys[|keys| - 1];
      assert keys == init + [last];
      IndexMeans(init, k);
    }
  }

  function Serials(cs: seq<Camera>): (ks: seq<string>)
    ensures |ks| == |cs| && forall i | 0 <= i < |cs| :: ks[i] == cs[i].serial
  {
    seq(|cs|, i requires 0 <= i < |cs| => cs[i].serial)
  }

  function HexKeys(cs: seq<Camera>): (ks: seq<string>)
    ensures |ks| == |cs| && forall i | 0 <= i < |cs| :: ks[i] == HexKey(cs[i].url)
  {
    seq(|cs|, i requires 0 <= i < |cs| => HexKey(cs[i].url))
  }

  function DottedKeys(cs: seq<Camera>): (ks: seq<string>)
    ensures |ks| == |cs| && forall i | 0 <= i < |cs| :: ks[i] == HexToIp(HexKey(cs[i].url))
  {
    seq(|cs|, i requires 0 <= i < |cs| => HexToIp(HexKey(cs[i].url)))
  }

  /** Position `idx` is the last to hold `key`. */
  ghost predicate IsLast(keys: seq<string>, key: string, idx: int) {
    0 <= idx < |keys| && keys[idx] == key && forall j | idx < j < |keys| :: keys[j] != key
  }

  /** The last camera with the serial number; without one, the last at the address, in either spelling. */
  ghost predicate Finds(cs: seq<Camera>, s: string, h: string, d: string, idx: int) {
    if s in Serials(cs) then IsLast(Serials(cs), s, idx)
    else if h in HexKeys(cs) then IsLast(HexKeys(cs), h, idx)
    else if d in DottedKeys(cs) then IsLast(DottedKeys(cs), d, idx)
    else idx == -1
  }

  class CameraManager {
    const cameras: seq<Camera>
    var bySerial: map<string, nat>
    var byHex: map<string, nat>
    var byDotted: map<string, nat>

    constructor (cameras: seq<Camera>)
      ensures this.cameras == cameras && bySerial == byHex == byDotted == map[]
    {
      this.cameras := cameras;
      bySerial, byHex, byDotted := map[], map[], map[];
    }

    ghost predicate Indexed()
      reads this
    {
      && bySerial == Index(Serials(cameras))
      && byHex == Index(HexKeys(cameras))
      && byDotted == Index(DottedKeys(cameras))
    }

    ghost predicate IndexedTo(n: nat)
      requires n <= |cameras|
      reads this
    {
      && bySerial == Index(Serials(cameras)[..n])
      && byHex == Index(HexKeys(cameras)[..n]) && byDotted == Index(DottedKeys(cameras)[..n])
    }

    /** One turn of the loop of initialize. */
    method AddCamera(i: nat)
      requires i < |cameras| && IndexedTo(i)
      modifies this
      ensures IndexedTo(i + 1)
    {
      var c := cameras[i];
      IndexNext(Serials(cameras), i);
      bySerial := bySerial[c.serial := i];
      var h := HexKey(c.url);
      IndexNext(HexKeys(cameras), i);
      byHex := byHex[h := i];
      IndexNext(DottedKeys(cameras), i);
      byDotted := byDotted[HexToIp(h) := i];
    }

    /** The loop of initialize that fills the indexes. */
    method Initialize()
      requires bySerial == byHex == byDotted == map[]
      modifies this
      ensures Indexed()
    {
      ghost var serials, hexes, dotteds := Serials(cameras), HexKeys(cameras), DottedKeys(cameras);
      for i := 0 to |cameras|
        invariant IndexedTo(i)
      {
        AddCamera(i);
      }
      assert serials[..|cameras|] == serials && hexes[..|cameras|] == hexes && dotteds[..|cameras|] == dotteds;
    }

    /** find_idx: what the lookup says about the cameras. */
    method FindIdx(s: string, h: string, d: string) returns (idx: int)
      requires Indexed()
      ensures Finds(cameras, s, h, d, idx)
    {
      IndexMeans(Serials(cameras), s);
      IndexMeans(HexKeys(cameras), h);
      IndexMeans(DottedKeys(cameras), d);
      if s in bySerial {
        return bySerial[s];
      }
      if h in byHex {
        return byHex[h];
      }
      if d in byDotted {
        return byDotted[d];
      }
      idx := -1;
    }

    /** The lookups of alarm_loop for the events it takes from the queue, in order. */
    method FindAll(events: seq<Event>) returns (idxs: seq<int>)
      requires Indexed()
      ensures |idxs| == |events|
      ensures forall j | 0 <= j < |events| ::
                Finds(cameras, events[j].serialId, events[j].address, events[j].addressIp, idxs[j])
    {
      idxs := [];
      for i := 0 to |events|
        invariant |idxs| == i
        invariant forall j | 0 <= j < i ::
                    Finds(cameras, events[j].serialId, events[j].address, events[j].addressIp, idxs[j])
      {
        var idx := FindIdx(events[i].serialId, events[i].address, events[i].addressIp);
        idxs := idxs + [idx];
      }
    }
  }

  lemma IndexNext(keys: seq<string>, i: nat)
    requires i < |keys|
    ensures Index(keys[..i + 1]) == Index(keys[..i])[keys[i] := i]
  {
    assert keys[..i + 1][..i] == keys[..i];
  }

  // ------------------------------------------------------------------ routing

  /** The cameras' URLs name the hosts `ips`, no two of which are the same. */
  ghost predicate Sites(cs: seq<Camera>, ips: seq<nat>) {
    && |cs| == |ips|
    && (forall i | 0 <= i < |cs| :: ips[i] < WORD && UrlOf(cs[i].url, ips[i]))
    && (forall i, j | 0 <= i < j < |ips| :: ips[i] != ips[j])
  }

  /** An address that std::stoul reads as the little-endian form of a host. */
  ghost predicate SentBy(e: Event, ip: nat) {
    |e.address| >= 10 && Stoul16(e.address[2..]).Some? && Swap(Stoul16(e.address[2..]).value % WORD) == ip
  }

  /** Where the event an alarm becomes is sent. */
  ghost predicate Routed(cs: seq<Camera>, e: Event, idx: int) {
    Finds(cs, Convert(e).serialId, Convert(e).address, Convert(e).addressIp, idx)
  }

  /**
    With pairwise distinct hosts, an alarm with an unknown serial number goes to the camera at its
    sender's address; one with a known serial number to the last camera with that number.
  */
  lemma AlarmsAreRouted(cs: seq<Camera>, ips: seq<nat>, e: Event, idx: int)
    requires Sites(cs, ips) && Routed(cs, e, idx)
    ensures e.serialId in Serials(cs) ==> IsLast(Serials(cs), e.serialId, idx)
    ensures e.serialId !in Serials(cs) ==> forall i | 0 <= i < |cs| :: SentBy(e, ips[i]) ==> idx == i
  {
    forall i | 0 <= i < |cs| && e.serialId !in Serials(cs) && SentBy(e, ips[i]) ensures idx == i {
      HexKeysDiffer(cs, ips, i);
      SenderAddress(e, ips[i]);
      HexIsFound(cs, Convert(e).serialId, Convert(e).address, Convert(e).addressIp, i, idx);
    }
  }

  lemma HexIsFound(cs: seq<Camera>, s: string, h: string, d: string, i: nat, idx: int)
    requires Finds(cs, s, h, d, idx) && s !in Serials(cs) && i < |cs|
    requires forall j | 0 <= j < |cs| :: HexKeys(cs)[j] == h <==> j == i
    ensures idx == i
  {
    assert HexKeys(cs)[i] == h;
  }

  lemma SenderAddress(e: Event, ip: nat)
    requires SentBy(e, ip)
    ensures Convert(e).address == HexAddress(ip) && Convert(e).serialId == e.serialId
  {}

  /** An alarm that names no camera in any of the three ways finds none. */
  lemma UnknownFindsNone(cs: seq<Camera>, e: Event, idx: int)
    requires Routed(cs, e, idx)
    requires forall i | 0 <= i < |cs| ::
               && cs[i].serial != e.serialId
               && HexKey(cs[i].url) != Convert(e).address && HexToIp(HexKey(cs[i].url)) != Convert(e).addressIp
    ensures idx == -1
  {}

  lemma HexKeysDiffer(cs: seq<Camera>, ips: seq<nat>, i: nat)
    requires Sites(cs, ips) && i < |cs|
    ensures forall j | 0 <= j < |cs| :: HexKeys(cs)[j] == HexAddress(ips[i]) <==> j == i
  {
    forall j | 0 <= j < |cs| ensures HexKeys(cs)[j] == HexAddress(ips[i]) <==> j == i {
      KeysAgree(cs[j].url, ips[j]);
      StoulReadsHex(ips[i]);
      StoulReadsHex(ips[j]);
    }
  }

  /** The sender of a host's own address in the form cameras use is that host. */
  lemma CamerasSendThemselves(e: Event, ip: nat)
    requires ip < WORD && e.address == HexAddress(Swap(ip))
    ensures SentBy(e, ip)
  {
    SwapTwice(ip);
    HexAddressLength(Swap(ip));
    StoulReadsHex(Swap(ip));
    SmallModulo(Swap(ip), WORD);
  }

  // ------------------------------------------------------------------ from the stream to the cameras

  /** The event an accepted object reports, before its address is converted. */
  ghost function Report(text: string): Event {
    if ObjectText(text) && DecodeTree(ScanDoc(text).doc.v).Obj?
    then Summary(BLANK, DecodeTree(ScanDoc(text).doc.v).members)
    else BLANK
  }

  /** The alarms among the texts, as sent. */
  ghost function Sent(texts: seq<string>): seq<Event>
    decreases |texts|
  {
    if texts == [] then []
    else (if Report(texts[0]).kind == "Alarm" then [Report(texts[0])] else []) + Sent(texts[1..])
  }

  lemma ReportIsDelivered(text: string)
    requires ObjectText(text) && Harmless(text)
    ensures HandleText(text).events == if Report(text).kind == "Alarm" then [Convert(Report(text))] else []
  {
    ObjectIsDelivered(text);
    KindIsLastText(text);
  }

  lemma KindIsLastText(text: string)
    requires ObjectText(text) && Harmless(text)
    ensures var v := DecodeTree(ScanDoc(text).doc.v);
            v.Obj? && Report(text) == Summary(BLANK, v.members) && Report(text).kind == LastText(v.members, "Type", "")
  {
    ObjectIsDelivered(text);
  }

  lemma {:induction false} SentIsDelivered(texts: seq<string>)
    requires forall i | 0 <= i < |texts| :: ObjectText(texts[i]) && Harmless(texts[i])
    ensures Alarms(texts) == Converted(Sent(texts))
    decreases |texts|
  {
    if texts != [] {
      var e := Report(texts[0]);
      ReportIsDelivered(texts[0]);
      SentIsDelivered(texts[1..]);
      ConvertedCons(e, Sent(texts[1..]));
      if e.kind != "Alarm" {
        assert [] + Sent(texts[1..]) == Sent(texts[1..]);
      }
    }
  }

  /** The events with their addresses converted. */
  ghost function Converted(es: seq<Event>): (ds: seq<Event>)
    ensures |ds| == |es| && forall j | 0 <= j < |es| :: ds[j] == Convert(es[j])
    decreases |es|
  {
    if es == [] then [] else [Convert(es[0])] + Converted(es[1..])
  }

  lemma ConvertedCons(e: Event, es: seq<Event>)
    ensures Converted([e] + es) == [Convert(e)] + Converted(es)
  {
    assert ([e] + es)[1..] == es;
  }

  /**
    From the received bytes to the cameras: a stream of accepted objects, cut into chunks in any
    way, whose channels all fit, is looked up once for each alarm among the objects, in order; and
    each lookup finds the last camera with the alarm's serial number, or, where no camera has it,
    the camera at the sender's address.
  */
  lemma StreamIsRouted(gaps: seq<string>, texts: seq<string>, tail: string, chunks: seq<string>,
                       cs: seq<Camera>, ips: seq<nat>, idxs: seq<int>)
    requires |gaps| == |texts| && BraceFree(tail) && chunks != []
    requires forall i | 0 <= i < |gaps| :: BraceFree(gaps[i])
    requires forall i | 0 <= i < |texts| :: TightObject(texts[i]) && Harmless(texts[i])
    requires Concat(chunks) == Stream(gaps, texts, tail)
    requires Sites(cs, ips)
    requires var events := Handle(Feed("", chunks).frames).events;
             |idxs| == |events|
             && forall j | 0 <= j < |events| ::
                  Finds(cs, events[j].serialId, events[j].address, events[j].addressIp, idxs[j])
    ensures !Handle(Feed("", chunks).frames).threw && |idxs| == |Sent(texts)|
    ensures forall j | 0 <= j < |idxs| ::
              var e := Sent(texts)[j];
              if e.serialId in Serials(cs) then IsLast(Serials(cs), e.serialId, idxs[j])
              else forall i | 0 <= i < |cs| :: SentBy(e, ips[i]) ==> idxs[j] == i
  {
    StreamIsDelivered(gaps, texts, tail, chunks);
    SentIsDelivered(texts);
    forall j | 0 <= j < |idxs|
      ensures var e := Sent(texts)[j];
              if e.serialId in Serials(cs) then IsLast(Serials(cs), e.serialId, idxs[j])
              else forall i | 0 <= i < |cs| :: SentBy(e, ips[i]) ==> idxs[j] == i
    {
      AlarmsAreRouted(cs, ips, Sent(texts)[j], idxs[j]);
    }
  }

  /** The two threads one after the other: the client's events are looked up in the order they came. */
  method ServeAndFind(client: AlarmClient, manager: CameraManager, chunks: seq<string>) returns (threw: bool, idxs: seq<int>)
    requires client.buffer == "" && client.events == [] && manager.Indexed()
    modifies client
    ensures threw == Handle(Feed("", chunks).frames).threw
    ensures var events := Handle(Feed("", chunks).frames).events;
            |idxs| == |events|
            && forall j | 0 <= j < |events| ::
                 Finds(manager.cameras, events[j].serialId, events[j].address, events[j].addressIp, idxs[j])
  {
    ghost var events := Handle(Feed("", chunks).frames).events;
    threw := client.RunClient(chunks);
    assert client.events == events;
    idxs := manager.FindAll(client.events);
  }
}
