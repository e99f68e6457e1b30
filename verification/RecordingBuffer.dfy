/**
  The pre-buffer of a recording session as a value (recording_session.cpp): the packets waiting
  for an alarm, trimmed by whole groups of pictures and, in an emergency, by bytes or by count.

  `KeepKeys` says what the buffer should hold; `DropGop` and `DropOldest` are what one step of
  the trimming does; the lemmas connect them.
*/
module RecordingBuffer {
  datatype Packet = Packet(id: nat, size: nat, key: bool)

  const MAX_PRE_BUFFER_BYTES: nat := 50 * 1024 * 1024
  const MAX_PRE_BUFFER_PACKETS: nat := 500
  const MAX_REASONABLE_PACKET_SIZE: nat := 1024 * 1024

  function Bytes(s: seq<Packet>): nat
    decreases |s|
  {
    if s == [] then 0 else s[0].size + Bytes(s[1..])
  }

  function Keys(s: seq<Packet>): nat
    decreases |s|
  {
    if s == [] then 0 else (if s[0].key then 1 else 0) + Keys(s[1..])
  }

  lemma {:induction false} SumsSplit(a: seq<Packet>, b: seq<Packet>)
    ensures Bytes(a + b) == Bytes(a) + Bytes(b) && Keys(a + b) == Keys(a) + Keys(b)
    decreases |a|
  {
    if a == [] {
      assert a + b == b;
    } else {
      assert (a + b)[1..] == a[1..] + b;
      SumsSplit(a[1..], b);
    }
  }

  lemma SumsSnoc(s: seq<Packet>, p: Packet)
    ensures Bytes(s + [p]) == Bytes(s) + p.size
    ensures Keys(s + [p]) == Keys(s) + if p.key then 1 else 0
  {
    SumsSplit(s, [p]);
    assert [p][1..] == [];
  }

  // ------------------------------------------------------------------ what the buffer should hold

  /** The suffix that starts at the n-th key frame from the end; empty if there is no such frame. */
  function FromKey(s: seq<Packet>, n: nat): (r: seq<Packet>)
    ensures |r| <= |s|
    decreases |s|
  {
    if s == [] || (s[0].key && Keys(s) == n) then s else FromKey(s[1..], n)
  }

  /** The last n groups of pictures, or everything if there are no more than n key frames. */
  function KeepKeys(s: seq<Packet>, n: nat): seq<Packet> {
    if Keys(s) <= n then s else FromKey(s, n)
  }

  /** `r` is the end of `s`. */
  ghost predicate IsSuffix(r: seq<Packet>, s: seq<Packet>) {
    |r| <= |s| && s[|s| - |r|..] == r
  }

  lemma {:induction false} FromKeyMeans(s: seq<Packet>, n: nat)
    requires n < Keys(s)
    ensures var r := FromKey(s, n);
            && IsSuffix(r, s) && Keys(r) == n
            && (n > 0 ==> r != [] && r[0].key)
            && (n == 0 ==> r == [])
    decreases |s|
  {
    if s[0].key && Keys(s[1..]) == n {
      if n > 0 {
        FromKeyFound(s[1..], n);
      } else {
        NoKeyLeft(s[1..]);
      }
    } else {
      FromKeyMeans(s[1..], n);
    }
  }

  /** Behind the frame that made one key frame too many, up to the next one. */
  lemma {:induction false} FromKeyFound(s: seq<Packet>, n: nat)
    requires n == Keys(s) && n > 0
    ensures var r := FromKey(s, n);
            IsSuffix(r, s) && Keys(r) == n && r != [] && r[0].key
    decreases |s|
  {
    if !s[0].key {
      FromKeyFound(s[1..], n);
    }
  }

  lemma {:induction false} NoKeyLeft(s: seq<Packet>)
    requires Keys(s) == 0
    ensures FromKey(s, 0) == []
    decreases |s|
  {
    if s != [] {
      NoKeyLeft(s[1..]);
    }
  }

  /** Trimming after every push is trimming the whole history once, for a positive limit. */
  lemma {:induction false} KeepSnoc(s: seq<Packet>, p: Packet, n: nat)
    requires n >= 1
    ensures KeepKeys(KeepKeys(s, n) + [p], n) == KeepKeys(s + [p], n)
    decreases |s|
  {
    SumsSnoc(s, p);
    if Keys(s) > n {
      assert (s + [p])[0] == s[0] && (s + [p])[1..] == s[1..] + [p];
      FromKeyMeans(s, n);
      SumsSnoc(FromKey(s, n), p);
      FromKeySnoc(s, p, n);
    }
  }

  lemma {:induction false} FromKeySnoc(s: seq<Packet>, p: Packet, n: nat)
    requires n >= 1 && n <= Keys(s)
    ensures KeepKeys(FromKey(s, n) + [p], n) == FromKey(s + [p], n)
    decreases |s|
  {
    SumsSnoc(s, p);
    var t := s + [p];
    assert t[0] == s[0] && t[1..] == s[1..] + [p];
    if s[0].key && Keys(s) == n {
      if !p.key { assert FromKey(t, n) == t; }
    } else {
      FromKeySnoc(s[1..], p, n);
    }
  }

  /** With a limit of zero the same is false: the packets behind a dropped key frame stay. */
  lemma KeepSnocFailsAtZero()
    ensures exists s, p :: KeepKeys(KeepKeys(s, 0) + [p], 0) != KeepKeys(s + [p], 0)
  {
    var k, p := Packet(0, 1, true), Packet(1, 1, false);
    assert [k][1..] == [] && [p][1..] == [] && ([k] + [p])[1..] == [p];
    assert [] + [p] == [p];
    assert Keys([]) == 0 && Keys([p]) == 0 && Keys([k]) == 1;
    assert FromKey([k], 0) == FromKey([], 0) == [];
    assert Keys([k] + [p]) == 1 && FromKey([k] + [p], 0) == FromKey([p], 0);
    assert FromKey([p], 0) == FromKey([], 0);
    assert KeepKeys(KeepKeys([k], 0) + [p], 0) == [p];
    assert KeepKeys([k] + [p], 0) == [];
  }

  /** The packets behind the last key frame: what a limit of zero keeps. */
  function BehindKeys(s: seq<Packet>): seq<Packet>
    decreases |s|
  {
    if s == [] || s[|s| - 1].key then [] else BehindKeys(s[..|s| - 1]) + [s[|s| - 1]]
  }

  lemma {:induction false} BehindHasNoKey(s: seq<Packet>)
    ensures Keys(BehindKeys(s)) == 0
    ensures Keys(s) == 0 ==> BehindKeys(s) == s
    decreases |s|
  {
    if s != [] {
      var init, last := s[..|s| - 1], s[|s| - 1];
      assert s == init + [last];
      BehindHasNoKey(init);
      SumsSnoc(init, last);
      SumsSnoc(BehindKeys(init), last);
    }
  }

  lemma ZeroSnoc(s: seq<Packet>, p: Packet)
    ensures KeepKeys(BehindKeys(s) + [p], 0) == BehindKeys(s + [p])
  {
    BehindHasNoKey(s);
    SumsSnoc(BehindKeys(s), p);
    assert (s + [p])[..|s|] == s;
    if p.key {
      FromKeyMeans(BehindKeys(s) + [p], 0);
    }
  }

  /** What the buffer is of its history, for any limit. */
  function LastGroups(s: seq<Packet>, limit: nat): seq<Packet> {
    if limit >= 1 then KeepKeys(s, limit) else BehindKeys(s)
  }

  lemma LastGroupsSnoc(s: seq<Packet>, p: Packet, limit: nat)
    ensures KeepKeys(LastGroups(s, limit) + [p], limit) == LastGroups(s + [p], limit)
  {
    if limit >= 1 {
      KeepSnoc(s, p, limit);
    } else {
      ZeroSnoc(s, p);
    }
  }

  lemma FirstOfGroups(s: seq<Packet>, limit: nat)
    requires LastGroups(s, limit) != []
    ensures s != [] && (LastGroups(s, limit)[0].key <==> limit >= 1 && (Keys(s) > limit || s[0].key))
  {
    if limit == 0 {
      BehindHasNoKey(s);
    } else if Keys(s) > limit {
      FromKeyMeans(s, limit);
    }
  }

  lemma LastGroupsFixed(s: seq<Packet>, limit: nat)
    requires Keys(s) <= limit
    ensures LastGroups(s, limit) == s
  {
    BehindHasNoKey(s);
  }

  /** With a limit of zero the buffer is the last groups exactly while the history has no key frame or ends with one. */
  lemma ZeroKeepsWhen(s: seq<Packet>)
    ensures BehindKeys(s) == KeepKeys(s, 0) <==> Keys(s) == 0 || s[|s| - 1].key
  {
    BehindHasNoKey(s);
    if Keys(s) > 0 {
      FromKeyMeans(s, 0);
    }
  }

  // ------------------------------------------------------------------ one trimming step

  /** How many packets stand in front of the first key frame. */
  function Lead(s: seq<Packet>): (n: nat)
    ensures n <= |s|
    ensures n < |s| ==> s[n].key
    ensures forall i | 0 <= i < n :: !s[i].key
    decreases |s|
  {
    if s == [] || s[0].key then 0 else 1 + Lead(s[1..])
  }

  /** drop_oldest_gop: how many packets it takes off the front. */
  function GopSize(s: seq<Packet>): (n: nat)
    ensures n <= |s|
    ensures s != [] ==> n >= 1
  {
    var lead := Lead(s);
    if s == [] then 0
    else if lead == |s| then if |s| / 4 > 1 then |s| / 4 else 1
    else lead + 1 + Lead(s[lead + 1..])
  }

  function DropGop(s: seq<Packet>): seq<Packet> {
    s[GopSize(s)..]
  }

  lemma {:induction false} LeadHasNoKey(s: seq<Packet>, n: nat)
    requires n <= Lead(s)
    ensures Keys(s[..n]) == 0 && Keys(s[n..]) == Keys(s)
    decreases |s|
  {
    if n > 0 {
      var t := s[1..];
      LeadHasNoKey(t, n - 1);
      assert s[..n][1..] == t[..n - 1];
      assert t[n - 1..] == s[n..];
    } else {
      assert s[0..] == s;
    }
  }

  lemma {:induction false} LeadStopsAtKey(s: seq<Packet>)
    requires Keys(s) > 0
    ensures Lead(s) < |s|
    decreases |s|
  {
    if !s[0].key {
      LeadStopsAtKey(s[1..]);
    }
  }

  /** One step takes off one key frame, and leaves exactly the groups that should stay. */
  lemma {:induction false} DropGopKeeps(s: seq<Packet>, n: nat)
    requires Keys(s) == n + 1
    ensures DropGop(s) == KeepKeys(s, n) && Keys(DropGop(s)) == n
    decreases |s|
  {
    if s[0].key {
      var t := s[1..];
      var lead := Lead(t);
      assert Lead(s) == 0 && GopSize(s) == 1 + lead;
      assert s[1 + lead..] == t[lead..];
      LeadHasNoKey(t, lead);
      FromKeyIsLead(t, n);
    } else {
      DropGopSkips(s);
      DropGopKeeps(s[1..], n);
    }
  }

  lemma DropGopSkips(s: seq<Packet>)
    requires s != [] && !s[0].key && Keys(s) > 0
    ensures DropGop(s) == DropGop(s[1..])
  {
    var t := s[1..];
    var lead := Lead(t);
    LeadStopsAtKey(t);
    assert s[lead + 2..] == t[lead + 1..];
  }

  lemma {:induction false} FromKeyIsLead(t: seq<Packet>, n: nat)
    requires Keys(t) == n
    ensures FromKey(t, n) == t[Lead(t)..]
    decreases |t|
  {
    if t != [] && !t[0].key {
      FromKeyIsLead(t[1..], n);
      assert t[1..][Lead(t[1..])..] == t[Lead(t)..];
    }
  }

  // ------------------------------------------------------------------ emergencies

  /** The longest suffix of at most `target` bytes. */
  function FitBytes(s: seq<Packet>, target: nat): (r: seq<Packet>)
    ensures |r| <= |s|
    decreases |s|
  {
    if s == [] || Bytes(s) <= target then s else FitBytes(s[1..], target)
  }

  /** The longest suffix of at most `target` packets. */
  function FitCount(s: seq<Packet>, target: nat): (r: seq<Packet>)
    ensures |r| == if |s| <= target then |s| else target
  {
    if |s| <= target then s else s[|s| - target..]
  }

  lemma {:induction false} FitBytesMeans(s: seq<Packet>, target: nat)
    ensures IsSuffix(FitBytes(s, target), s) && Bytes(FitBytes(s, target)) <= target
    ensures forall k | 0 <= k <= |s| :: Bytes(s[k..]) <= target ==> |s[k..]| <= |FitBytes(s, target)|
    decreases |s|
  {
    if s != [] && Bytes(s) > target {
      FitBytesMeans(s[1..], target);
      assert s[0..] == s;
      forall k | 0 < k <= |s| ensures s[k..] == s[1..][k - 1..] {}
    }
  }

  lemma FitCountStep(s: seq<Packet>, target: nat)
    requires |s| > target
    ensures FitCount(s, target) == FitCount(s[1..], target)
  {
    assert s[1..][|s| - 1 - target..] == s[|s| - target..];
  }

  function CapBytes(s: seq<Packet>): (r: seq<Packet>)
    ensures |r| <= |s|
  {
    if Bytes(s) > MAX_PRE_BUFFER_BYTES then FitBytes(s, MAX_PRE_BUFFER_BYTES / 2) else s
  }

  function CapCount(s: seq<Packet>): (r: seq<Packet>)
    ensures |r| <= |s|
  {
    if |s| > MAX_PRE_BUFFER_PACKETS then FitCount(s, MAX_PRE_BUFFER_PACKETS / 2) else s
  }

  /** The buffer after the trimming that follows a push. */
  function Trim(s: seq<Packet>, limit: nat): (r: seq<Packet>)
    ensures |r| <= |s|
  {
    CapCount(CapBytes(KeepKeys(s, limit)))
  }

  lemma {:induction false} SuffixSums(s: seq<Packet>, k: nat)
    requires k <= |s|
    ensures Bytes(s) == Bytes(s[..k]) + Bytes(s[k..]) && Keys(s) == Keys(s[..k]) + Keys(s[k..])
  {
    assert s[..k] + s[k..] == s;
    SumsSplit(s[..k], s[k..]);
  }

  /** Whatever was in the buffer, after a push it is a suffix within all three bounds. */
  lemma TrimBounds(s: seq<Packet>, limit: nat)
    ensures var r := Trim(s, limit);
            && IsSuffix(r, s)
            && Bytes(r) <= MAX_PRE_BUFFER_BYTES && |r| <= MAX_PRE_BUFFER_PACKETS && Keys(r) <= limit
  {
    var a := KeepKeys(s, limit);
    var b := CapBytes(a);
    KeepBounds(s, limit);
    CapBytesBounds(a);
    CapCountBounds(b);
    SuffixTrans(a, b, s);
    SuffixTrans(b, CapCount(b), s);
  }

  lemma CapBytesBounds(s: seq<Packet>)
    ensures IsSuffix(CapBytes(s), s) && Bytes(CapBytes(s)) <= MAX_PRE_BUFFER_BYTES && Keys(CapBytes(s)) <= Keys(s)
  {
    FitBytesMeans(s, MAX_PRE_BUFFER_BYTES / 2);
    SuffixShrinks(CapBytes(s), s);
  }

  lemma CapCountBounds(s: seq<Packet>)
    ensures IsSuffix(CapCount(s), s) && |CapCount(s)| <= MAX_PRE_BUFFER_PACKETS
    ensures Bytes(CapCount(s)) <= Bytes(s) && Keys(CapCount(s)) <= Keys(s)
  {
    SuffixShrinks(CapCount(s), s);
  }

  lemma KeepBounds(s: seq<Packet>, limit: nat)
    ensures IsSuffix(KeepKeys(s, limit), s) && Keys(KeepKeys(s, limit)) <= limit
  {
    if Keys(s) > limit {
      FromKeyMeans(s, limit);
    }
  }

  lemma SuffixShrinks(r: seq<Packet>, s: seq<Packet>)
    requires IsSuffix(r, s)
    ensures Bytes(r) <= Bytes(s) && Keys(r) <= Keys(s)
  {
    SuffixSums(s, |s| - |r|);
  }

  lemma SuffixTrans(a: seq<Packet>, b: seq<Packet>, s: seq<Packet>)
    requires IsSuffix(a, s) && IsSuffix(b, a)
    ensures IsSuffix(b, s)
  {}

  function Dropped(s: seq<Packet>, turns: nat): seq<Packet>
    decreases turns
  {
    if turns == 0 then s else Dropped(DropGop(s), turns - 1)
  }

  /**
    With a negative limit the loop of add_to_pre_buffer is never left: it soon has emptied the
    buffer, and its guard holds of the empty buffer too.
  */
  lemma {:induction false} NegativeLimitNeverEnds(s: seq<Packet>, limit: int, turns: nat)
    requires limit < 0 && turns >= |s|
    ensures Dropped(s, turns) == [] && Keys(Dropped(s, turns)) > limit
    decreases turns
  {
    if turns > 0 {
      var t := DropGop(s);
      assert |t| <= turns - 1;
      NegativeLimitNeverEnds(t, limit, turns - 1);
    }
  }

  // ------------------------------------------------------------------ what is left, in plain numbers

  /** `r` is all of `s` if that has no more than `n` key frames, and else its end from the n-th last key frame on. */
  ghost predicate LastKeys(r: seq<Packet>, s: seq<Packet>, n: nat) {
    && IsSuffix(r, s)
    && (Keys(s) <= n ==> r == s)
    && (Keys(s) > n ==> Keys(r) == n && if n == 0 then r == [] else r != [] && r[0].key)
  }

  lemma KeepMeans(s: seq<Packet>, n: nat)
    ensures LastKeys(KeepKeys(s, n), s, n)
  {
    if Keys(s) > n {
      FromKeyMeans(s, n);
    } else {
      assert s[0..] == s;
    }
  }

  /** `r` is the longest end of `s` that has at most `bytes` bytes. */
  ghost predicate LongestWithin(r: seq<Packet>, s: seq<Packet>, bytes: nat) {
    && IsSuffix(r, s) && Bytes(r) <= bytes
    && forall k | 0 <= k <= |s| :: Bytes(s[k..]) <= bytes ==> |s[k..]| <= |r|
  }

  /** The latest 250 of more than 500, and everything else. */
  ghost predicate LatestHalf(r: seq<Packet>, s: seq<Packet>) {
    if |s| > 500 then |r| == 250 && r == s[|s| - 250..] else r == s
  }

  lemma CountMeans(s: seq<Packet>)
    ensures LatestHalf(CapCount(s), s)
  {}

  /**
    What a push leaves of the groups `g` that are kept: everything up to 500 packets and 50 MiB; above
    500 packets the latest 250; above 50 MiB the longest end within 25 MiB, cut to 250 packets only if it
    still has more than 500.
  */
  ghost predicate Remains(r: seq<Packet>, g: seq<Packet>) {
    if Bytes(g) <= 52428800 then LatestHalf(r, g) else exists b :: LongestWithin(b, g, 26214400) && LatestHalf(r, b)
  }

  lemma CapsMean(g: seq<Packet>)
    ensures Remains(CapCount(CapBytes(g)), g)
  {
    CountMeans(CapBytes(g));
    BytesMean(g);
  }

  lemma CapBytesIs(g: seq<Packet>)
    ensures CapBytes(g) == if Bytes(g) <= 52428800 then g else FitBytes(g, 26214400)
  {
    assert MAX_PRE_BUFFER_BYTES == 52428800 && MAX_PRE_BUFFER_BYTES / 2 == 26214400;
  }

  lemma BytesMean(g: seq<Packet>)
    ensures if Bytes(g) <= 52428800 then CapBytes(g) == g else LongestWithin(CapBytes(g), g, 26214400)
  {
    CapBytesIs(g);
    if Bytes(g) > 52428800 {
      FitIsLongest(g, 26214400);
    }
  }

  lemma FitIsLongest(g: seq<Packet>, bytes: nat)
    ensures LongestWithin(FitBytes(g, bytes), g, bytes)
  {
    FitBytesMeans(g, bytes);
  }

  ghost predicate LeftOf(r: seq<Packet>, s: seq<Packet>, limit: nat) {
    exists g :: LastKeys(g, s, limit) && Remains(r, g)
  }

  lemma TrimMeans(s: seq<Packet>, limit: nat)
    ensures LeftOf(Trim(s, limit), s, limit)
  {
    var g := KeepKeys(s, limit);
    KeepMeans(s, limit);
    CapsMean(g);
  }

  /** Without a key frame a quarter of the buffer is dropped, and at least one packet. */
  lemma NoKeyDropsQuarter(s: seq<Packet>)
    requires s != [] && Keys(s) == 0
    ensures var n := if |s| >= 8 then |s| / 4 else 1;
            n <= |s| && DropGop(s) == s[n..]
  {
    LeadPassesAll(s);
  }

  lemma {:induction false} LeadPassesAll(s: seq<Packet>)
    requires Keys(s) == 0
    ensures Lead(s) == |s|
    decreases |s|
  {
    if s != [] { LeadPassesAll(s[1..]); }
  }
}
