/**
  What a recording session does with a packet, an event and a loss, said in plain numbers and contents
  and for every reachable state.
*/
module RecordingRules {
  import opened RecordingBuffer
  import opened Recording
  import opened RecordingRuns
  import opened Wrappers

  // ------------------------------------------------------------------ packets

  /** A packet that is empty or larger than a mebibyte is freed, and nothing else happens. */
  lemma AbnormalIsDropped(cfg: Config, sys: System, p: Packet, overdue: bool)
    requires Reachable(cfg, sys) && sys.pc == Idle && (p.size == 0 || p.size > 1048576)
    ensures DoPush(cfg, sys, p, overdue) == sys.(pushed := sys.pushed + [p], s := sys.s.(freed := sys.s.freed + [p]))
  {
    InControl(cfg, sys);
  }

  predicate Normal(p: Packet) {
    1 <= p.size <= 1048576
  }

  /** The buffer with a packet: what the trimming leaves of both, the front freed, and nothing else changed. */
  ghost predicate BufferTakes(cfg: Config, s: Session, t: Session, p: Packet) {
    var all := s.pre + [p];
    && LeftOf(t.pre, all, cfg.preKeys) && |t.pre| <= |all|
    && t.freed == s.freed + all[..|all| - |t.pre|]
    && t == s.(pre := t.pre, keys := Keys(t.pre), bytes := Bytes(t.pre), freed := t.freed)
  }

  /** Any other is accepted; before an event it joins the buffer. */
  lemma BufferedPush(cfg: Config, sys: System, p: Packet, overdue: bool)
    requires Reachable(cfg, sys) && sys.pc == Idle && sys.s.state == PRE_BUFFER && Normal(p)
    ensures var t := DoPush(cfg, sys, p, overdue);
            t.accepted == sys.accepted + [p] && t.pc == Idle && BufferTakes(cfg, sys.s, t.s, p)
  {
    InControl(cfg, sys);
    AddedIs(cfg, sys.s, p);
    PushIsAdded(cfg, sys, p, overdue);
  }

  lemma AddedIs(cfg: Config, s: Session, p: Packet)
    ensures BufferTakes(cfg, s, AddToPre(cfg, s, p), p)
  {
    TrimMeans(s.pre + [p], cfg.preKeys);
    AddedIsTrimmed(cfg, s, p);
  }

  lemma AddedIsTrimmed(cfg: Config, s: Session, p: Packet)
    ensures var all, t := s.pre + [p], AddToPre(cfg, s, p);
            && t.pre == Trim(all, cfg.preKeys) && |t.pre| <= |all|
            && t.freed == s.freed + all[..|all| - |t.pre|]
            && t == s.(pre := t.pre, keys := Keys(t.pre), bytes := Bytes(t.pre), freed := t.freed)
  {}

  lemma PushIsAdded(cfg: Config, sys: System, p: Packet, overdue: bool)
    requires sys.s.state == PRE_BUFFER && Normal(p) && !sys.s.down
    ensures var t := DoPush(cfg, sys, p, overdue);
            t.s == AddToPre(cfg, sys.s, p) && t.pc == Idle && t.accepted == sys.accepted + [p]
  {}

  /** What an event does with a packet: it goes to the end of the open file, if there is one, and is freed. */
  ghost predicate TakesPacket(s: Session, t: Session, p: Packet) {
    && t.freed == s.freed + [p] && t.out == s.out && |t.files| == |s.files|
    && (forall j | 0 <= j < |s.files| ::
          t.files[j] == if s.out == Some(j) then s.files[j].(packets := s.files[j].packets + [p]) else s.files[j])
    && t.pre == s.pre && t.state == s.state && t.eventId == s.eventId && t.chunkIdx == s.chunkIdx
  }

  lemma WriteTakes(s: Session, p: Packet)
    requires s.out.Some? ==> s.out.value < |s.files|
    ensures TakesPacket(s, Write(s, [p]), p)
  {}

  lemma RecordedPush(cfg: Config, sys: System, p: Packet, overdue: bool)
    requires Reachable(cfg, sys) && sys.pc == Idle && sys.s.state == RECORDING && Normal(p)
    ensures var t := DoPush(cfg, sys, p, overdue);
            && t.accepted == sys.accepted + [p] && TakesPacket(sys.s, t.s, p)
            && t.s.chunkBytes == sys.s.chunkBytes + p.size && t.s.postKeys == sys.s.postKeys
  {
    InControl(cfg, sys);
    WriteTakes(sys.s, p);
  }

  lemma PostPush(cfg: Config, sys: System, p: Packet, overdue: bool)
    requires Reachable(cfg, sys) && sys.pc == Idle && sys.s.state == POST_BUFFER && Normal(p)
    ensures var t := DoPush(cfg, sys, p, overdue);
            && t.accepted == sys.accepted + [p] && TakesPacket(sys.s, t.s, p)
            && t.s.chunkBytes == sys.s.chunkBytes
            && t.s.postKeys == sys.s.postKeys + (if p.key then 1 else 0)
            && (t.pc == Scheduled(true) <==> t.s.postKeys >= cfg.postKeys) && (t.pc.Scheduled? || t.pc == Idle)
  {
    InControl(cfg, sys);
    WriteTakes(sys.s, p);
  }

  // ------------------------------------------------------------------ events

  /** A start outside an event: the next event, its first chunk, and the buffer drained. */
  lemma StartMeans(cfg: Config, sys: System, opens: bool, name: string)
    requires Reachable(cfg, sys) && sys.s.state == PRE_BUFFER && Enabled(sys, StartStep(opens, name))
    ensures var t := Do(cfg, sys, StartStep(opens, name));
            && t.s.state == RECORDING && t.s.eventId == sys.s.eventId + 1 && t.s.chunkIdx == 0 && t.s.chunkBytes == 0
            && t.s.pre == [] && t.s.keys == 0 && t.s.bytes == 0 && t.s.freed == sys.s.freed + sys.s.pre
            && (opens ==> t.s.files == sys.s.files + [File(sys.s.eventId + 1, 0, sys.s.pre, 0)]
                          && t.s.out == Some(|sys.s.files|))
            && (!opens ==> t.s.files == sys.s.files && t.s.out == None)
            && t.pc == sys.pc && t.accepted == sys.accepted && t.s.filename == cfg.dir + "/" + name
  {
    InControl(cfg, sys);
    if opens {
      StartOpens(cfg, sys.s, name);
    }
    StartIsDrain(cfg, sys.s, opens, name);
  }

  lemma StartIsDrain(cfg: Config, s: Session, opens: bool, name: string)
    requires s.state == PRE_BUFFER && s.out == None
    ensures var t := Start(cfg, s, opens, name);
            && t.state == RECORDING && t.eventId == s.eventId + 1 && t.chunkIdx == 0 && t.chunkBytes == 0
            && t.pre == [] && t.keys == 0 && t.bytes == 0 && t.freed == s.freed + s.pre
            && t.out == (if opens then Some(|s.files|) else None) && (!opens ==> t.files == s.files)
            && t.filename == cfg.dir + "/" + name
  {}

  /** A start during an event is ignored. */
  lemma StartIsIgnored(cfg: Config, sys: System, opens: bool, name: string)
    requires InEvent(sys.s.state)
    ensures DoStart(cfg, sys, opens, name) == sys
  {}

  /** A continuation leaves the post-buffer, a stop enters it, both with its count at zero; elsewhere they do nothing. */
  lemma ContinueMeans(cfg: Config, sys: System)
    requires Reachable(cfg, sys) && Enabled(sys, ContinueStep)
    ensures Do(cfg, sys, ContinueStep).s
            == if sys.s.state == POST_BUFFER then sys.s.(state := RECORDING, postKeys := 0) else sys.s
  {}

  lemma StopMeans(cfg: Config, sys: System)
    requires Reachable(cfg, sys) && Enabled(sys, StopStep)
    ensures Do(cfg, sys, StopStep).s
            == if sys.s.state == RECORDING then sys.s.(state := POST_BUFFER, postKeys := 0) else sys.s
  {}

  // ------------------------------------------------------------------ the end of a file

  /** The open file is closed with its trailer, and otherwise the files stay. */
  ghost predicate ClosedLast(s: Session, t: Session) {
    && s.out.Some? && |s.files| > 0 && s.out.value == |s.files| - 1 && |t.files| >= |s.files|
    && (forall j | 0 <= j < |s.files| - 1 :: t.files[j] == s.files[j])
    && t.files[|s.files| - 1] == s.files[|s.files| - 1].(trailers := 1)
  }

  lemma TwoSteps(cfg: Config, sys: System, a: Step, b: Step)
    requires Enabled(sys, a) && Enabled(Do(cfg, sys, a), b)
    ensures Run(cfg, sys, [a, b]) == Some(Do(cfg, Do(cfg, sys, a), b))
  {
    var mid := Do(cfg, sys, a);
    var end := Do(cfg, mid, b);
    assert [a, b][1..] == [b] && [b][1..] == [];
    assert Run(cfg, end, []) == Some(end);
    assert Run(cfg, mid, [b]) == Run(cfg, end, []);
  }

  lemma TrailerCloses(sys: System)
    requires sys.pc.Entered? && sys.pc.path != "" && sys.s.out == Some(|sys.s.files| - 1)
    requires |sys.s.files| > 0 && sys.s.files[|sys.s.files| - 1].trailers == 0
    ensures DoTake(sys).pc == Writing(sys.pc.job, |sys.s.files| - 1)
    ensures var t := DoTrailer(DoTake(sys));
            && t.pc == Written(sys.pc.job) && ClosedLast(sys.s, t.s) && |t.s.files| == |sys.s.files|
            && t == sys.(pc := t.pc, s := sys.s.(files := t.s.files))
  {}

  /** Taking the open file and writing its trailer. */
  lemma CloseOpen(cfg: Config, sys: System) returns (t: System)
    requires Reachable(cfg, sys) && sys.pc.Entered? && sys.s.out.Some? && sys.pc.path != ""
    ensures Run(cfg, sys, [TakeStep, TrailerStep]) == Some(t) && Reachable(cfg, t)
    ensures t.pc == Written(sys.pc.job) && ClosedLast(sys.s, t.s) && |t.s.files| == |sys.s.files|
    ensures t == sys.(pc := t.pc, s := sys.s.(files := t.s.files))
  {
    OpenIsLast(cfg, sys);
    TrailerCloses(sys);
    ReachNext(cfg, sys, TakeStep);
    ReachNext(cfg, Do(cfg, sys, TakeStep), TrailerStep);
    TwoSteps(cfg, sys, TakeStep, TrailerStep);
    t := DoTrailer(DoTake(sys));
  }

  lemma OpenIsLast(cfg: Config, sys: System)
    requires Reachable(cfg, sys) && sys.pc.Entered? && sys.s.out.Some?
    ensures |sys.s.files| > 0 && sys.s.out == Some(|sys.s.files| - 1)
    ensures sys.s.files[|sys.s.files| - 1].trailers == 0
  {
    InControl(cfg, sys);
    InFiles(cfg, sys);
  }

  lemma InFiles(cfg: Config, sys: System)
    requires Reachable(cfg, sys)
    ensures FilesClosed(sys)
  {
    ReachableIsSafe(cfg, sys);
  }

  /** The end of an event: its file is closed, and the session waits for the next. */
  lemma EventIsFinished(cfg: Config, sys: System, opens: bool, name: string) returns (t: System)
    requires Reachable(cfg, sys) && sys.pc.Scheduled? && sys.s.state == POST_BUFFER && sys.s.out.Some?
    ensures Run(cfg, sys, [BeginStep, TakeStep, TrailerStep, EndStep(opens, name)]) == Some(t)
    ensures t.pc == Idle && t.s.state == PRE_BUFFER && t.s.out == None && t.s.postKeys == 0
    ensures ClosedLast(sys.s, t.s) && |t.s.files| == |sys.s.files| && t.s.eventId == sys.s.eventId
  {
    InControl(cfg, sys);
    var begun := Do(cfg, sys, BeginStep);
    ReachNext(cfg, sys, BeginStep);
    var closed := CloseOpen(cfg, begun);
    t := Do(cfg, closed, EndStep(opens, name));
    ThenRun(cfg, sys, BeginStep, [TakeStep, TrailerStep], closed, EndStep(opens, name));
  }

  /** One step, two more, and one behind them. */
  lemma ThenRun(cfg: Config, sys: System, a: Step, two: seq<Step>, mid: System, d: Step)
    requires Enabled(sys, a) && |two| == 2 && Run(cfg, Do(cfg, sys, a), two) == Some(mid) && Enabled(mid, d)
    ensures Run(cfg, sys, [a, two[0], two[1], d]) == Some(Do(cfg, mid, d))
  {
    RunOneMore(cfg, Do(cfg, sys, a), two, d);
    assert two + [d] == [two[0], two[1], d];
    assert [a, two[0], two[1], d][1..] == [two[0], two[1], d];
  }

  /** A rotation: the file is closed, and the next chunk of the same event begins empty. */
  lemma ChunkIsRotated(cfg: Config, sys: System, opens: bool, name: string) returns (t: System)
    requires Reachable(cfg, sys) && sys.pc.Scheduled? && sys.s.state == RECORDING && sys.s.out.Some?
    ensures Run(cfg, sys, [BeginStep, TakeStep, TrailerStep, EndStep(opens, name)]) == Some(t)
    ensures t.pc == Idle && t.s.state == RECORDING && t.s.eventId == sys.s.eventId
    ensures t.s.chunkIdx == sys.s.chunkIdx + 1 && t.s.chunkBytes == 0 && t.chunk == []
    ensures ClosedLast(sys.s, t.s)
    ensures opens ==> t.s.out == Some(|sys.s.files|) && |t.s.files| == |sys.s.files| + 1
                      && t.s.files[|sys.s.files|] == File(sys.s.eventId, sys.s.chunkIdx + 1, [], 0)
    ensures !opens ==> t.s.out == None && |t.s.files| == |sys.s.files|
  {
    InControl(cfg, sys);
    var begun := Do(cfg, sys, BeginStep);
    ReachNext(cfg, sys, BeginStep);
    var closed := CloseOpen(cfg, begun);
    t := Do(cfg, closed, EndStep(opens, name));
    ThenRun(cfg, sys, BeginStep, [TakeStep, TrailerStep], closed, EndStep(opens, name));
  }

  /** A lost stream during an event: its file is closed and the event is over. */
  lemma LossClosesFile(cfg: Config, sys: System, opens: bool, name: string) returns (t: System)
    requires Reachable(cfg, sys) && sys.pc == Idle && sys.s.out.Some?
    ensures Run(cfg, sys, [LostStep, TakeStep, TrailerStep, EndStep(opens, name)]) == Some(t)
    ensures t.pc == Idle && t.s.state == PRE_BUFFER && t.s.out == None && t.s.postKeys == 0
    ensures ClosedLast(sys.s, t.s) && |t.s.files| == |sys.s.files| && t.s.eventId == sys.s.eventId
  {
    InControl(cfg, sys);
    var begun := Do(cfg, sys, LostStep);
    ReachNext(cfg, sys, LostStep);
    var closed := CloseOpen(cfg, begun);
    t := Do(cfg, closed, EndStep(opens, name));
    ThenRun(cfg, sys, LostStep, [TakeStep, TrailerStep], closed, EndStep(opens, name));
  }

  /** A lost stream before an event changes nothing: what was buffered stays. */
  lemma LossKeepsBuffer(cfg: Config, sys: System)
    requires Reachable(cfg, sys) && sys.pc == Idle && sys.s.state == PRE_BUFFER
    ensures Do(cfg, sys, LostStep) == sys
  {}

  lemma ShutBegins(sys: System)
    requires sys.s.out.Some? && InEvent(sys.s.state)
    ensures DoShut(sys).pc == Entered(Shut, sys.s.filename)
    ensures var t := DoShut(sys).s; t.files == sys.s.files && t.out == sys.s.out && t.pre == [] && t.state == IDLE
  {}

  lemma ShutEnds(cfg: Config, sys: System, opens: bool, name: string)
    requires sys.pc == Written(Shut)
    ensures DoEnd(cfg, sys, opens, name) == sys.(s := sys.s.(out := None), pc := Off)
  {}

  /** Shutdown during an event closes the file; the buffer is freed in any case. */
  lemma ShutdownCloses(cfg: Config, sys: System, opens: bool, name: string) returns (t: System)
    requires Reachable(cfg, sys) && sys.pc == Idle && sys.s.out.Some?
    ensures Run(cfg, sys, [ShutStep, TakeStep, TrailerStep, EndStep(opens, name)]) == Some(t)
    ensures t.pc == Off && t.s.state == IDLE && t.s.out == None && t.s.pre == []
    ensures ClosedLast(sys.s, t.s) && |t.s.files| == |sys.s.files|
  {
    InControl(cfg, sys);
    ShutBegins(sys);
    ReachNext(cfg, sys, ShutStep);
    var closed := CloseOpen(cfg, DoShut(sys));
    ShutEnds(cfg, closed, opens, name);
    t := DoEnd(cfg, closed, opens, name);
    ThenRun(cfg, sys, ShutStep, [TakeStep, TrailerStep], closed, EndStep(opens, name));
  }

  // ------------------------------------------------------------------ what the histories are

  /** What has been pushed, accepted and counted for the chunk grows with pushes; starts and rotations begin a chunk. */
  lemma HistorySteps(cfg: Config, sys: System, step: Step)
    requires Reachable(cfg, sys) && Enabled(sys, step)
    ensures var t := Do(cfg, sys, step);
            var begins := step.StartStep? && sys.s.state == PRE_BUFFER;
            && t.pushed == (if step.PushStep? then sys.pushed + [step.p] else sys.pushed)
            && t.accepted == (if step.PushStep? && Normal(step.p) then sys.accepted + [step.p] else sys.accepted)
            && t.late == (if begins then 0
                          else if step.ContinueStep? && sys.pc == Scheduled(true) && sys.s.state == POST_BUFFER then sys.late + 1
                          else sys.late)
            && t.stopped == (if step.StopStep? && sys.s.state == RECORDING then |sys.accepted| else sys.stopped)
  {
    InControl(cfg, sys);
  }

  lemma ChunkSteps(cfg: Config, sys: System, step: Step)
    requires Reachable(cfg, sys) && Enabled(sys, step)
    ensures var t := Do(cfg, sys, step);
            var begins := (step.StartStep? && sys.s.state == PRE_BUFFER) || (step.EndStep? && sys.pc == Written(Rotate));
            t.chunk == if begins then []
                       else if step.PushStep? && Normal(step.p) && sys.s.state == RECORDING then sys.chunk + [step.p]
                       else sys.chunk
  {
    InControl(cfg, sys);
  }

  /** The history of the buffer grows with every accepted packet for which no emergency is needed, ... */
  lemma BufferHistoryGrows(cfg: Config, sys: System, p: Packet, overdue: bool)
    requires Reachable(cfg, sys) && sys.pc == Idle && sys.s.state == PRE_BUFFER && Normal(p)
    requires forall g :: LastKeys(g, sys.s.pre + [p], cfg.preKeys) ==> Bytes(g) <= 52428800 && |g| <= 500
    ensures DoPush(cfg, sys, p, overdue).since == sys.since + [p]
  {
    KeepMeans(sys.s.pre + [p], cfg.preKeys);
    NoEmergency(KeepKeys(sys.s.pre + [p], cfg.preKeys));
  }

  lemma NoEmergency(g: seq<Packet>)
    requires Bytes(g) <= 52428800 && |g| <= 500
    ensures CapCount(CapBytes(g)) == g
  {
    CapBytesIs(g);
  }

  /** ... and begins anew only with an event, an emergency or shutdown. */
  lemma BufferHistoryStays(cfg: Config, sys: System, step: Step)
    requires Reachable(cfg, sys) && Enabled(sys, step)
    requires !step.ShutStep? && !(step.StartStep? && sys.s.state == PRE_BUFFER)
    requires step.PushStep? ==> sys.s.state != PRE_BUFFER || !Normal(step.p)
    ensures Do(cfg, sys, step).since == sys.since
  {
    InControl(cfg, sys);
  }
}
