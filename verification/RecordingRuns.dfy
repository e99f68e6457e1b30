/**
  All interleavings of the threads that use a recording session.

  The worker pushes packets, finalizes and, when the stream is lost, forces a stop; it is between
  two of its regions at the places `Pc` names.  The alarm and monitor threads may start, continue
  or stop an event at any of these places.  Shutdown comes when the others have been joined.
  A run is any list of steps each of which is enabled; the lemmas speak of every run.
*/
module RecordingRuns {
  import opened RecordingBuffer
  import opened Recording
  import opened Wrappers

  /** Why a file is being closed. */
  datatype Job = Rotate | Finish | Force | Shut

  /** Where the worker is; in the end, the thread that shuts down. */
  datatype Pc =
    | Idle
    | Scheduled(post: bool)
    | Entered(job: Job, path: string)
    | Writing(job: Job, file: nat)
    | Written(job: Job)
    | Off

  /**
    The session and the worker's place, with what a run has done so far: all packets pushed, those
    accepted, where in the accepted ones each file starts, the packets since the last emergency,
    how often an event was continued between a push and the finalization it asked for, how many
    packets had been accepted at the last stop, and the packets accepted in RECORDING since the
    chunk began.
  */
  datatype System = System(
    s: Session,
    pc: Pc,
    pushed: seq<Packet>,
    accepted: seq<Packet>,
    from: seq<nat>,
    since: seq<Packet>,
    late: nat,
    stopped: nat,
    chunk: seq<Packet>)

  datatype Step =
    | PushStep(p: Packet, overdue: bool)
    | BeginStep
    | TakeStep
    | TrailerStep
    | EndStep(opens: bool, name: string)
    | LostStep
    | StartStep(opens: bool, name: string)
    | ContinueStep
    | StopStep
    | ShutStep

  function Initial(): System {
    System(NewSession(), Idle, [], [], [], [], 0, 0, [])
  }

  predicate Closing(pc: Pc) {
    pc == Off || ((pc.Entered? || pc.Writing? || pc.Written?) && pc.job == Shut)
  }

  predicate Enabled(sys: System, step: Step) {
    match step
    case PushStep(_, _) => sys.pc == Idle
    case BeginStep => sys.pc.Scheduled?
    case TakeStep => sys.pc.Entered?
    case TrailerStep => sys.pc.Writing?
    case EndStep(_, _) => sys.pc.Written?
    case LostStep => sys.pc == Idle
    case ShutStep => sys.pc == Idle
    case _ => !Closing(sys.pc)
  }

  function DoPush(cfg: Config, sys: System, p: Packet, overdue: bool): System {
    var (s1, full) := Push(cfg, sys.s, p, overdue);
    var all := sys.s.pre + [p];
    System(s1,
           if full then Scheduled(sys.s.state == POST_BUFFER) else Idle,
           sys.pushed + [p],
           if Accepts(p) then sys.accepted + [p] else sys.accepted,
           sys.from,
           if sys.s.state != PRE_BUFFER || !Accepts(p) then sys.since
           else if Trim(all, cfg.preKeys) == KeepKeys(all, cfg.preKeys) then sys.since + [p]
           else Trim(all, cfg.preKeys),
           sys.late,
           sys.stopped,
           if sys.s.state == RECORDING && Accepts(p) then sys.chunk + [p] else sys.chunk)
  }

  function DoBegin(sys: System): System {
    var (s1, proceed) := FinalizeBegin(sys.s);
    sys.(s := s1,
         pc := if proceed then Entered(if sys.s.state == RECORDING then Rotate else Finish, sys.s.filename) else Idle)
  }

  function DoTake(sys: System): System
    requires sys.pc.Entered?
  {
    match Taken(sys.s, sys.pc.path)
    case None => sys.(pc := Written(sys.pc.job))
    case Some(file) => sys.(pc := Writing(sys.pc.job, file))
  }

  function DoTrailer(sys: System): System
    requires sys.pc.Writing?
  {
    sys.(s := Trailer(sys.s, sys.pc.file), pc := Written(sys.pc.job))
  }

  function DoEnd(cfg: Config, sys: System, opens: bool, name: string): System
    requires sys.pc.Written?
  {
    match sys.pc.job
    case Rotate =>
      sys.(s := FinalizeEnd(cfg, sys.s, RECORDING, opens, name), pc := Idle,
           from := if opens then sys.from + [|sys.accepted|] else sys.from, chunk := [])
    case Finish => sys.(s := FinalizeEnd(cfg, sys.s, POST_BUFFER, opens, name), pc := Idle)
    case Force => sys.(s := ForceEnd(sys.s), pc := Idle)
    case Shut => sys.(s := ShutEnd(sys.s), pc := Off)
  }

  function DoLost(sys: System): System {
    var (s1, proceed) := ForceBegin(sys.s);
    sys.(s := s1, pc := if proceed then Entered(Force, PathToFinalize(sys.s)) else Idle)
  }

  function DoStart(cfg: Config, sys: System, opens: bool, name: string): System {
    if InEvent(sys.s.state) then sys
    else
      sys.(s := Start(cfg, sys.s, opens, name),
           from := if opens && |sys.s.pre| <= |sys.accepted| then sys.from + [|sys.accepted| - |sys.s.pre|] else sys.from,
           since := [],
           late := 0,
           chunk := [])
  }

  function DoContinue(sys: System): System {
    sys.(s := Continue(sys.s), late := sys.late + if sys.pc == Scheduled(true) && sys.s.state == POST_BUFFER then 1 else 0)
  }

  function DoStop(sys: System): System {
    sys.(s := Stop(sys.s), stopped := if sys.s.state == RECORDING then |sys.accepted| else sys.stopped)
  }

  function DoShut(sys: System): System {
    sys.(s := ShutBegin(sys.s), since := [],
         pc := Entered(Shut, if InEvent(sys.s.state) then PathToFinalize(sys.s) else ""))
  }

  function Do(cfg: Config, sys: System, step: Step): System
    requires Enabled(sys, step)
  {
    match step
    case PushStep(p, overdue) => DoPush(cfg, sys, p, overdue)
    case BeginStep => DoBegin(sys)
    case TakeStep => DoTake(sys)
    case TrailerStep => DoTrailer(sys)
    case EndStep(opens, name) => DoEnd(cfg, sys, opens, name)
    case LostStep => DoLost(sys)
    case StartStep(opens, name) => DoStart(cfg, sys, opens, name)
    case ContinueStep => DoContinue(sys)
    case StopStep => DoStop(sys)
    case ShutStep => DoShut(sys)
  }

  /** The system after a list of steps, if each of them is enabled in its turn. */
  function Run(cfg: Config, sys: System, steps: seq<Step>): Option<System>
    decreases |steps|
  {
    if steps == [] then Some(sys)
    else if Enabled(sys, steps[0]) then Run(cfg, Do(cfg, sys, steps[0]), steps[1..])
    else None
  }

  ghost predicate Reachable(cfg: Config, sys: System) {
    exists steps :: Run(cfg, Initial(), steps) == Some(sys)
  }

  // ------------------------------------------------------------------ who holds the file

  predicate Busy(pc: Pc) {
    (pc.Entered? || pc.Writing? || pc.Written?) && pc.job != Shut
  }

  ghost predicate Control(sys: System) {
    && (sys.s.state == FINALIZING <==> Busy(sys.pc))
    && (sys.pc.Scheduled? ==> sys.s.state == RECORDING || sys.s.state == POST_BUFFER)
    && (sys.s.state == IDLE <==> Closing(sys.pc))
    && (sys.s.down <==> Closing(sys.pc))
  }

  /** Trailers the open file has by now. */
  function Trailers(pc: Pc): nat {
    if pc.Written? then 1 else 0
  }

  ghost predicate FilesClosed(sys: System) {
    forall j | 0 <= j < |sys.s.files| ::
      sys.s.files[j].trailers == if sys.s.out == Some(j) then Trailers(sys.pc) else 1
  }

  ghost predicate Holding(sys: System) {
    && (sys.s.state == PRE_BUFFER || sys.pc == Off ==> sys.s.out.None?)
    && (sys.s.out.Some? ==>
          && |sys.s.files| > 0 && sys.s.out.value == |sys.s.files| - 1
          && sys.s.filename != ""
          && sys.s.files[|sys.s.files| - 1].event == sys.s.eventId
          && sys.s.files[|sys.s.files| - 1].chunk == sys.s.chunkIdx)
    && (sys.pc.Entered? ==> (sys.pc.path != "" <==> sys.s.out.Some?))
    && ((sys.pc.Entered? || sys.pc.Writing? || sys.pc.Written?) && (sys.pc.job == Rotate || sys.pc.job == Finish)
        ==> sys.s.out.Some?)
    && (sys.pc.Writing? ==> sys.s.out == Some(sys.pc.file))
  }

  lemma ControlAfterPush(cfg: Config, sys: System, p: Packet, overdue: bool)
    requires Control(sys) && sys.pc == Idle
    ensures Control(DoPush(cfg, sys, p, overdue))
  {}

  lemma ControlAfterEnd(cfg: Config, sys: System, opens: bool, name: string)
    requires Control(sys) && sys.pc.Written?
    ensures Control(DoEnd(cfg, sys, opens, name))
  {}

  lemma ControlKept(cfg: Config, sys: System, step: Step)
    requires Control(sys) && Holding(sys) && Enabled(sys, step)
    ensures Control(Do(cfg, sys, step))
  {
    match step {
      case PushStep(p, overdue) => ControlAfterPush(cfg, sys, p, overdue);
      case EndStep(opens, name) => ControlAfterEnd(cfg, sys, opens, name);
      case _ =>
    }
  }

  lemma HoldingAfterPush(cfg: Config, sys: System, p: Packet, overdue: bool)
    requires Control(sys) && Holding(sys) && sys.pc == Idle
    ensures Holding(DoPush(cfg, sys, p, overdue))
  {}

  lemma HoldingAfterEnd(cfg: Config, sys: System, opens: bool, name: string)
    requires Control(sys) && Holding(sys) && sys.pc.Written?
    ensures Holding(DoEnd(cfg, sys, opens, name))
  {}

  lemma HoldingAfterStart(cfg: Config, sys: System, opens: bool, name: string)
    requires Control(sys) && Holding(sys) && !Closing(sys.pc)
    ensures Holding(DoStart(cfg, sys, opens, name))
  {}

  lemma HoldingKept(cfg: Config, sys: System, step: Step)
    requires Control(sys) && Holding(sys) && Enabled(sys, step)
    ensures Holding(Do(cfg, sys, step))
  {
    match step {
      case PushStep(p, overdue) => HoldingAfterPush(cfg, sys, p, overdue);
      case EndStep(opens, name) => HoldingAfterEnd(cfg, sys, opens, name);
      case StartStep(opens, name) => HoldingAfterStart(cfg, sys, opens, name);
      case _ =>
    }
  }

  lemma ClosedAfterPush(cfg: Config, sys: System, p: Packet, overdue: bool)
    requires Control(sys) && Holding(sys) && FilesClosed(sys) && sys.pc == Idle
    ensures FilesClosed(DoPush(cfg, sys, p, overdue))
  {}

  lemma ClosedAfterEnd(cfg: Config, sys: System, opens: bool, name: string)
    requires Control(sys) && Holding(sys) && FilesClosed(sys) && sys.pc.Written?
    ensures FilesClosed(DoEnd(cfg, sys, opens, name))
  {}

  lemma ClosedAfterStart(cfg: Config, sys: System, opens: bool, name: string)
    requires Control(sys) && Holding(sys) && FilesClosed(sys) && !Closing(sys.pc)
    ensures FilesClosed(DoStart(cfg, sys, opens, name))
  {}

  lemma FilesClosedKept(cfg: Config, sys: System, step: Step)
    requires Control(sys) && Holding(sys) && FilesClosed(sys) && Enabled(sys, step)
    ensures FilesClosed(Do(cfg, sys, step))
  {
    match step {
      case PushStep(p, overdue) => ClosedAfterPush(cfg, sys, p, overdue);
      case EndStep(opens, name) => ClosedAfterEnd(cfg, sys, opens, name);
      case StartStep(opens, name) => ClosedAfterStart(cfg, sys, opens, name);
      case _ =>
    }
  }

  // ------------------------------------------------------------------ the pre-buffer

  /** The counters are right, the bounds hold, and the buffer is what `LastGroups` says. */
  ghost predicate Buffered(cfg: Config, sys: System) {
    && (!sys.s.down ==> sys.s.keys == Keys(sys.s.pre) && sys.s.bytes == Bytes(sys.s.pre))
    && Keys(sys.s.pre) <= cfg.preKeys && |sys.s.pre| <= MAX_PRE_BUFFER_PACKETS
    && Bytes(sys.s.pre) <= MAX_PRE_BUFFER_BYTES
    && (sys.s.state != PRE_BUFFER ==> sys.s.pre == [] && sys.since == [])
    && sys.s.pre == LastGroups(sys.since, cfg.preKeys)
  }

  lemma BufferedKept(cfg: Config, sys: System, step: Step)
    requires Control(sys) && Holding(sys) && Buffered(cfg, sys) && Enabled(sys, step)
    ensures Buffered(cfg, Do(cfg, sys, step))
  {
    if step.PushStep? {
      BufferedPush(cfg, sys, step.p, step.overdue);
    }
  }

  lemma BufferedPush(cfg: Config, sys: System, p: Packet, overdue: bool)
    requires Control(sys) && Buffered(cfg, sys) && sys.pc == Idle
    ensures Buffered(cfg, DoPush(cfg, sys, p, overdue))
  {
    if sys.s.state == PRE_BUFFER && Accepts(p) {
      var kept := Trim(sys.s.pre + [p], cfg.preKeys);
      TrimBounds(sys.s.pre + [p], cfg.preKeys);
      SinceGrows(sys.since, sys.s.pre, p, cfg.preKeys);
    }
  }

  /** The history and what the buffer is of it, after a push. */
  lemma SinceGrows(since: seq<Packet>, pre: seq<Packet>, p: Packet, limit: nat)
    requires pre == LastGroups(since, limit)
    ensures var kept := Trim(pre + [p], limit);
            kept == LastGroups(if kept == KeepKeys(pre + [p], limit) then since + [p] else kept, limit)
  {
    TrimBounds(pre + [p], limit);
    LastGroupsSnoc(since, p, limit);
    LastGroupsFixed(Trim(pre + [p], limit), limit);
  }

  // ------------------------------------------------------------------ the recorded slices

  function End(sys: System, j: nat): nat
    requires j < |sys.s.files| == |sys.from|
  {
    sys.from[j] + |sys.s.files[j].packets|
  }

  /** File j holds the accepted packets from `from[j]` on, in order. */
  ghost predicate IsSlice(sys: System, j: nat)
    requires j < |sys.s.files| == |sys.from|
  {
    End(sys, j) <= |sys.accepted| && sys.s.files[j].packets == sys.accepted[sys.from[j]..End(sys, j)]
  }

  /** File j + 1 continues file j without a gap, or belongs to a later event. */
  ghost predicate Follows(sys: System, j: nat)
    requires j + 1 < |sys.s.files| == |sys.from|
  {
    var f, g := sys.s.files[j], sys.s.files[j + 1];
    if f.event == g.event then End(sys, j) == sys.from[j + 1] && g.chunk == f.chunk + 1
    else f.event < g.event && End(sys, j) <= sys.from[j + 1] && g.chunk == 0
  }

  ghost predicate Sliced(sys: System) {
    && |sys.from| == |sys.s.files|
    && (forall j | 0 <= j < |sys.from| :: IsSlice(sys, j))
    && (forall j | 0 <= j < |sys.from| - 1 :: Follows(sys, j))
    && (sys.from != [] ==> sys.s.files[0].chunk == 0 && sys.s.files[|sys.from| - 1].event <= sys.s.eventId)
    && IsSuffix(sys.s.pre, sys.accepted)
    && (sys.from != [] ==>
          var last := End(sys, |sys.from| - 1);
          if sys.s.out.Some? then last == |sys.accepted| else last <= |sys.accepted| - |sys.s.pre|)
  }

  ghost predicate SameFile(f: File, g: File) {
    f.event == g.event && f.chunk == g.chunk && f.packets == g.packets
  }

  /** Steps that neither accept a packet nor open a file. */
  lemma SlicedSame(sys: System, t: System)
    requires Sliced(sys)
    requires t.from == sys.from && t.accepted == sys.accepted && |t.s.files| == |sys.s.files|
    requires forall j | 0 <= j < |sys.s.files| :: SameFile(t.s.files[j], sys.s.files[j])
    requires t.s.eventId >= sys.s.eventId
    requires t.s.pre == sys.s.pre || t.s.pre == []
    requires t.s.out == sys.s.out || (t.s.out.None? && sys.s.pre == [])
    ensures Sliced(t)
  {
    forall j | 0 <= j < |t.from| ensures IsSlice(t, j) && End(t, j) == End(sys, j) {
      assert IsSlice(sys, j) && SameFile(t.s.files[j], sys.s.files[j]);
    }
    forall j | 0 <= j < |t.from| - 1 ensures Follows(t, j) {
      assert Follows(sys, j) && SameFile(t.s.files[j], sys.s.files[j]) && SameFile(t.s.files[j + 1], sys.s.files[j + 1]);
    }
    if t.from != [] {
      assert SameFile(t.s.files[0], sys.s.files[0]);
    }
  }

  /** A packet is accepted while no file is open. */
  lemma SlicedUnwritten(sys: System, t: System, p: Packet)
    requires Sliced(sys) && sys.s.out.None? && t.s.out.None?
    requires t.accepted == sys.accepted + [p] && t.from == sys.from
    requires t.s.files == sys.s.files && t.s.eventId == sys.s.eventId
    requires IsSuffix(t.s.pre, sys.s.pre + [p])
    ensures Sliced(t)
  {
    forall j | 0 <= j < |t.from| ensures IsSlice(t, j) && End(t, j) == End(sys, j) {
      assert IsSlice(sys, j);
      assert t.accepted[..|sys.accepted|] == sys.accepted;
    }
    forall j | 0 <= j < |t.from| - 1 ensures Follows(t, j) {
      assert Follows(sys, j);
    }
    SuffixOfHistory(sys.s.pre, sys.accepted, p, t.s.pre);
  }

  lemma SuffixOfHistory(pre: seq<Packet>, accepted: seq<Packet>, p: Packet, kept: seq<Packet>)
    requires IsSuffix(pre, accepted) && IsSuffix(kept, pre + [p])
    ensures IsSuffix(kept, accepted + [p])
  {
    assert (accepted + [p])[|accepted| - |pre|..] == pre + [p];
    SuffixTrans(pre + [p], kept, accepted + [p]);
  }

  /** A packet is accepted and written to the last file. */
  lemma SlicedWritten(sys: System, t: System, p: Packet)
    requires Sliced(sys) && sys.s.out.Some? && t.s.out.Some? && sys.s.pre == t.s.pre == [] && |sys.s.files| > 0
    requires t.accepted == sys.accepted + [p] && t.from == sys.from && t.s.eventId == sys.s.eventId
    requires var last := |sys.s.files| - 1;
             t.s.files == sys.s.files[last := Append(sys.s.files[last], [p])]
    ensures Sliced(t)
  {
    var last := |sys.s.files| - 1;
    assert t.accepted[..|sys.accepted|] == sys.accepted;
    forall j | 0 <= j < last ensures IsSlice(t, j) && End(t, j) == End(sys, j) {
      assert IsSlice(sys, j);
    }
    assert IsSlice(sys, last);
    SliceGrows(sys.accepted, sys.from[last], sys.s.files[last].packets, p);
    assert IsSlice(t, last);
    forall j | 0 <= j < |t.from| - 1 ensures Follows(t, j) {
      assert Follows(sys, j);
    }
  }

  lemma SliceGrows(s: seq<Packet>, at: nat, packets: seq<Packet>, p: Packet)
    requires at + |packets| == |s| && packets == s[at..]
    ensures packets + [p] == (s + [p])[at..at + |packets| + 1]
  {}

  /** A file is opened; it gets what was buffered. */
  lemma SlicedOpened(sys: System, t: System, f: File)
    requires Sliced(sys) && sys.s.pre == f.packets && t.s.pre == [] && (sys.s.out.Some? ==> sys.s.pre == [])
    requires t.s.files == sys.s.files + [f] && t.accepted == sys.accepted && t.s.out.Some?
    requires t.from == sys.from + [|sys.accepted| - |sys.s.pre|] && t.s.eventId == f.event
    requires if sys.s.eventId < f.event then f.chunk == 0
             else sys.s.out.Some? && sys.s.pre == [] && |sys.s.files| > 0
                  && var g := sys.s.files[|sys.s.files| - 1]; f.event == g.event && f.chunk == g.chunk + 1
    ensures Sliced(t)
  {
    forall j | 0 <= j < |t.from| ensures IsSlice(t, j) && (j < |sys.from| ==> End(t, j) == End(sys, j)) {
      if j < |sys.from| {
        assert IsSlice(sys, j);
      }
    }
    forall j | 0 <= j < |t.from| - 1 ensures Follows(t, j) {
      if j < |sys.from| - 1 {
        assert Follows(sys, j);
      }
    }
  }

  lemma SlicedPush(cfg: Config, sys: System, p: Packet, overdue: bool)
    requires Control(sys) && Holding(sys) && Buffered(cfg, sys) && Sliced(sys) && sys.pc == Idle
    ensures Sliced(DoPush(cfg, sys, p, overdue))
  {
    var t := DoPush(cfg, sys, p, overdue);
    if !Accepts(p) {
      SlicedSame(sys, t);
    } else if sys.s.out.Some? {
      SlicedWritten(sys, t, p);
    } else if sys.s.state == PRE_BUFFER {
      TrimBounds(sys.s.pre + [p], cfg.preKeys);
      SlicedUnwritten(sys, t, p);
    } else {
      SlicedUnwritten(sys, t, p);
    }
  }

  lemma StartOpens(cfg: Config, s: Session, name: string)
    requires s.state == PRE_BUFFER
    ensures Start(cfg, s, true, name).files == s.files + [File(s.eventId + 1, 0, s.pre, 0)]
  {
    assert [] + s.pre == s.pre;
  }

  lemma SlicedStart(cfg: Config, sys: System, opens: bool, name: string)
    requires Control(sys) && Holding(sys) && Buffered(cfg, sys) && Sliced(sys) && sys.s.state == PRE_BUFFER
    ensures Sliced(DoStart(cfg, sys, opens, name))
  {
    var t := DoStart(cfg, sys, opens, name);
    if opens {
      StartOpens(cfg, sys.s, name);
      SlicedOpened(sys, t, File(sys.s.eventId + 1, 0, sys.s.pre, 0));
    } else {
      SlicedSame(sys, t);
    }
  }

  lemma SlicedEnd(cfg: Config, sys: System, opens: bool, name: string)
    requires Control(sys) && Holding(sys) && Buffered(cfg, sys) && Sliced(sys) && sys.pc.Written?
    ensures Sliced(DoEnd(cfg, sys, opens, name))
  {
    var t := DoEnd(cfg, sys, opens, name);
    if sys.pc.job == Rotate && opens {
      SlicedOpened(sys, t, File(sys.s.eventId, sys.s.chunkIdx + 1, [], 0));
    } else {
      SlicedSame(sys, t);
    }
  }

  lemma SlicedKept(cfg: Config, sys: System, step: Step)
    requires Control(sys) && Holding(sys) && Buffered(cfg, sys) && Sliced(sys) && Enabled(sys, step)
    ensures Sliced(Do(cfg, sys, step))
  {
    match step {
      case PushStep(p, overdue) => SlicedPush(cfg, sys, p, overdue);
      case EndStep(opens, name) => SlicedEnd(cfg, sys, opens, name);
      case StartStep(opens, name) =>
        if sys.s.state == PRE_BUFFER { SlicedStart(cfg, sys, opens, name); }
      case BeginStep => SlicedSame(sys, DoBegin(sys));
      case TakeStep => SlicedSame(sys, DoTake(sys));
      case TrailerStep => SlicedSame(sys, DoTrailer(sys));
      case LostStep => SlicedSame(sys, DoLost(sys));
      case ContinueStep => SlicedSame(sys, DoContinue(sys));
      case StopStep => SlicedSame(sys, DoStop(sys));
      case ShutStep => SlicedSame(sys, DoShut(sys));
    }
  }

  // ------------------------------------------------------------------ no packet is lost track of

  /** All packets handed to the writer. */
  function Recorded(files: seq<File>): seq<Packet>
    decreases |files|
  {
    if files == [] then [] else Recorded(files[..|files| - 1]) + files[|files| - 1].packets
  }

  /** Every packet pushed is either buffered or has been freed, once; what was recorded has been freed. */
  ghost predicate Conserved(sys: System) {
    && multiset(sys.pushed) == multiset(sys.s.pre) + multiset(sys.s.freed)
    && multiset(Recorded(sys.s.files)) <= multiset(sys.s.freed)
  }

  lemma {:induction false} RecordedSame(fs: seq<File>, gs: seq<File>)
    requires |fs| == |gs| && forall j | 0 <= j < |fs| :: SameFile(fs[j], gs[j])
    ensures Recorded(fs) == Recorded(gs)
    decreases |fs|
  {
    if fs != [] {
      RecordedSame(fs[..|fs| - 1], gs[..|gs| - 1]);
      assert SameFile(fs[|fs| - 1], gs[|gs| - 1]);
    }
  }

  lemma RecordedGrows(fs: seq<File>, ps: seq<Packet>)
    requires fs != []
    ensures Recorded(fs[|fs| - 1 := Append(fs[|fs| - 1], ps)]) == Recorded(fs) + ps
  {
    var gs := fs[|fs| - 1 := Append(fs[|fs| - 1], ps)];
    assert gs[..|gs| - 1] == fs[..|fs| - 1];
  }

  lemma RecordedOpens(fs: seq<File>, f: File)
    ensures Recorded(fs + [f]) == Recorded(fs) + f.packets
  {
    assert (fs + [f])[..|fs|] == fs;
  }

  /** Steps that push nothing: the files keep their packets, the buffer stays or is freed. */
  lemma ConservedSame(sys: System, t: System)
    requires Conserved(sys) && t.pushed == sys.pushed && |t.s.files| == |sys.s.files|
    requires forall j | 0 <= j < |sys.s.files| :: SameFile(t.s.files[j], sys.s.files[j])
    requires || (t.s.pre == sys.s.pre && t.s.freed == sys.s.freed)
             || (t.s.pre == [] && t.s.freed == sys.s.freed + sys.s.pre)
    ensures Conserved(t)
  {
    RecordedSame(t.s.files, sys.s.files);
  }

  /** A pushed packet joins the buffer, whose front is freed. */
  lemma ConservedBuffered(sys: System, t: System, p: Packet)
    requires Conserved(sys) && t.pushed == sys.pushed + [p] && t.s.files == sys.s.files
    requires IsSuffix(t.s.pre, sys.s.pre + [p])
    requires t.s.freed == sys.s.freed + (sys.s.pre + [p])[..|sys.s.pre + [p]| - |t.s.pre|]
    ensures Conserved(t)
  {
    var all := sys.s.pre + [p];
    var front := all[..|all| - |t.s.pre|];
    assert all == front + t.s.pre;
    assert multiset(front + t.s.pre) == multiset(front) + multiset(t.s.pre);
    assert multiset(sys.s.pre + [p]) == multiset(sys.s.pre) + multiset([p]);
    assert multiset(sys.s.freed + front) == multiset(sys.s.freed) + multiset(front);
    Rearrange(multiset(sys.pushed), multiset(sys.s.pre), multiset(sys.s.freed), multiset([p]), multiset(front), multiset(t.s.pre));
  }

  lemma Rearrange<T>(pushed: multiset<T>, pre: multiset<T>, freed: multiset<T>, p: multiset<T>, front: multiset<T>, kept: multiset<T>)
    requires pushed == pre + freed && front + kept == pre + p
    ensures pushed + p == kept + (freed + front)
  {
    forall x: T ensures (pushed + p)[x] == (kept + (freed + front))[x] {
      assert (front + kept)[x] == (pre + p)[x];
    }
  }

  lemma ConservedDropped(sys: System, t: System, p: Packet)
    requires Conserved(sys) && t.pushed == sys.pushed + [p] && t.s.files == sys.s.files
    requires t.s.pre == sys.s.pre && t.s.freed == sys.s.freed + [p]
    ensures Conserved(t)
  {}

  lemma ConservedWritten(sys: System, t: System, p: Packet)
    requires Conserved(sys) && t.pushed == sys.pushed + [p] && |sys.s.files| > 0
    requires var last := |sys.s.files| - 1;
             t.s.files == sys.s.files[last := Append(sys.s.files[last], [p])]
    requires t.s.pre == sys.s.pre && t.s.freed == sys.s.freed + [p]
    ensures Conserved(t)
  {
    RecordedGrows(sys.s.files, [p]);
    BothGrow(Recorded(sys.s.files), sys.s.freed, [p]);
  }

  lemma BothGrow(recorded: seq<Packet>, freed: seq<Packet>, ps: seq<Packet>)
    requires multiset(recorded) <= multiset(freed)
    ensures multiset(recorded + ps) <= multiset(freed + ps)
  {}

  lemma ConservedPush(cfg: Config, sys: System, p: Packet, overdue: bool)
    requires Control(sys) && Holding(sys) && Conserved(sys) && sys.pc == Idle
    ensures Conserved(DoPush(cfg, sys, p, overdue))
  {
    var t := DoPush(cfg, sys, p, overdue);
    if !Accepts(p) {
      ConservedDropped(sys, t, p);
    } else if sys.s.state == PRE_BUFFER {
      TrimBounds(sys.s.pre + [p], cfg.preKeys);
      ConservedBuffered(sys, t, p);
    } else if sys.s.out.Some? {
      ConservedWritten(sys, t, p);
    } else {
      ConservedDropped(sys, t, p);
    }
  }

  /** The buffer goes into a new file. */
  lemma ConservedDrained(sys: System, t: System, f: File)
    requires Conserved(sys) && t.pushed == sys.pushed && t.s.files == sys.s.files + [f] && f.packets == sys.s.pre
    requires t.s.pre == [] && t.s.freed == sys.s.freed + sys.s.pre
    ensures Conserved(t)
  {
    RecordedOpens(sys.s.files, f);
    BothGrow(Recorded(sys.s.files), sys.s.freed, sys.s.pre);
  }

  lemma ConservedStart(cfg: Config, sys: System, opens: bool, name: string)
    requires Holding(sys) && Conserved(sys) && sys.s.state == PRE_BUFFER
    ensures Conserved(DoStart(cfg, sys, opens, name))
  {
    var t := DoStart(cfg, sys, opens, name);
    if opens {
      StartOpens(cfg, sys.s, name);
      ConservedDrained(sys, t, File(sys.s.eventId + 1, 0, sys.s.pre, 0));
    } else {
      ConservedSame(sys, t);
    }
  }

  lemma ConservedEnd(cfg: Config, sys: System, opens: bool, name: string)
    requires Conserved(sys) && sys.pc.Written?
    ensures Conserved(DoEnd(cfg, sys, opens, name))
  {
    var t := DoEnd(cfg, sys, opens, name);
    if sys.pc.job == Rotate && opens {
      ConservedOpened(sys, t, File(sys.s.eventId, sys.s.chunkIdx + 1, [], 0));
    } else {
      ConservedSame(sys, t);
    }
  }

  lemma ConservedOpened(sys: System, t: System, f: File)
    requires Conserved(sys) && t.pushed == sys.pushed && t.s.files == sys.s.files + [f] && f.packets == []
    requires t.s.pre == sys.s.pre && t.s.freed == sys.s.freed
    ensures Conserved(t)
  {
    RecordedOpens(sys.s.files, f);
    assert Recorded(sys.s.files) + [] == Recorded(sys.s.files);
  }

  lemma ConservedKept(cfg: Config, sys: System, step: Step)
    requires Control(sys) && Holding(sys) && Conserved(sys) && Enabled(sys, step)
    ensures Conserved(Do(cfg, sys, step))
  {
    match step {
      case PushStep(p, overdue) => ConservedPush(cfg, sys, p, overdue);
      case EndStep(opens, name) => ConservedEnd(cfg, sys, opens, name);
      case StartStep(opens, name) =>
        if sys.s.state == PRE_BUFFER { ConservedStart(cfg, sys, opens, name); }
      case BeginStep => ConservedSame(sys, DoBegin(sys));
      case TakeStep => ConservedSame(sys, DoTake(sys));
      case TrailerStep => ConservedSame(sys, DoTrailer(sys));
      case LostStep => ConservedSame(sys, DoLost(sys));
      case ContinueStep => ConservedSame(sys, DoContinue(sys));
      case StopStep => ConservedSame(sys, DoStop(sys));
      case ShutStep => ConservedSame(sys, DoShut(sys));
    }
  }

  // ------------------------------------------------------------------ the post-buffer

  /** The count is that of the key frames accepted since the stop, and short of its limit between two pushes. */
  ghost predicate Ending(cfg: Config, sys: System) {
    sys.s.state == POST_BUFFER ==>
      && sys.stopped <= |sys.accepted|
      && sys.s.postKeys == Keys(sys.accepted[sys.stopped..])
      && (sys.pc == Idle && sys.stopped < |sys.accepted| ==> sys.s.postKeys < cfg.postKeys)
  }

  lemma EndingKept(cfg: Config, sys: System, step: Step)
    requires Control(sys) && Holding(sys) && Ending(cfg, sys) && Enabled(sys, step)
    ensures Ending(cfg, Do(cfg, sys, step))
  {
    match step {
      case PushStep(p, overdue) => EndingAfterPush(cfg, sys, p, overdue);
      case EndStep(opens, name) => EndingAfterEnd(cfg, sys, opens, name);
      case StopStep =>
        assert sys.accepted[|sys.accepted|..] == [];
      case _ =>
    }
  }

  lemma EndingAfterPush(cfg: Config, sys: System, p: Packet, overdue: bool)
    requires Control(sys) && Ending(cfg, sys) && sys.pc == Idle
    ensures Ending(cfg, DoPush(cfg, sys, p, overdue))
  {
    if sys.s.state == POST_BUFFER && Accepts(p) {
      assert (sys.accepted + [p])[sys.stopped..] == sys.accepted[sys.stopped..] + [p];
      SumsSnoc(sys.accepted[sys.stopped..], p);
    }
  }

  /** No finalization leads to POST_BUFFER. */
  lemma EndingAfterEnd(cfg: Config, sys: System, opens: bool, name: string)
    requires Control(sys) && sys.pc.Written?
    ensures Ending(cfg, DoEnd(cfg, sys, opens, name))
  {}

  // ------------------------------------------------------------------ rotation

  /**
    The chunk number stays within the limit but for the continuations that came between a push in
    POST_BUFFER and its finalization, each of which is good for one more.
  */
  ghost predicate Numbered(cfg: Config, sys: System) {
    cfg.maxChunks > 0 ==>
      && sys.s.chunkIdx <= cfg.maxChunks + sys.late
      && (sys.pc == Scheduled(false) ==> sys.s.chunkIdx < cfg.maxChunks + sys.late)
      && (sys.pc == Scheduled(true) && sys.s.state == RECORDING ==> sys.s.chunkIdx < cfg.maxChunks + sys.late)
      && ((sys.pc.Entered? || sys.pc.Writing? || sys.pc.Written?) && sys.pc.job == Rotate
          ==> sys.s.chunkIdx < cfg.maxChunks + sys.late)
  }

  /** With neither a time nor a size limit, only late continuations rotate. */
  ghost predicate Unrotated(cfg: Config, sys: System) {
    !cfg.timed && cfg.maxKbytes <= 0 ==>
      && sys.s.chunkIdx <= sys.late && sys.pc != Scheduled(false)
      && (sys.pc == Scheduled(true) && sys.s.state == RECORDING ==> sys.s.chunkIdx < sys.late)
      && ((sys.pc.Entered? || sys.pc.Writing? || sys.pc.Written?) && sys.pc.job == Rotate ==> sys.s.chunkIdx < sys.late)
  }

  lemma UnrotatedKept(cfg: Config, sys: System, step: Step)
    requires Control(sys) && Holding(sys) && Unrotated(cfg, sys) && Enabled(sys, step)
    ensures Unrotated(cfg, Do(cfg, sys, step))
  {}

  ghost predicate LastChunk(sys: System) {
    var n := |sys.s.files|;
    n > 0 && sys.s.files[n - 1].event == sys.s.eventId ==> sys.s.files[n - 1].chunk <= sys.s.chunkIdx
  }

  lemma LastChunkAfterPush(cfg: Config, sys: System, p: Packet, overdue: bool)
    requires LastChunk(sys)
    ensures LastChunk(DoPush(cfg, sys, p, overdue))
  {}

  lemma LastChunkAfterEnd(cfg: Config, sys: System, opens: bool, name: string)
    requires LastChunk(sys) && sys.pc.Written?
    ensures LastChunk(DoEnd(cfg, sys, opens, name))
  {}

  /** No file belongs to a later event than the last. */
  lemma LastChunkAfterStart(cfg: Config, sys: System, opens: bool, name: string)
    requires LastChunk(sys) && (sys.s.files != [] ==> sys.s.files[|sys.s.files| - 1].event <= sys.s.eventId)
    ensures LastChunk(DoStart(cfg, sys, opens, name))
  {
    if sys.s.state == PRE_BUFFER && opens {
      StartOpens(cfg, sys.s, name);
    }
  }

  lemma LastChunkKept(cfg: Config, sys: System, step: Step)
    requires Control(sys) && Holding(sys) && Sliced(sys) && LastChunk(sys) && Enabled(sys, step)
    ensures LastChunk(Do(cfg, sys, step))
  {
    match step {
      case PushStep(p, overdue) => LastChunkAfterPush(cfg, sys, p, overdue);
      case EndStep(opens, name) => LastChunkAfterEnd(cfg, sys, opens, name);
      case StartStep(opens, name) => LastChunkAfterStart(cfg, sys, opens, name);
      case _ =>
    }
  }

  lemma NumberedKept(cfg: Config, sys: System, step: Step)
    requires Control(sys) && Holding(sys) && Numbered(cfg, sys) && Enabled(sys, step)
    ensures Numbered(cfg, Do(cfg, sys, step))
  {
    match step {
      case PushStep(p, overdue) => NumberedAfterPush(cfg, sys, p, overdue);
      case EndStep(opens, name) => NumberedAfterEnd(cfg, sys, opens, name);
      case _ =>
    }
  }

  lemma NumberedAfterPush(cfg: Config, sys: System, p: Packet, overdue: bool)
    requires Control(sys) && Numbered(cfg, sys) && sys.pc == Idle
    ensures Numbered(cfg, DoPush(cfg, sys, p, overdue))
  {}

  lemma NumberedAfterEnd(cfg: Config, sys: System, opens: bool, name: string)
    requires Numbered(cfg, sys) && sys.pc.Written?
    ensures Numbered(cfg, DoEnd(cfg, sys, opens, name))
  {}

  /** With a file open and the chunk limit not reached, a chunk is short of its size between two pushes. */
  ghost predicate Sized(cfg: Config, sys: System) {
    cfg.maxKbytes > 0 && sys.s.out.Some? && !AtCount(cfg, sys.s) ==>
      && (sys.pc == Idle && InEvent(sys.s.state) ==> sys.s.chunkBytes < cfg.maxKbytes * 1024)
      && (sys.pc.Scheduled? ==> sys.s.chunkBytes < cfg.maxKbytes * 1024 + MAX_REASONABLE_PACKET_SIZE)
  }

  lemma SizedKept(cfg: Config, sys: System, step: Step)
    requires Control(sys) && Holding(sys) && Sized(cfg, sys) && Enabled(sys, step)
    ensures Sized(cfg, Do(cfg, sys, step))
  {}

  /** The bytes counted against the size of a chunk are those accepted in RECORDING since it began. */
  ghost predicate Accumulated(sys: System) {
    sys.s.chunkBytes == Bytes(sys.chunk)
  }

  lemma AccumulatedAfterPush(cfg: Config, sys: System, p: Packet, overdue: bool)
    requires Accumulated(sys) && Control(sys) && sys.pc == Idle
    ensures Accumulated(DoPush(cfg, sys, p, overdue))
  {
    SumsSnoc(sys.chunk, p);
  }

  lemma AccumulatedKept(cfg: Config, sys: System, step: Step)
    requires Control(sys) && Holding(sys) && Accumulated(sys) && Enabled(sys, step)
    ensures Accumulated(Do(cfg, sys, step))
  {
    match step {
      case PushStep(p, overdue) => AccumulatedAfterPush(cfg, sys, p, overdue);
      case _ =>
    }
  }

  // ------------------------------------------------------------------ every run

  ghost predicate Safe(cfg: Config, sys: System) {
    && Control(sys) && Holding(sys) && FilesClosed(sys)
    && Buffered(cfg, sys) && Sliced(sys) && Conserved(sys) && Ending(cfg, sys)
    && Numbered(cfg, sys) && Unrotated(cfg, sys) && LastChunk(sys) && Sized(cfg, sys) && Accumulated(sys)
  }

  lemma SafeKept(cfg: Config, sys: System, step: Step)
    requires Safe(cfg, sys) && Enabled(sys, step)
    ensures Safe(cfg, Do(cfg, sys, step))
  {
    ControlKept(cfg, sys, step);
    HoldingKept(cfg, sys, step);
    FilesClosedKept(cfg, sys, step);
    BufferedKept(cfg, sys, step);
    SlicedKept(cfg, sys, step);
    ConservedKept(cfg, sys, step);
    EndingKept(cfg, sys, step);
    NumberedKept(cfg, sys, step);
    UnrotatedKept(cfg, sys, step);
    LastChunkKept(cfg, sys, step);
    SizedKept(cfg, sys, step);
    AccumulatedKept(cfg, sys, step);
  }

  lemma {:induction false} RunIsSafe(cfg: Config, sys: System, steps: seq<Step>)
    requires Safe(cfg, sys)
    ensures Run(cfg, sys, steps).Some? ==> Safe(cfg, Run(cfg, sys, steps).value)
    decreases |steps|
  {
    if steps != [] && Enabled(sys, steps[0]) {
      SafeKept(cfg, sys, steps[0]);
      RunIsSafe(cfg, Do(cfg, sys, steps[0]), steps[1..]);
    }
  }

  /** A system as new as the initial one. */
  ghost predicate Fresh(sys: System) {
    && sys.s == NewSession() && sys.pc == Idle
    && sys.pushed == [] && sys.accepted == [] && sys.from == [] && sys.since == [] && sys.chunk == []
  }

  lemma FreshIsSafe(cfg: Config, sys: System)
    requires Fresh(sys) && sys.late == 0
    ensures Safe(cfg, sys)
  {
    assert Control(sys) && Holding(sys) && FilesClosed(sys);
    FreshIsBuffered(cfg, sys);
    assert Sliced(sys);
    assert Recorded(sys.s.files) == [];
    assert Conserved(sys);
    assert Numbered(cfg, sys) && Unrotated(cfg, sys) && LastChunk(sys) && Sized(cfg, sys) && Ending(cfg, sys);
    assert Accumulated(sys);
  }

  lemma FreshIsBuffered(cfg: Config, sys: System)
    requires Fresh(sys)
    ensures Buffered(cfg, sys)
  {
    LastGroupsFixed(sys.since, cfg.preKeys);
  }

  lemma ReachableIsSafe(cfg: Config, sys: System)
    requires Reachable(cfg, sys)
    ensures Safe(cfg, sys)
  {
    var steps :| Run(cfg, Initial(), steps) == Some(sys);
    var start := Initial();
    FreshIsSafe(cfg, start);
    RunIsSafe(cfg, start, steps);
  }

  lemma InControl(cfg: Config, sys: System)
    requires Reachable(cfg, sys)
    ensures Control(sys) && Holding(sys)
  {
    ReachableIsSafe(cfg, sys);
  }

  lemma InNumber(cfg: Config, sys: System)
    requires Reachable(cfg, sys)
    ensures Numbered(cfg, sys) && Unrotated(cfg, sys)
  {
    ReachableIsSafe(cfg, sys);
  }

  lemma InEnding(cfg: Config, sys: System)
    requires Reachable(cfg, sys)
    ensures Ending(cfg, sys)
  {
    ReachableIsSafe(cfg, sys);
  }

  lemma InSlices(cfg: Config, sys: System)
    requires Reachable(cfg, sys)
    ensures Sliced(sys) && LastChunk(sys)
  {
    ReachableIsSafe(cfg, sys);
  }

  // ------------------------------------------------------------------ what every run keeps

  /**
    Only the thread that entered FINALIZING leaves it, and until then no other step changes
    anything: in particular a stop that arrives meanwhile is lost.
  */
  lemma FinalizingIsExclusive(cfg: Config, sys: System, step: Step)
    requires Reachable(cfg, sys) && Enabled(sys, step) && sys.s.state == FINALIZING
    ensures step.StartStep? || step.ContinueStep? || step.StopStep? ==> Do(cfg, sys, step) == sys
    ensures Do(cfg, sys, step).s.state == FINALIZING <==> !step.EndStep?
    ensures Do(cfg, sys, step).s.out != sys.s.out ==> step.EndStep?
    ensures !step.PushStep? && !step.LostStep? && !step.ShutStep?
  {
    InControl(cfg, sys);
  }

  /**
    The state graph: an event starts only in PRE_BUFFER, is stopped only while RECORDING and
    continued only in POST_BUFFER; the worker alone enters and leaves FINALIZING, to RECORDING
    after a rotation and else to PRE_BUFFER; shutdown alone leads to IDLE, which nothing leaves.
  */
  lemma StateGraph(cfg: Config, sys: System, step: Step)
    requires Reachable(cfg, sys) && Enabled(sys, step)
    ensures var s, t := sys.s.state, Do(cfg, sys, step).s.state;
            t == match step
                 case StartStep(_, _) => if s == PRE_BUFFER then RECORDING else s
                 case StopStep => if s == RECORDING then POST_BUFFER else s
                 case ContinueStep => if s == POST_BUFFER then RECORDING else s
                 case BeginStep => if sys.s.out.Some? then FINALIZING else if s == POST_BUFFER then PRE_BUFFER else s
                 case LostStep => if s == PRE_BUFFER then s else FINALIZING
                 case EndStep(_, _) =>
                   if sys.pc == Written(Rotate) then RECORDING else if sys.pc == Written(Shut) then IDLE else PRE_BUFFER
                 case ShutStep => IDLE
                 case _ => s
    ensures step.ContinueStep? || step.StopStep? ==>
              var u := Do(cfg, sys, step).s;
              u.files == sys.s.files && u.out == sys.s.out && u.eventId == sys.s.eventId && u.pre == sys.s.pre
  {
    InControl(cfg, sys);
  }

  /**
    After a stop the event goes on exactly until as many key frames as configured have been
    accepted, if at least one packet has: a push asks for the end iff they are there by then.
  */
  lemma EventEndsWhen(cfg: Config, sys: System, p: Packet, overdue: bool)
    requires Reachable(cfg, sys) && sys.pc == Idle && sys.s.state == POST_BUFFER && Accepts(p)
    ensures sys.stopped <= |sys.accepted|
    ensures DoPush(cfg, sys, p, overdue).pc == Scheduled(true) <==> Keys(sys.accepted[sys.stopped..] + [p]) >= cfg.postKeys
    ensures sys.stopped < |sys.accepted| ==> Keys(sys.accepted[sys.stopped..]) < cfg.postKeys
  {
    InControl(cfg, sys);
    InEnding(cfg, sys);
    SumsSnoc(sys.accepted[sys.stopped..], p);
  }

  /** While a trailer is being written, the file it goes to is the open one and has none yet. */
  lemma TakenFileStays(cfg: Config, sys: System)
    requires Reachable(cfg, sys) && sys.pc.Writing?
    ensures sys.s.out == Some(sys.pc.file) && sys.pc.file < |sys.s.files| && sys.s.files[sys.pc.file].trailers == 0
  {
    ReachableIsSafe(cfg, sys);
  }

  /** No file ever gets two trailers, no file but the open one lacks its own, and in PRE_BUFFER none is open. */
  lemma FilesAreClosedOnce(cfg: Config, sys: System)
    requires Reachable(cfg, sys)
    ensures sys.s.state == PRE_BUFFER || sys.pc == Off ==> sys.s.out.None?
    ensures forall j | 0 <= j < |sys.s.files| :: sys.s.files[j].trailers <= 1
    ensures forall j | 0 <= j < |sys.s.files| :: sys.s.files[j].trailers == 0 ==> sys.s.out == Some(j)
    ensures sys.s.out.None? ==> forall j | 0 <= j < |sys.s.files| :: sys.s.files[j].trailers == 1
  {
    ReachableIsSafe(cfg, sys);
  }

  function Joined(files: seq<File>, i: nat, j: nat): seq<Packet>
    requires i <= j <= |files|
    decreases j - i
  {
    if i == j then [] else Joined(files, i, j - 1) + files[j - 1].packets
  }

  lemma {:induction false} EventIsSlice(sys: System, i: nat, j: nat)
    requires Sliced(sys) && i <= j < |sys.from|
    ensures sys.s.files[i].event <= sys.s.files[j].event
    ensures sys.s.files[i].event == sys.s.files[j].event ==>
              && sys.s.files[j].chunk == sys.s.files[i].chunk + (j - i)
              && sys.from[i] <= End(sys, j) <= |sys.accepted|
              && Joined(sys.s.files, i, j + 1) == sys.accepted[sys.from[i]..End(sys, j)]
    ensures i < j ==> End(sys, i) <= sys.from[j]
    decreases j - i
  {
    assert IsSlice(sys, j) && IsSlice(sys, i);
    if i == j {
      assert Joined(sys.s.files, i, j) == [];
      assert [] + sys.s.files[j].packets == sys.s.files[j].packets;
    } else {
      EventIsSlice(sys, i, j - 1);
      assert Follows(sys, j - 1) && IsSlice(sys, j - 1);
      SlicesJoin(sys.accepted, sys.from[i], sys.from[j], End(sys, j));
    }
  }

  lemma SlicesJoin(s: seq<Packet>, a: nat, b: nat, c: nat)
    ensures a <= b <= c <= |s| ==> s[a..b] + s[b..c] == s[a..c]
  {}

  /**
    What is recorded of one event, over all its files, is one slice of the accepted packets; the
    slices of different events do not overlap and come in order; the files of an event are
    numbered without a gap.  While a file is open nothing accepted is missing from it.  This holds
    whichever files fail to open.
  */
  lemma RecordedSlices(cfg: Config, sys: System, i: nat, j: nat)
    requires Reachable(cfg, sys) && i <= j < |sys.s.files|
    ensures |sys.from| == |sys.s.files|
    ensures sys.s.files[i].event == sys.s.files[j].event ==>
              && sys.s.files[j].chunk == sys.s.files[i].chunk + (j - i)
              && sys.from[i] <= End(sys, j) <= |sys.accepted|
              && Joined(sys.s.files, i, j + 1) == sys.accepted[sys.from[i]..End(sys, j)]
    ensures sys.s.files[i].event != sys.s.files[j].event ==>
              sys.s.files[i].event < sys.s.files[j].event && End(sys, i) <= sys.from[j]
    ensures sys.s.out == Some(j) ==> End(sys, j) == |sys.accepted|
  {
    OpenIsUpToDate(cfg, sys, j);
    InSlices(cfg, sys);
    EventIsSlice(sys, i, j);
  }

  lemma OpenIsUpToDate(cfg: Config, sys: System, j: nat)
    requires Reachable(cfg, sys) && j < |sys.s.files|
    ensures |sys.from| == |sys.s.files|
    ensures sys.s.out == Some(j) ==> End(sys, j) == |sys.accepted|
  {
    InControl(cfg, sys);
    InSlices(cfg, sys);
  }

  /** An event whose first file opens begins with the whole pre-buffer, the latest packets accepted. */
  lemma EventBeginsWithBuffer(cfg: Config, sys: System, name: string)
    requires Reachable(cfg, sys) && sys.s.state == PRE_BUFFER
    ensures var t := DoStart(cfg, sys, true, name);
            && t.s.files == sys.s.files + [File(sys.s.eventId + 1, 0, sys.s.pre, 0)]
            && t.from == sys.from + [|sys.accepted| - |sys.s.pre|]
    ensures IsSuffix(sys.s.pre, sys.accepted)
  {
    BufferIsLatest(cfg, sys);
    StartOpens(cfg, sys.s, name);
  }

  /**
    The repository promises that recordings start and end on key frames.  An event that begins with
    buffered packets starts on one exactly when the buffer has had to drop a group, or its history
    starts with one; with a limit of zero, never.
  */
  lemma StartsOnKeyWhen(cfg: Config, sys: System, name: string)
    requires Reachable(cfg, sys) && sys.s.state == PRE_BUFFER && sys.s.pre != []
    ensures var files := DoStart(cfg, sys, true, name).s.files;
            && |files| == |sys.s.files| + 1 && files[|sys.s.files|].packets != [] && sys.since != []
            && (files[|sys.s.files|].packets[0].key
                <==> cfg.preKeys >= 1 && (Keys(sys.since) > cfg.preKeys || sys.since[0].key))
  {
    EventBeginsWithBuffer(cfg, sys, name);
    InBuffer(cfg, sys);
    FirstOfGroups(sys.since, cfg.preKeys);
  }

  /** An event that its post-buffer ends, ends on a key frame, unless no key frame is asked for. */
  lemma EndsOnKey(cfg: Config, sys: System, p: Packet, overdue: bool)
    requires Reachable(cfg, sys) && sys.pc == Idle && sys.s.state == POST_BUFFER && Accepts(p)
    requires DoPush(cfg, sys, p, overdue).pc == Scheduled(true)
    ensures cfg.postKeys >= 1 ==> p.key
    ensures sys.s.out.Some? ==>
              var t := DoPush(cfg, sys, p, overdue).s;
              var begun, proceed := FinalizeBegin(t).0, FinalizeBegin(t).1;
              && proceed && begun.files == t.files && t.out == sys.s.out && |t.files| > 0
              && t.out.value == |t.files| - 1
              && var packets := t.files[|t.files| - 1].packets; packets != [] && packets[|packets| - 1] == p
  {
    InControl(cfg, sys);
    InEnding(cfg, sys);
  }

  /**
    What a failed open costs: as long as no new event begins, a session without an open file adds
    nothing to any file, so the rest of the event is lost.
  */
  lemma {:induction false} FailedOpenIsFinal(cfg: Config, sys: System, steps: seq<Step>)
    requires Reachable(cfg, sys) && sys.s.out.None?
    ensures Run(cfg, sys, steps).Some? ==>
              var t := Run(cfg, sys, steps).value;
              && t.s.eventId >= sys.s.eventId
              && (t.s.eventId == sys.s.eventId ==> t.s.files == sys.s.files && t.s.out.None?)
    decreases |steps|
  {
    if steps != [] && Enabled(sys, steps[0]) {
      var next := Do(cfg, sys, steps[0]);
      InControl(cfg, sys);
      ReachNext(cfg, sys, steps[0]);
      EventsGrow(cfg, next, steps[1..]);
      NothingOpens(cfg, sys, steps[0]);
      if next.s.eventId == sys.s.eventId {
        FailedOpenIsFinal(cfg, next, steps[1..]);
      }
    }
  }

  lemma {:induction false} EventsGrow(cfg: Config, sys: System, steps: seq<Step>)
    ensures Run(cfg, sys, steps).Some? ==> Run(cfg, sys, steps).value.s.eventId >= sys.s.eventId
    decreases |steps|
  {
    if steps != [] && Enabled(sys, steps[0]) { EventsGrow(cfg, Do(cfg, sys, steps[0]), steps[1..]); }
  }

  lemma NothingOpens(cfg: Config, sys: System, step: Step)
    requires Control(sys) && Holding(sys) && Enabled(sys, step) && sys.s.out.None?
    ensures var t := Do(cfg, sys, step).s;
            && t.eventId >= sys.s.eventId
            && (t.eventId == sys.s.eventId ==> t.files == sys.s.files && t.out.None?)
  {}

  /** A limit of time or size then asks for finalizations that return at once; only the end of the event frees the session. */
  lemma NothingToFinalize(cfg: Config, sys: System)
    requires Reachable(cfg, sys) && sys.pc.Scheduled? && sys.s.out.None?
    ensures sys.s.state == RECORDING ==> Do(cfg, sys, BeginStep) == sys.(pc := Idle)
    ensures sys.s.state != RECORDING ==>
              Do(cfg, sys, BeginStep) == sys.(pc := Idle, s := sys.s.(state := PRE_BUFFER, postKeys := 0))
  {
    InControl(cfg, sys);
  }

  lemma BufferIsLatest(cfg: Config, sys: System)
    requires Reachable(cfg, sys)
    ensures IsSuffix(sys.s.pre, sys.accepted)
  {
    InSlices(cfg, sys);
  }

  /** What has been accepted and where a file starts never changes afterwards. */
  lemma HistoryGrows(cfg: Config, sys: System, step: Step)
    requires Enabled(sys, step)
    ensures sys.accepted <= Do(cfg, sys, step).accepted && sys.from <= Do(cfg, sys, step).from
  {}

  /**
    A packet is freed as often as it was pushed and is not buffered any more: never twice, and once
    by the time of shutdown.  A packet handed to the writer has been freed behind it.
  */
  lemma PacketsAreConserved(cfg: Config, sys: System)
    requires Reachable(cfg, sys)
    ensures multiset(sys.pushed) == multiset(sys.s.pre) + multiset(sys.s.freed)
    ensures multiset(Recorded(sys.s.files)) <= multiset(sys.s.freed)
    ensures Closing(sys.pc) ==> sys.s.pre == [] && multiset(sys.pushed) == multiset(sys.s.freed)
    ensures forall p :: multiset(sys.pushed)[p] == 1 ==>
              && multiset(sys.s.freed)[p] <= 1
              && (p in sys.s.pre <==> p !in sys.s.freed)
              && (Closing(sys.pc) ==> multiset(sys.s.freed)[p] == 1)
  {
    ReachableIsSafe(cfg, sys);
    forall p | multiset(sys.pushed)[p] == 1
      ensures multiset(sys.s.freed)[p] <= 1 && (p in sys.s.pre <==> p !in sys.s.freed)
    {
      assert multiset(sys.s.pre)[p] + multiset(sys.s.freed)[p] == 1;
      assert p in sys.s.pre <==> p in multiset(sys.s.pre);
      assert p in sys.s.freed <==> p in multiset(sys.s.freed);
    }
  }

  /** Until shutdown the counters are right; during an event the buffer is empty and both are zero. */
  lemma CountersAreRight(cfg: Config, sys: System)
    requires Reachable(cfg, sys) && !Closing(sys.pc)
    ensures sys.s.keys == Keys(sys.s.pre) && sys.s.bytes == Bytes(sys.s.pre)
    ensures sys.s.keys <= cfg.preKeys && sys.s.bytes <= MAX_PRE_BUFFER_BYTES && |sys.s.pre| <= MAX_PRE_BUFFER_PACKETS
    ensures InEvent(sys.s.state) ==> sys.s.pre == [] && sys.s.keys == 0 && sys.s.bytes == 0
  {
    ReachableIsSafe(cfg, sys);
  }

  /** The buffer is the last groups of pictures of what was pushed since the last emergency. */
  lemma BufferIsLastGroups(cfg: Config, sys: System)
    requires Reachable(cfg, sys)
    ensures cfg.preKeys >= 1 ==> sys.s.pre == KeepKeys(sys.since, cfg.preKeys)
    ensures cfg.preKeys == 0 ==>
              (sys.s.pre == KeepKeys(sys.since, 0) <==> Keys(sys.since) == 0 || sys.since[|sys.since| - 1].key)
  {
    InBuffer(cfg, sys);
    ZeroKeepsWhen(sys.since);
  }

  lemma InBuffer(cfg: Config, sys: System)
    requires Reachable(cfg, sys)
    ensures sys.s.pre == LastGroups(sys.since, cfg.preKeys)
  {
    ReachableIsSafe(cfg, sys);
  }

  /** With a limit of zero, a key frame and another packet behind it leave the other packet. */
  lemma ZeroLimitKeepsMore(cfg: Config, k: Packet, p: Packet) returns (t: System)
    requires cfg.preKeys == 0 && Accepts(k) && k.key && Accepts(p) && !p.key
    ensures Reachable(cfg, t) && t.since == [k, p] && t.s.pre == [p] && KeepKeys(t.since, 0) == []
  {
    var start := InitialIsReachable(cfg);
    var one := FirstInBuffer(cfg, start, k);
    OnePacket(k);
    t := FirstInBuffer(cfg, one, p);
    OnePacket(p);
    assert [] + [k] + [p] == [k, p];
    TwoPackets(k, p);
  }

  /** A push into the empty buffer, which is no emergency. */
  lemma FirstInBuffer(cfg: Config, sys: System, p: Packet) returns (t: System)
    requires Reachable(cfg, sys) && sys.s.state == PRE_BUFFER && sys.pc == Idle && !sys.s.down && Accepts(p)
    requires sys.s.pre == []
    ensures Reachable(cfg, t) && t.s.state == PRE_BUFFER && t.pc == Idle && !t.s.down
    ensures t.since == sys.since + [p] && t.s.pre == KeepKeys([p], cfg.preKeys)
  {
    ReachNext(cfg, sys, PushStep(p, false));
    t := DoPush(cfg, sys, p, false);
    assert [] + [p] == [p];
    OneIsCalm(p, cfg.preKeys);
  }

  lemma OneIsCalm(p: Packet, limit: nat)
    requires Accepts(p)
    ensures Trim([p], limit) == KeepKeys([p], limit)
  {
    OnePacket(p);
    assert KeepKeys([p], limit) == [p] || KeepKeys([p], limit) == [];
  }

  lemma OnePacket(p: Packet)
    ensures Keys([p]) == (if p.key then 1 else 0) && Bytes([p]) == p.size
    ensures KeepKeys([p], 0) == if p.key then [] else [p]
    ensures forall limit: nat :: limit >= 1 ==> KeepKeys([p], limit) == [p]
  {
    assert [p][1..] == [];
    assert FromKey([], 0) == [];
  }

  lemma TwoPackets(k: Packet, p: Packet)
    requires k.key && !p.key
    ensures KeepKeys([k, p], 0) == []
  {
    assert [k, p][1..] == [p];
    OnePacket(p);
    assert Keys([k, p]) == 1;
    FromKeyMeans([k, p], 0);
  }

  /**
    An event has at most one file more than the limit says, and one more for each late
    continuation; without a limit on time and size, one and one more for each.
  */
  lemma ChunksAreBounded(cfg: Config, sys: System)
    requires Reachable(cfg, sys)
    ensures cfg.maxChunks > 0 ==> sys.s.chunkIdx <= cfg.maxChunks + sys.late && Count(sys.s) <= cfg.maxChunks + sys.late + 1
    ensures !cfg.timed && cfg.maxKbytes <= 0 ==> sys.s.chunkIdx <= sys.late && Count(sys.s) <= sys.late + 1
  {
    InNumber(cfg, sys);
    InSlices(cfg, sys);
    CountMeans(sys);
  }

  /** The files of an event. */
  function CountOf(files: seq<File>, event: nat): nat
    decreases |files|
  {
    if files == [] then 0
    else CountOf(files[..|files| - 1], event) + if files[|files| - 1].event == event then 1 else 0
  }

  /** The files of the running event, or the last. */
  function Count(s: Session): nat {
    CountOf(s.files, s.eventId)
  }

  lemma {:induction false} NoneOf(files: seq<File>, event: nat)
    requires forall j | 0 <= j < |files| :: files[j].event != event
    ensures CountOf(files, event) == 0
    decreases |files|
  {
    if files != [] { NoneOf(files[..|files| - 1], event); }
  }

  lemma {:induction false} CountIsChunk(sys: System, j: nat)
    requires Sliced(sys) && j < |sys.s.files|
    ensures CountOf(sys.s.files[..j + 1], sys.s.files[j].event) == sys.s.files[j].chunk + 1
  {
    var files := sys.s.files;
    assert files[..j + 1][..j] == files[..j];
    if j == 0 {
      assert files[..0] == [];
    } else if files[j - 1].event == files[j].event {
      assert Follows(sys, j - 1);
      CountIsChunk(sys, j - 1);
    } else {
      assert Follows(sys, j - 1);
      forall i | 0 <= i < j ensures files[i].event < files[j].event { EventIsSlice(sys, i, j - 1); }
      NoneOf(files[..j], files[j].event);
    }
  }

  lemma CountMeans(sys: System)
    requires Sliced(sys)
    ensures var n := |sys.s.files|;
            Count(sys.s) == if n > 0 && sys.s.files[n - 1].event == sys.s.eventId then sys.s.files[n - 1].chunk + 1 else 0
  {
    var files, n := sys.s.files, |sys.s.files|;
    if n > 0 {
      assert files[..n] == files;
      CountIsChunk(sys, n - 1);
      if files[n - 1].event != sys.s.eventId {
        forall i | 0 <= i < n ensures files[i].event < sys.s.eventId { EventIsSlice(sys, i, n - 1); }
        NoneOf(files, sys.s.eventId);
      }
    }
  }

  /** One step gives the event more files than the limit exactly when the last chunk allowed is rotated and the new file opens. */
  lemma FilesPassLimitWhen(cfg: Config, sys: System, step: Step)
    requires Reachable(cfg, sys) && Enabled(sys, step) && cfg.maxChunks > 0 && Count(sys.s) <= cfg.maxChunks
    ensures Count(Do(cfg, sys, step).s) > cfg.maxChunks
            <==> step.EndStep? && step.opens && sys.pc == Written(Rotate) && sys.s.chunkIdx + 1 == cfg.maxChunks
  {
    var t := Do(cfg, sys, step);
    InControl(cfg, sys);
    InSlices(cfg, sys);
    ReachNext(cfg, sys, step);
    InSlices(cfg, t);
    CountMeans(sys);
    CountMeans(t);
    LastFileAfter(cfg, sys, step);
  }

  /** What a step does to the last file: only a start and a rotation add one. */
  lemma LastFileAfter(cfg: Config, sys: System, step: Step)
    requires Enabled(sys, step) && Control(sys) && Holding(sys)
    ensures var t := Do(cfg, sys, step);
            if step.EndStep? && step.opens && sys.pc == Written(Rotate) then
              && |t.s.files| == |sys.s.files| + 1 && t.s.eventId == sys.s.eventId && sys.s.out.Some?
              && t.s.files[|t.s.files| - 1].event == t.s.eventId
              && t.s.files[|t.s.files| - 1].chunk == sys.s.chunkIdx + 1
            else if step.StartStep? && sys.s.state == PRE_BUFFER then
              && t.s.eventId == sys.s.eventId + 1
              && if step.opens then |t.s.files| == |sys.s.files| + 1 && t.s.files[|t.s.files| - 1].chunk == 0
                 else t.s.files == sys.s.files
            else SameLast(sys.s, t.s)
  {
    match step {
      case StartStep(opens, name) =>
        if sys.s.state == PRE_BUFFER && opens { StartOpens(cfg, sys.s, name); }
      case EndStep(opens, name) => LastFileAfterEnd(cfg, sys, opens, name);
      case PushStep(p, overdue) => LastFileAfterPush(cfg, sys, p, overdue);
      case _ =>
    }
  }

  ghost predicate SameLast(s: Session, t: Session) {
    && |t.files| == |s.files| && t.eventId == s.eventId
    && (|s.files| > 0 ==>
          var f, g := s.files[|s.files| - 1], t.files[|t.files| - 1];
          f.event == g.event && f.chunk == g.chunk)
  }

  lemma LastFileAfterPush(cfg: Config, sys: System, p: Packet, overdue: bool)
    requires Control(sys) && Holding(sys) && sys.pc == Idle
    ensures SameLast(sys.s, DoPush(cfg, sys, p, overdue).s)
  {}

  lemma LastFileAfterEnd(cfg: Config, sys: System, opens: bool, name: string)
    requires Control(sys) && Holding(sys) && sys.pc.Written?
    ensures var t := DoEnd(cfg, sys, opens, name);
            if opens && sys.pc == Written(Rotate) then
              && |t.s.files| == |sys.s.files| + 1 && t.s.eventId == sys.s.eventId && sys.s.out.Some?
              && t.s.files[|t.s.files| - 1].event == t.s.eventId
              && t.s.files[|t.s.files| - 1].chunk == sys.s.chunkIdx + 1
            else SameLast(sys.s, t.s)
  {}

  /**
    A packet accepted while recording asks for a rotation exactly when the chunks have no limit on
    their number or it is not reached, and the time limit is set and reached or the packets of the
    chunk reach the size limit; nothing else is asked for.
  */
  lemma RotatesWhen(cfg: Config, sys: System, p: Packet, overdue: bool)
    requires Reachable(cfg, sys) && sys.pc == Idle && sys.s.state == RECORDING && Accepts(p)
    ensures var t := DoPush(cfg, sys, p, overdue);
            && (t.pc == Scheduled(false)
                <==> && (cfg.maxChunks <= 0 || sys.s.chunkIdx < cfg.maxChunks)
                     && ((cfg.timed && overdue)
                         || (cfg.maxKbytes > 0 && Bytes(sys.chunk + [p]) >= 1024 * cfg.maxKbytes)))
            && (t.pc == Scheduled(false) || t.pc == Idle)
  {
    InControl(cfg, sys);
    InAccumulation(cfg, sys);
    SumsSnoc(sys.chunk, p);
  }

  lemma InAccumulation(cfg: Config, sys: System)
    requires Reachable(cfg, sys)
    ensures sys.s.chunkBytes == Bytes(sys.chunk)
  {
    ReachableIsSafe(cfg, sys);
  }

  /**
    The guard behind it: while the last chunk allowed is being recorded, an accepted packet asks for
    a rotation exactly when a limit of time or size is reached; and with a file open, the rotation
    it asks for, unless an event is stopped meanwhile, gives the event one file more than the limit
    exactly when that file opens.
  */
  lemma LastChunkRotatesWhen(cfg: Config, sys: System, p: Packet, overdue: bool, opens: bool, name: string)
    requires Reachable(cfg, sys) && sys.pc == Idle && sys.s.state == RECORDING && Accepts(p)
    requires sys.s.chunkIdx + 1 == cfg.maxChunks
    ensures var t := DoPush(cfg, sys, p, overdue);
            && (t.pc == Scheduled(false)
                <==> (cfg.timed && overdue) || (cfg.maxKbytes > 0 && Bytes(sys.chunk + [p]) >= 1024 * cfg.maxKbytes))
            && (t.pc == Scheduled(false) || t.pc == Idle)
            && (t.pc == Scheduled(false) && sys.s.out.Some? ==>
                  var u := Run(cfg, t, [BeginStep, TakeStep, TrailerStep, EndStep(opens, name)]);
                  u.Some? && (Count(u.value.s) > cfg.maxChunks <==> opens))
  {
    RotatesWhen(cfg, sys, p, overdue);
    InControl(cfg, sys);
    var t := DoPush(cfg, sys, p, overdue);
    ReachNext(cfg, sys, PushStep(p, overdue));
    if t.pc == Scheduled(false) && sys.s.out.Some? {
      RotationRuns(cfg, t, opens, name);
    }
  }

  lemma RotationRuns(cfg: Config, sys: System, opens: bool, name: string)
    requires Reachable(cfg, sys) && sys.pc == Scheduled(false) && sys.s.state == RECORDING && sys.s.out.Some?
    requires sys.s.chunkIdx + 1 == cfg.maxChunks
    ensures var u := Run(cfg, sys, [BeginStep, TakeStep, TrailerStep, EndStep(opens, name)]);
            u.Some? && (Count(u.value.s) > cfg.maxChunks <==> opens)
  {
    InControl(cfg, sys);
    var t1 := DoBegin(sys);
    ReachNext(cfg, sys, BeginStep);
    InControl(cfg, t1);
    var t2 := DoTake(t1);
    ReachNext(cfg, t1, TakeStep);
    var t3 := DoTrailer(t2);
    ReachNext(cfg, t2, TrailerStep);
    var t4 := DoEnd(cfg, t3, opens, name);
    FourSteps(cfg, sys, BeginStep, TakeStep, TrailerStep, EndStep(opens, name));
    InControl(cfg, t3);
    InSlices(cfg, t3);
    CountMeans(t3);
    FilesPassLimitWhen(cfg, t3, EndStep(opens, name));
  }

  lemma FourSteps(cfg: Config, sys: System, a: Step, b: Step, c: Step, d: Step)
    requires Enabled(sys, a) && Enabled(Do(cfg, sys, a), b) && Enabled(Do(cfg, Do(cfg, sys, a), b), c)
    requires Enabled(Do(cfg, Do(cfg, Do(cfg, sys, a), b), c), d)
    ensures Run(cfg, sys, [a, b, c, d]) == Some(Do(cfg, Do(cfg, Do(cfg, Do(cfg, sys, a), b), c), d))
  {
    var s1 := Do(cfg, sys, a);
    var s2 := Do(cfg, s1, b);
    var s3 := Do(cfg, s2, c);
    assert [a, b, c, d][1..] == [b, c, d] && [b, c, d][1..] == [c, d] && [c, d][1..] == [d] && [d][1..] == [];
    assert Run(cfg, s3, [d]) == Run(cfg, Do(cfg, s3, d), []);
    assert Run(cfg, s2, [c, d]) == Run(cfg, s3, [d]);
    assert Run(cfg, s1, [b, c, d]) == Run(cfg, s2, [c, d]);
  }

  /** One step takes the chunk number over the limit exactly when a continued event is rotated at the limit. */
  lemma LimitIsPassedWhen(cfg: Config, sys: System, step: Step)
    requires Reachable(cfg, sys) && Enabled(sys, step) && 0 < cfg.maxChunks && sys.s.chunkIdx <= cfg.maxChunks
    ensures Do(cfg, sys, step).s.chunkIdx > cfg.maxChunks
            <==> step.EndStep? && sys.pc == Written(Rotate) && sys.s.chunkIdx == cfg.maxChunks
    ensures Do(cfg, sys, step).s.chunkIdx > cfg.maxChunks ==> sys.late > 0
  {
    InControl(cfg, sys);
    InNumber(cfg, sys);
  }

  /** While a file is open and the limit is not reached, its chunk stays below its size but for one packet. */
  lemma ChunkSizeIsBounded(cfg: Config, sys: System)
    requires Reachable(cfg, sys) && cfg.maxKbytes > 0 && sys.s.out.Some? && !AtCount(cfg, sys.s)
    ensures sys.pc == Idle ==> sys.s.chunkBytes < cfg.maxKbytes * 1024
    ensures sys.pc.Scheduled? ==> sys.s.chunkBytes < cfg.maxKbytes * 1024 + MAX_REASONABLE_PACKET_SIZE
  {
    ReachableIsSafe(cfg, sys);
  }

  // ------------------------------------------------------------------ the bounds are reached

  lemma {:induction false} RunOneMore(cfg: Config, sys: System, steps: seq<Step>, step: Step)
    ensures Run(cfg, sys, steps).Some? && Enabled(Run(cfg, sys, steps).value, step) ==>
              Run(cfg, sys, steps + [step]) == Some(Do(cfg, Run(cfg, sys, steps).value, step))
    decreases |steps|
  {
    if steps == [] {
      assert ([] + [step])[1..] == [];
    } else if Enabled(sys, steps[0]) {
      assert (steps + [step])[1..] == steps[1..] + [step];
      RunOneMore(cfg, Do(cfg, sys, steps[0]), steps[1..], step);
    }
  }

  lemma ReachNext(cfg: Config, sys: System, step: Step)
    requires Reachable(cfg, sys) && Enabled(sys, step)
    ensures Reachable(cfg, Do(cfg, sys, step))
  {
    var steps :| Run(cfg, Initial(), steps) == Some(sys);
    RunOneMore(cfg, Initial(), steps, step);
  }

  /** The first event is being recorded, all is well, and `k` chunks are full. */
  ghost predicate Going(cfg: Config, sys: System, k: nat) {
    && Reachable(cfg, sys) && sys.pc == Idle && sys.s.state == RECORDING && !sys.s.down
    && sys.s.out == Some(k) && |sys.s.files| == k + 1 && sys.s.filename != "" && sys.s.chunkIdx == k
    && sys.s.files[0].event == sys.s.eventId
  }

  /** The same, with a finalization asked for. */
  ghost predicate Filled(cfg: Config, sys: System, k: nat) {
    && Reachable(cfg, sys) && sys.pc.Scheduled? && sys.s.state == RECORDING && !sys.s.down
    && sys.s.out == Some(k) && |sys.s.files| == k + 1 && sys.s.filename != "" && sys.s.chunkIdx == k
    && sys.s.files[0].event == sys.s.eventId
  }

  /** From the first region of a finalization to a new file. */
  lemma RotateFrom(cfg: Config, sys: System, k: nat) returns (t: System)
    requires Filled(cfg, sys, k)
    ensures Going(cfg, t, k + 1) && t.late == sys.late
  {
    t := DoBegin(sys);
    ReachNext(cfg, sys, BeginStep);
    ReachNext(cfg, t, TakeStep);
    t := DoTake(t);
    ReachNext(cfg, t, TrailerStep);
    t := DoTrailer(t);
    ReachNext(cfg, t, EndStep(true, "name"));
    t := DoEnd(cfg, t, true, "name");
  }

  /** Packets are recorded until a limit of time or size is reached. */
  lemma {:induction false} FillChunk(cfg: Config, sys: System, k: nat, p: Packet) returns (t: System)
    requires Going(cfg, sys, k) && Rotates(cfg) && k < cfg.maxChunks && Accepts(p)
    ensures Filled(cfg, t, k) && t.late == sys.late
    decreases cfg.maxKbytes * 1024 - sys.s.chunkBytes
  {
    var next := PushChunk(cfg, sys, k, p);
    if next.pc.Scheduled? {
      t := next;
    } else {
      t := FillChunk(cfg, next, k, p);
    }
  }

  lemma PushChunk(cfg: Config, sys: System, k: nat, p: Packet) returns (t: System)
    requires Going(cfg, sys, k) && Rotates(cfg) && k < cfg.maxChunks && Accepts(p)
    ensures t.late == sys.late
    ensures if t.pc.Scheduled? then Filled(cfg, t, k)
            else Going(cfg, t, k) && sys.s.chunkBytes < t.s.chunkBytes < cfg.maxKbytes * 1024
  {
    ReachNext(cfg, sys, PushStep(p, true));
    t := DoPush(cfg, sys, p, true);
  }

  /** Chunks have a limit of time or size. */
  predicate Rotates(cfg: Config) {
    cfg.timed || cfg.maxKbytes > 0
  }

  lemma FirstFile(cfg: Config, sys: System, name: string) returns (t: System)
    requires Reachable(cfg, sys) && sys.s.state == PRE_BUFFER && sys.pc == Idle && !sys.s.down && sys.s.files == []
    ensures Going(cfg, t, 0) && t.late == 0
  {
    ReachNext(cfg, sys, StartStep(true, name));
    t := DoStart(cfg, sys, true, name);
  }

  lemma InitialIsReachable(cfg: Config) returns (t: System)
    ensures Reachable(cfg, t) && t.s.state == PRE_BUFFER && t.pc == Idle && !t.s.down && t.s.files == []
    ensures t.s.pre == [] && t.since == []
  {
    t := Initial();
    assert Run(cfg, Initial(), []) == Some(t);
  }

  lemma FirstEvent(cfg: Config) returns (t: System)
    ensures Going(cfg, t, 0) && t.late == 0
  {
    var start := InitialIsReachable(cfg);
    t := FirstFile(cfg, start, "name");
  }

  lemma NextChunk(cfg: Config, sys: System, k: nat, p: Packet) returns (t: System)
    requires Going(cfg, sys, k) && Rotates(cfg) && k < cfg.maxChunks && Accepts(p)
    ensures Going(cfg, t, k + 1) && t.late == sys.late
  {
    var filled := FillChunk(cfg, sys, k, p);
    t := RotateFrom(cfg, filled, k);
  }

  lemma Fills(cfg: Config, n: nat, p: Packet) returns (t: System)
    requires Rotates(cfg) && n <= cfg.maxChunks && Accepts(p)
    ensures Going(cfg, t, n) && t.late == 0
  {
    t := FirstEvent(cfg);
    for k := 0 to n
      invariant Going(cfg, t, k) && t.late == 0
    {
      t := NextChunk(cfg, t, k, p);
    }
  }

  /** The same as `Going` after a stop. */
  ghost predicate Stopped(cfg: Config, sys: System, k: nat) {
    && Reachable(cfg, sys) && sys.pc == Idle && sys.s.state == POST_BUFFER && !sys.s.down
    && sys.s.out == Some(k) && |sys.s.files| == k + 1 && sys.s.filename != "" && sys.s.chunkIdx == k
    && sys.s.files[0].event == sys.s.eventId
  }

  /** The same, with the end of the event asked for. */
  ghost predicate Full(cfg: Config, sys: System, k: nat) {
    && Reachable(cfg, sys) && sys.pc == Scheduled(true) && sys.s.state == POST_BUFFER && !sys.s.down
    && sys.s.out == Some(k) && |sys.s.files| == k + 1 && sys.s.filename != "" && sys.s.chunkIdx == k
    && sys.s.files[0].event == sys.s.eventId
  }

  lemma PushPost(cfg: Config, sys: System, k: nat, p: Packet) returns (t: System)
    requires Stopped(cfg, sys, k) && Accepts(p) && p.key
    ensures t.late == sys.late && t.s.postKeys == sys.s.postKeys + 1
    ensures if t.s.postKeys >= cfg.postKeys then Full(cfg, t, k) else Stopped(cfg, t, k)
  {
    ReachNext(cfg, sys, PushStep(p, true));
    t := DoPush(cfg, sys, p, true);
  }

  lemma ContinueFull(cfg: Config, sys: System, k: nat) returns (t: System)
    requires Full(cfg, sys, k)
    ensures Filled(cfg, t, k) && t.late == sys.late + 1
  {
    ReachNext(cfg, sys, ContinueStep);
    t := DoContinue(sys);
  }

  /** Key frames are recorded until the post-buffer is full; then, before the finalization, the event is continued. */
  lemma {:induction false} FillPost(cfg: Config, sys: System, k: nat, p: Packet) returns (t: System)
    requires Stopped(cfg, sys, k) && Accepts(p) && p.key
    ensures Filled(cfg, t, k) && t.late == sys.late + 1
    decreases cfg.postKeys - sys.s.postKeys
  {
    var next := PushPost(cfg, sys, k, p);
    if next.s.postKeys >= cfg.postKeys {
      t := ContinueFull(cfg, next, k);
    } else {
      t := FillPost(cfg, next, k, p);
    }
  }

  lemma LateChunk(cfg: Config, sys: System, k: nat, p: Packet) returns (t: System)
    requires Going(cfg, sys, k) && Accepts(p) && p.key
    ensures Going(cfg, t, k + 1) && t.late == sys.late + 1
  {
    ReachNext(cfg, sys, StopStep);
    var stopped := DoStop(sys);
    var filled := FillPost(cfg, stopped, k, p);
    t := RotateFrom(cfg, filled, k);
  }

  lemma OneEvent(cfg: Config, sys: System)
    requires Reachable(cfg, sys) && |sys.s.files| > 0 && sys.s.files[0].event == sys.s.eventId
    ensures forall j | 0 <= j < |sys.s.files| :: sys.s.files[j].event == sys.s.eventId
  {
    InSlices(cfg, sys);
    forall j | 0 <= j < |sys.s.files| ensures sys.s.files[j].event == sys.s.eventId {
      Between(sys, j);
    }
  }

  lemma Between(sys: System, j: nat)
    requires Sliced(sys) && j < |sys.s.files|
    ensures sys.s.files[0].event <= sys.s.files[j].event <= sys.s.eventId
  {
    EventIsSlice(sys, 0, j);
    EventIsSlice(sys, j, |sys.s.files| - 1);
  }

  /**
    The bounds on chunks are met: whenever chunks have a limit of time or size, for every positive
    limit on their number, every post-buffer and every n, some run continues its only event n
    times late and writes that many files and one more than the limit.
  */
  lemma ChunkBoundsAreMet(cfg: Config, p: Packet, n: nat) returns (t: System)
    requires Rotates(cfg) && cfg.maxChunks > 0 && Accepts(p) && p.key
    ensures Reachable(cfg, t) && t.late == n && t.s.chunkIdx == cfg.maxChunks + n
    ensures Count(t.s) == |t.s.files| == cfg.maxChunks + n + 1
  {
    var m := cfg.maxChunks + n;
    t := Fills(cfg, cfg.maxChunks, p);
    t := LateChunks(cfg, t, cfg.maxChunks, m, p);
    GoingCounts(cfg, t, m);
  }

  lemma {:induction false} LateChunks(cfg: Config, sys: System, k: nat, m: nat, p: Packet) returns (t: System)
    requires Going(cfg, sys, k) && k <= m && Accepts(p) && p.key
    ensures Going(cfg, t, m) && t.late == sys.late + (m - k)
    decreases m - k
  {
    if k == m {
      t := sys;
    } else {
      var next := LateChunk(cfg, sys, k, p);
      t := LateChunks(cfg, next, k + 1, m, p);
    }
  }

  lemma GoingCounts(cfg: Config, sys: System, k: nat)
    requires Going(cfg, sys, k)
    ensures Reachable(cfg, sys) && sys.s.chunkIdx == k && Count(sys.s) == |sys.s.files| == k + 1
  {
    OneEvent(cfg, sys);
    InSlices(cfg, sys);
    InControl(cfg, sys);
    CountMeans(sys);
  }
}
