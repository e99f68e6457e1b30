/**
  The steps of `RecordingRuns` executed on the object: a session goes through every run exactly as
  the values do, and meets the precondition of each of its methods on the way.
*/
module RecordingThreads {
  import opened RecordingBuffer
  import opened Recording
  import opened RecordingRuns

  /** The object stands for the system's session. */
  ghost predicate Mirrors(session: RecordingSession, cfg: Config, sys: System, pc: Pc)
    reads session
  {
    session.cfg == cfg && session.Valid() && session.View() == sys.s && pc == sys.pc
  }

  method PushOne(session: RecordingSession, pc: Pc, p: Packet, overdue: bool, ghost sys: System) returns (pc': Pc)
    requires Mirrors(session, session.cfg, sys, pc) && Safe(session.cfg, sys) && Enabled(sys, PushStep(p, overdue))
    modifies session
    ensures Mirrors(session, session.cfg, DoPush(session.cfg, sys, p, overdue), pc')
  {
    var post := session.state == POST_BUFFER;
    var full := session.PushPacket(p, overdue);
    pc' := if full then Scheduled(post) else Idle;
  }

  method BeginOne(session: RecordingSession, pc: Pc, ghost sys: System) returns (pc': Pc)
    requires Mirrors(session, session.cfg, sys, pc) && Safe(session.cfg, sys) && Enabled(sys, BeginStep)
    modifies session
    ensures Mirrors(session, session.cfg, DoBegin(sys), pc')
  {
    var proceed, previous, path := session.BeginFinalize();
    pc' := if proceed then Entered(if previous == RECORDING then Rotate else Finish, path) else Idle;
  }

  /** finalize_file_io, up to the output. */
  method TakeOne(session: RecordingSession, pc: Pc, ghost sys: System) returns (pc': Pc)
    requires Mirrors(session, session.cfg, sys, pc) && Safe(session.cfg, sys) && Enabled(sys, TakeStep)
    modifies session
    ensures Mirrors(session, session.cfg, DoTake(sys), pc')
  {
    var file := session.TakeFile(pc.path);
    pc' := if file.Some? then Writing(pc.job, file.value) else Written(pc.job);
  }

  method TrailerOne(session: RecordingSession, pc: Pc, ghost sys: System) returns (pc': Pc)
    requires Mirrors(session, session.cfg, sys, pc) && Safe(session.cfg, sys) && Enabled(sys, TrailerStep)
    modifies session
    ensures Mirrors(session, session.cfg, DoTrailer(sys), pc')
  {
    session.WriteTrailer(pc.file);
    pc' := Written(pc.job);
  }

  method EndOne(session: RecordingSession, pc: Pc, opens: bool, name: string, ghost sys: System) returns (pc': Pc)
    requires Mirrors(session, session.cfg, sys, pc) && Safe(session.cfg, sys) && Enabled(sys, EndStep(opens, name))
    modifies session
    ensures Mirrors(session, session.cfg, DoEnd(session.cfg, sys, opens, name), pc')
  {
    match pc.job {
      case Rotate =>
        session.EndFinalize(RECORDING, opens, name);
        pc' := Idle;
      case Finish =>
        session.EndFinalize(POST_BUFFER, opens, name);
        pc' := Idle;
      case Force =>
        session.EndForceStop();
        pc' := Idle;
      case Shut =>
        session.EndShutdown();
        pc' := Off;
    }
  }

  method LoseOne(session: RecordingSession, pc: Pc, ghost sys: System) returns (pc': Pc)
    requires Mirrors(session, session.cfg, sys, pc) && Safe(session.cfg, sys) && Enabled(sys, LostStep)
    modifies session
    ensures Mirrors(session, session.cfg, DoLost(sys), pc')
  {
    var proceed, path := session.BeginForceStop();
    pc' := if proceed then Entered(Force, path) else Idle;
  }

  method ShutOne(session: RecordingSession, pc: Pc, ghost sys: System) returns (pc': Pc)
    requires Mirrors(session, session.cfg, sys, pc) && Safe(session.cfg, sys) && Enabled(sys, ShutStep)
    modifies session
    ensures Mirrors(session, session.cfg, DoShut(sys), pc')
  {
    var path := session.BeginShutdown();
    pc' := Entered(Shut, path);
  }

  /** One enabled step. */
  method Execute(session: RecordingSession, pc: Pc, step: Step, ghost sys: System) returns (pc': Pc)
    requires Mirrors(session, session.cfg, sys, pc) && Safe(session.cfg, sys) && Enabled(sys, step)
    modifies session
    ensures Mirrors(session, session.cfg, Do(session.cfg, sys, step), pc')
  {
    pc' := pc;
    match step {
      case PushStep(p, overdue) => pc' := PushOne(session, pc, p, overdue, sys);
      case BeginStep => pc' := BeginOne(session, pc, sys);
      case TakeStep => pc' := TakeOne(session, pc, sys);
      case TrailerStep => pc' := TrailerOne(session, pc, sys);
      case EndStep(opens, name) => pc' := EndOne(session, pc, opens, name, sys);
      case LostStep => pc' := LoseOne(session, pc, sys);
      case StartStep(opens, name) => session.StartEvent(opens, name);
      case ContinueStep => session.ContinueEvent();
      case StopStep => session.StopEvent();
      case ShutStep => pc' := ShutOne(session, pc, sys);
    }
  }

  /** A new session, after any list of steps each of which is enabled in its turn, is what the run says. */
  method ExecuteAll(cfg: Config, steps: seq<Step>) returns (session: RecordingSession)
    requires Run(cfg, Initial(), steps).Some?
    ensures fresh(session) && session.cfg == cfg && session.Valid()
    ensures session.View() == Run(cfg, Initial(), steps).value.s
  {
    session := new RecordingSession(cfg);
    var pc: Pc := Idle;
    ghost var sys := Initial();
    FreshIsSafe(cfg, sys);
    for i := 0 to |steps|
      invariant fresh(session) && Mirrors(session, cfg, sys, pc) && Safe(cfg, sys)
      invariant Run(cfg, sys, steps[i..]) == Run(cfg, Initial(), steps)
    {
      assert steps[i..][1..] == steps[i + 1..];
      SafeKept(cfg, sys, steps[i]);
      pc := Execute(session, pc, steps[i], sys);
      sys := Do(cfg, sys, steps[i]);
    }
  }
}
