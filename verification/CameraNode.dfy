/**
  A camera node (camera_node.cpp): the connection loop and the alarms on one session.

  The worker tells the node what `Connection` logs, in any order that is proper: packets are pushed,
  and a lost connection forces a stop.  The alarm thread handles a start in four moves, between which
  it holds no lock: it tests the flag of the stream, reads the state of the session, fetches the
  parameters of the stream if the event is to begin, and calls the session.
*/
module CameraNode {
  import opened Connection
  import opened RecordingBuffer
  import opened RecordingRuns
  import opened Wrappers

  /** Where the alarm thread is in a start. */
  datatype Alarm = Waiting | Passed | Beginning | Ready | Continuing

  /**
    `told` is what the worker has told, and `phase` how it reads as a protocol; `open` is
    the flag that `stop` clears; `late` counts the events begun while apart since the last loss.
  */
  datatype Node = Node(sys: System, told: seq<Entry>, phase: Phase, alarm: Alarm, open: bool, late: nat)

  datatype NodeStep =
    | Tell(e: Entry)
    | Hand(p: Packet, overdue: bool)
    | Work(step: Step)
    | Test
    | Choose
    | Fetch(copied: bool)
    | Act(opens: bool, name: string)
    | Halt
    | Close
    | Shutdown

  function NewNode(): Node {
    Node(Initial(), [], APART, Waiting, true, 0)
  }

  /** The worker can tell an entry between two calls of the session. */
  predicate Tellable(n: Node, e: Entry) {
    n.sys.pc == Idle && !Next(n.phase, e).Broken?
  }

  /** That the session can take the step is never what is missing, see `Wired`. */
  predicate Allowed(n: Node, s: NodeStep) {
    match s
    case Tell(e) => e != Pushed && Tellable(n, e)
    case Hand(_, _) => Tellable(n, Pushed)
    case Work(step) =>
      (step.BeginStep? || step.TakeStep? || step.TrailerStep? || step.EndStep?) && Enabled(n.sys, step)
    case Test => n.open && n.alarm.Waiting?
    case Choose => n.alarm.Passed?
    case Fetch(_) => n.alarm.Beginning?
    case Act(_, _) => (n.alarm.Ready? || n.alarm.Continuing?) && !Closing(n.sys.pc)
    case Halt => n.open && !Closing(n.sys.pc)
    case Close => n.open && n.alarm.Waiting?
    case Shutdown => !n.open && n.sys.pc == Idle
  }

  function Heard(n: Node, e: Entry): Node {
    n.(told := n.told + [e], phase := Next(n.phase, e))
  }

  /** Starting an event, which counts as late if the stream is away. */
  function Begun(cfg: Recording.Config, n: Node, opens: bool, name: string): Node
    requires !Closing(n.sys.pc)
  {
    n.(sys := Do(cfg, n.sys, StartStep(opens, name)), alarm := Waiting,
       late := n.late + if n.phase == APART && !Recording.InEvent(n.sys.s.state) then 1 else 0)
  }

  function Advance(cfg: Recording.Config, n: Node, s: NodeStep): Node
    requires Allowed(n, s)
  {
    match s
    case Tell(e) =>
      if e == Lost && n.open then Heard(n, e).(sys := Do(cfg, n.sys, LostStep), late := 0) else Heard(n, e)
    case Hand(p, overdue) => Heard(n, Pushed).(sys := Do(cfg, n.sys, PushStep(p, overdue)))
    case Work(step) => n.(sys := Do(cfg, n.sys, step))
    case Test => if n.phase.Phase? && n.phase.alive then n.(alarm := Passed) else n
    case Choose =>
      var recording := n.sys.s.state == Recording.RECORDING || n.sys.s.state == Recording.POST_BUFFER;
      n.(alarm := if recording then Continuing else Beginning)
    case Fetch(copied) => n.(alarm := if copied && n.phase.Phase? && n.phase.input then Ready else Waiting)
    case Act(opens, name) =>
      if n.alarm.Continuing? then n.(sys := Do(cfg, n.sys, ContinueStep), alarm := Waiting)
      else Begun(cfg, n, opens, name)
    case Halt => n.(sys := Do(cfg, n.sys, StopStep))
    case Close => n.(open := false)
    case Shutdown => n.(sys := Do(cfg, n.sys, ShutStep))
  }

  // ------------------------------------------------------------------ what every step keeps

  /** An event may still begin although the stream is gone. */
  function Pending(n: Node): nat {
    if n.alarm.Ready? then 1 else 0
  }

  /** While apart, the session is being stopped, or rests, or records an event begun late. */
  ghost predicate Calm(n: Node) {
    n.phase == APART && n.open ==>
      && n.late + Pending(n) <= 1
      && match n.sys.pc
         case Idle =>
           if n.late == 0 then n.sys.s.state == Recording.PRE_BUFFER
           else n.sys.s.state == Recording.RECORDING || n.sys.s.state == Recording.POST_BUFFER
         case Scheduled(_) => false
         case Off => false
         case _ => n.sys.pc.job == Force && n.late == 0
  }

  /** What holds of the node beside its session. */
  ghost predicate Wired(n: Node) {
    && n.phase.Phase? && (n.phase.alive && !n.phase.together ==> n.phase.input)
    && (n.open ==> !Closing(n.sys.pc)) && (!n.alarm.Waiting? ==> n.open)
    && Calm(n)
  }

  ghost predicate Sound(cfg: Recording.Config, n: Node) {
    Reachable(cfg, n.sys) && n.phase == Protocol(n.told) && Wired(n)
  }

  lemma NewIsSound(cfg: Recording.Config)
    ensures Sound(cfg, NewNode())
  {
    assert Run(cfg, Initial(), []) == Some(Initial());
  }

  lemma WiredAfterTell(cfg: Recording.Config, n: Node, e: Entry)
    requires Wired(n) && Control(n.sys) && Holding(n.sys) && Allowed(n, Tell(e))
    ensures Wired(Advance(cfg, n, Tell(e)))
  {}

  lemma WiredAfterWork(cfg: Recording.Config, n: Node, step: Step)
    requires Wired(n) && Control(n.sys) && Holding(n.sys) && Allowed(n, Work(step))
    ensures Wired(Advance(cfg, n, Work(step)))
  {}

  lemma WiredAfterAct(cfg: Recording.Config, n: Node, opens: bool, name: string)
    requires Wired(n) && Control(n.sys) && Holding(n.sys) && Allowed(n, Act(opens, name))
    ensures Wired(Advance(cfg, n, Act(opens, name)))
  {}

  lemma WiredKept(cfg: Recording.Config, n: Node, s: NodeStep)
    requires Wired(n) && Control(n.sys) && Holding(n.sys) && Allowed(n, s)
    ensures Wired(Advance(cfg, n, s))
  {
    match s {
      case Tell(e) => WiredAfterTell(cfg, n, e);
      case Work(step) => WiredAfterWork(cfg, n, step);
      case Act(opens, name) => WiredAfterAct(cfg, n, opens, name);
      case _ =>
    }
  }

  /** A step of the node takes at most one of its session. */
  lemma SessionStep(cfg: Recording.Config, n: Node, s: NodeStep)
    requires Wired(n) && Allowed(n, s)
    ensures var m := Advance(cfg, n, s);
            m.sys == n.sys || exists step :: Enabled(n.sys, step) && m.sys == Do(cfg, n.sys, step)
  {
    var m := Advance(cfg, n, s);
    match s {
      case Tell(e) => assert m.sys == n.sys || (Enabled(n.sys, LostStep) && m.sys == Do(cfg, n.sys, LostStep));
      case Hand(p, overdue) => assert Enabled(n.sys, PushStep(p, overdue));
      case Work(step) => assert Enabled(n.sys, step);
      case Act(opens, name) => assert Enabled(n.sys, ContinueStep) && Enabled(n.sys, StartStep(opens, name));
      case Halt => assert Enabled(n.sys, StopStep);
      case Shutdown => assert Enabled(n.sys, ShutStep);
      case _ =>
    }
  }

  lemma PhaseKept(cfg: Recording.Config, n: Node, s: NodeStep)
    requires Wired(n) && n.phase == Protocol(n.told) && Allowed(n, s)
    ensures Advance(cfg, n, s).phase == Protocol(Advance(cfg, n, s).told)
  {
    match s {
      case Tell(e) => ProtocolSnoc(n.told, e);
      case Hand(_, _) => ProtocolSnoc(n.told, Pushed);
      case _ =>
    }
  }

  lemma SessionReached(cfg: Recording.Config, sys: System, t: System)
    requires Reachable(cfg, sys) && (t == sys || exists step :: Enabled(sys, step) && t == Do(cfg, sys, step))
    ensures Reachable(cfg, t)
  {
    if t != sys {
      var step :| Enabled(sys, step) && t == Do(cfg, sys, step);
      ReachNext(cfg, sys, step);
    }
  }

  lemma SoundKept(cfg: Recording.Config, n: Node, s: NodeStep)
    requires Sound(cfg, n) && Allowed(n, s)
    ensures Sound(cfg, Advance(cfg, n, s))
  {
    InControl(cfg, n.sys);
    WiredKept(cfg, n, s);
    SessionStep(cfg, n, s);
    SessionReached(cfg, n.sys, Advance(cfg, n, s).sys);
    PhaseKept(cfg, n, s);
  }

  // ------------------------------------------------------------------ every run

  /** The node after a list of steps, if each of them is allowed in its turn. */
  function After(cfg: Recording.Config, n: Node, steps: seq<NodeStep>): Option<Node>
    decreases |steps|
  {
    if steps == [] then Some(n)
    else if Allowed(n, steps[0]) then After(cfg, Advance(cfg, n, steps[0]), steps[1..])
    else None
  }

  ghost predicate Visited(cfg: Recording.Config, n: Node) {
    exists steps :: After(cfg, NewNode(), steps) == Some(n)
  }

  lemma {:induction false} StaysSound(cfg: Recording.Config, n: Node, steps: seq<NodeStep>)
    requires Sound(cfg, n)
    ensures After(cfg, n, steps).Some? ==> Sound(cfg, After(cfg, n, steps).value)
    decreases |steps|
  {
    if steps != [] && Allowed(n, steps[0]) {
      SoundKept(cfg, n, steps[0]);
      StaysSound(cfg, Advance(cfg, n, steps[0]), steps[1..]);
    }
  }

  lemma {:induction false} AfterOneMore(cfg: Recording.Config, n: Node, steps: seq<NodeStep>, s: NodeStep)
    ensures After(cfg, n, steps).Some? && Allowed(After(cfg, n, steps).value, s) ==>
              After(cfg, n, steps + [s]) == Some(Advance(cfg, After(cfg, n, steps).value, s))
    decreases |steps|
  {
    if steps == [] {
      assert ([] + [s])[1..] == [];
    } else if Allowed(n, steps[0]) {
      assert (steps + [s])[1..] == steps[1..] + [s];
      AfterOneMore(cfg, Advance(cfg, n, steps[0]), steps[1..], s);
    }
  }

  lemma VisitNext(cfg: Recording.Config, n: Node, s: NodeStep)
    requires Visited(cfg, n) && Allowed(n, s)
    ensures Visited(cfg, Advance(cfg, n, s))
  {
    var steps :| After(cfg, NewNode(), steps) == Some(n);
    AfterOneMore(cfg, NewNode(), steps, s);
  }

  /** Every run of the node is a run of its session, so all that holds of those holds here. */
  lemma NodeRunsItsSession(cfg: Recording.Config, n: Node)
    requires Visited(cfg, n)
    ensures Reachable(cfg, n.sys) && n.phase == Protocol(n.told) && Sound(cfg, n)
  {
    var steps :| After(cfg, NewNode(), steps) == Some(n);
    NewIsSound(cfg);
    StaysSound(cfg, NewNode(), steps);
  }

  // ------------------------------------------------------------------ while the stream is away

  lemma StaysApart(cfg: Recording.Config, n: Node, s: NodeStep)
    requires Wired(n) && Control(n.sys) && Holding(n.sys) && Allowed(n, s) && n.phase == APART && s != Tell(Opened)
    ensures var m := Advance(cfg, n, s);
            && m.phase == APART && m.sys.pushed == n.sys.pushed
            && m.sys.s.eventId + Pending(m) <= n.sys.s.eventId + Pending(n)
  {
    match s {
      case Tell(_) => if n.sys.pc == Idle { StepKeeps(cfg, n.sys, LostStep); }
      case Work(step) => StepKeeps(cfg, n.sys, step);
      case Act(opens, name) => ActBeginsOne(cfg, n, opens, name);
      case Halt => StepKeeps(cfg, n.sys, StopStep);
      case Shutdown => StepKeeps(cfg, n.sys, ShutStep);
      case _ =>
    }
  }

  lemma ActBeginsOne(cfg: Recording.Config, n: Node, opens: bool, name: string)
    requires Wired(n) && Allowed(n, Act(opens, name)) && n.phase == APART
    ensures var m := Advance(cfg, n, Act(opens, name));
            && m.phase == APART && m.sys.pushed == n.sys.pushed
            && m.sys.s.eventId + Pending(m) <= n.sys.s.eventId + Pending(n)
  {
    StepKeeps(cfg, n.sys, ContinueStep);
    StepKeeps(cfg, n.sys, StartStep(opens, name));
  }

  /** Only a start changes the number of the event, and only a push the packets pushed. */
  lemma StepKeeps(cfg: Recording.Config, sys: System, step: Step)
    requires Enabled(sys, step)
    ensures !step.StartStep? ==> Do(cfg, sys, step).s.eventId == sys.s.eventId
    ensures !step.PushStep? ==> Do(cfg, sys, step).pushed == sys.pushed
  {}

  /**
    Until the stream is opened again no packet is pushed, and at most one event begins: none unless the
    alarm thread has fetched the parameters of the stream before it was closed.
  */
  lemma {:induction false} OutageIsSilent(cfg: Recording.Config, n: Node, steps: seq<NodeStep>)
    requires Sound(cfg, n) && n.phase == APART && Tell(Opened) !in steps
    ensures After(cfg, n, steps).Some? ==>
              var m := After(cfg, n, steps).value;
              && m.phase == APART && m.sys.pushed == n.sys.pushed
              && m.sys.s.eventId + Pending(m) <= n.sys.s.eventId + Pending(n) <= n.sys.s.eventId + 1
    decreases |steps|
  {
    if steps != [] && Allowed(n, steps[0]) {
      InControl(cfg, n.sys);
      StaysApart(cfg, n, steps[0]);
      SoundKept(cfg, n, steps[0]);
      OutageIsSilent(cfg, Advance(cfg, n, steps[0]), steps[1..]);
    }
  }

  /** The step that begins an event while the stream is away, whenever the forced stop is over. */
  lemma BeginsApartWhen(cfg: Recording.Config, n: Node, s: NodeStep)
    requires Sound(cfg, n) && Allowed(n, s) && n.phase == APART && n.open
    ensures var m := Advance(cfg, n, s);
            m.sys.s.eventId != n.sys.s.eventId <==> s.Act? && n.alarm.Ready? && n.sys.pc == Idle
  {
    InControl(cfg, n.sys);
    match s {
      case Tell(_) => if n.sys.pc == Idle { StepKeeps(cfg, n.sys, LostStep); }
      case Work(step) => StepKeeps(cfg, n.sys, step);
      case Act(opens, name) => BeginsReady(cfg, n, opens, name);
      case Halt => StepKeeps(cfg, n.sys, StopStep);
      case _ =>
    }
  }

  lemma BeginsReady(cfg: Recording.Config, n: Node, opens: bool, name: string)
    requires Wired(n) && Allowed(n, Act(opens, name)) && n.phase == APART && Control(n.sys)
    ensures Advance(cfg, n, Act(opens, name)).sys.s.eventId != n.sys.s.eventId <==> n.alarm.Ready? && n.sys.pc == Idle
  {}

  /** Once the forced stop is over, the session records while the stream is away exactly if an event began late. */
  lemma RecordsApartWhen(cfg: Recording.Config, n: Node)
    requires Visited(cfg, n) && n.phase == APART && n.open && n.sys.pc == Idle
    ensures n.late <= 1
    ensures n.sys.s.state == Recording.PRE_BUFFER <==> n.late == 0
    ensures n.sys.s.state == Recording.RECORDING || n.sys.s.state == Recording.POST_BUFFER <==> n.late == 1
  {
    NodeRunsItsSession(cfg, n);
  }

  /** A rest in which the stream may be told anything. */
  ghost predicate Quiet(cfg: Recording.Config, n: Node) {
    Visited(cfg, n) && n.open && n.sys.pc == Idle && n.sys.s.state == Recording.PRE_BUFFER
  }

  lemma TellOne(cfg: Recording.Config, n: Node, e: Entry) returns (m: Node)
    requires Quiet(cfg, n) && e != Pushed && !Next(n.phase, e).Broken?
    ensures Quiet(cfg, m) && m.told == n.told + [e] && m.phase == Next(n.phase, e) && m.alarm == n.alarm
  {
    VisitNext(cfg, n, Tell(e));
    m := Advance(cfg, n, Tell(e));
  }

  lemma NewIsQuiet(cfg: Recording.Config)
    ensures Quiet(cfg, NewNode())
  {
    assert After(cfg, NewNode(), []) == Some(NewNode());
  }

  /** It does happen: an alarm between its last look at the stream and its call records into the outage. */
  lemma LateEventHappens(cfg: Recording.Config, opens: bool, name: string) returns (n: Node)
    ensures Visited(cfg, n) && n.phase == APART && n.open && n.sys.pc == Idle && n.late == 1
    ensures n.sys.s.state == Recording.RECORDING
  {
    n := Join(cfg);
    n := LookAtStream(cfg, n);
    n := Drop(cfg, n);
    n := BeginLate(cfg, n, opens, name);
    RecordsApartWhen(cfg, n);
  }

  lemma Join(cfg: Recording.Config) returns (n: Node)
    ensures Quiet(cfg, n) && n.phase == Phase(true, true, true) && n.alarm.Waiting?
  {
    NewIsQuiet(cfg);
    n := TellOne(cfg, NewNode(), Opened);
    n := TellOne(cfg, n, Up);
    n := TellOne(cfg, n, Found);
  }

  lemma BeginLate(cfg: Recording.Config, n: Node, opens: bool, name: string) returns (m: Node)
    requires Quiet(cfg, n) && n.phase == APART && n.alarm.Ready?
    ensures Visited(cfg, m) && m.phase == APART && m.open && m.sys.pc == Idle && m.sys.s.state == Recording.RECORDING
  {
    VisitNext(cfg, n, Act(opens, name));
    m := Advance(cfg, n, Act(opens, name));
  }

  lemma Drop(cfg: Recording.Config, n: Node) returns (m: Node)
    requires Quiet(cfg, n) && n.phase == Phase(true, true, true)
    ensures Quiet(cfg, m) && m.phase == APART && m.alarm == n.alarm
  {
    m := TellOne(cfg, n, Closed);
    m := TellOne(cfg, m, Down);
    m := TellOne(cfg, m, Lost);
  }

  /** The alarm thread's looks at the stream and the session. */
  lemma LookAtStream(cfg: Recording.Config, n: Node) returns (m: Node)
    requires Quiet(cfg, n) && n.alarm.Waiting? && n.phase == Phase(true, true, true)
    ensures Quiet(cfg, m) && m.alarm.Ready? && m.phase == n.phase && m.told == n.told
  {
    VisitNext(cfg, n, Test);
    m := Advance(cfg, n, Test);
    VisitNext(cfg, m, Choose);
    m := Advance(cfg, m, Choose);
    VisitNext(cfg, m, Fetch(true));
    m := Advance(cfg, m, Fetch(true));
  }

  /** The rules of `Tellable` shut out nothing the loop tells: every proper log can be told. */
  lemma {:induction false} ProperLogIsTold(cfg: Recording.Config, log: seq<Entry>, p: Packet) returns (n: Node)
    requires !Protocol(log).Broken?
    ensures Quiet(cfg, n) && n.told == log && n.phase == Protocol(log)
    decreases |log|
  {
    if log == [] {
      NewIsQuiet(cfg);
      n := NewNode();
    } else {
      var front, e := log[..|log| - 1], log[|log| - 1];
      assert log == front + [e];
      ProtocolSnoc(front, e);
      n := ProperLogIsTold(cfg, front, p);
      if e == Pushed {
        VisitNext(cfg, n, Hand(p, false));
        n := Advance(cfg, n, Hand(p, false));
      } else {
        n := TellOne(cfg, n, e);
      }
    }
  }

  /** Whatever the network does, what the connection loop tells is told to some node in some run. */
  lemma LoopIsHeard(cfg: Recording.Config, link: Config, attempts: seq<Attempt>, p: Packet) returns (n: Node)
    ensures Visited(cfg, n) && n.told == Turns(link, NewLink(link), attempts).log
  {
    EveryRunIsProper(link, attempts);
    n := ProperLogIsTold(cfg, Turns(link, NewLink(link), attempts).log, p);
  }
}
