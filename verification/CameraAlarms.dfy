/**
  What an alarm does to a camera's session (camera_node.cpp), move by move and with nothing in between.
*/
module CameraAlarms {
  import opened Connection
  import opened RecordingBuffer
  import opened RecordingRuns
  import opened RecordingRules
  import opened CameraNode
  import opened Wrappers

  lemma TwoMoves(cfg: Recording.Config, n: Node, a: NodeStep, b: NodeStep)
    requires Allowed(n, a) && Allowed(Advance(cfg, n, a), b)
    ensures After(cfg, n, [a, b]) == Some(Advance(cfg, Advance(cfg, n, a), b))
  {
    var n1 := Advance(cfg, n, a);
    var n2 := Advance(cfg, n1, b);
    assert [a, b][1..] == [b] && [b][1..] == [];
    assert After(cfg, n2, []) == Some(n2);
    assert After(cfg, n1, [b]) == After(cfg, n2, []);
  }

  /** A step of the worker in a finalization. */
  predicate WorkStep(step: Step) {
    step.BeginStep? || step.TakeStep? || step.TrailerStep? || step.EndStep?
  }

  function Works(steps: seq<Step>): (ws: seq<NodeStep>)
    ensures |ws| == |steps| && forall i | 0 <= i < |steps| :: ws[i] == Work(steps[i])
  {
    seq(|steps|, i requires 0 <= i < |steps| => Work(steps[i]))
  }

  /** The worker's steps change the session alone. */
  lemma {:induction false} WorkIsRun(cfg: Recording.Config, n: Node, steps: seq<Step>)
    requires forall i | 0 <= i < |steps| :: WorkStep(steps[i])
    ensures Run(cfg, n.sys, steps).Some? ==>
              After(cfg, n, Works(steps)) == Some(n.(sys := Run(cfg, n.sys, steps).value))
    decreases |steps|
  {
    if steps != [] && Enabled(n.sys, steps[0]) {
      assert Works(steps)[1..] == Works(steps[1..]);
      WorkIsRun(cfg, n.(sys := Do(cfg, n.sys, steps[0])), steps[1..]);
    }
  }

  // ------------------------------------------------------------------ a start

  /** The stream is up and its parameters are there, and the alarm thread is free. */
  ghost predicate Live(cfg: Recording.Config, n: Node) {
    Sound(cfg, n) && n.open && n.alarm.Waiting? && n.phase.alive && n.phase.input
  }

  predicate InRecording(n: Node) {
    n.sys.s.state == Recording.RECORDING || n.sys.s.state == Recording.POST_BUFFER
  }

  /** The two looks, and what they lead to. */
  lemma Looked(cfg: Recording.Config, n: Node)
    requires Live(cfg, n)
    ensures After(cfg, n, [Test, Choose]) == Some(n.(alarm := if InRecording(n) then Continuing else Beginning))
  {
    TwoMoves(cfg, n, Test, Choose);
  }

  /**
    A start during an event continues it: the session records, under the same number and with the same
    files, and the post-buffer count is gone; while it was recording nothing changes.
  */
  lemma StartContinues(cfg: Recording.Config, n: Node, opens: bool, name: string)
    requires Live(cfg, n) && InRecording(n)
    ensures var m := After(cfg, n, [Test, Choose] + [Act(opens, name)]);
            && m.Some? && m.value == n.(sys := m.value.sys)
            && m.value.sys.s.state == Recording.RECORDING
            && m.value.sys.s == n.sys.s.(state := Recording.RECORDING, postKeys := m.value.sys.s.postKeys)
            && m.value.sys.s.postKeys == (if n.sys.s.state == Recording.POST_BUFFER then 0 else n.sys.s.postKeys)
            && m.value.sys.pc == n.sys.pc && m.value.sys.accepted == n.sys.accepted
  {
    Looked(cfg, n);
    AfterOneMore(cfg, n, [Test, Choose], Act(opens, name));
  }

  /** Outside an event the parameters of the stream are copied, and the session is called. */
  lemma StartCalls(cfg: Recording.Config, n: Node, opens: bool, name: string)
    requires Live(cfg, n) && !InRecording(n)
    ensures !Closing(n.sys.pc)
    ensures After(cfg, n, [Test, Choose] + [Fetch(true)] + [Act(opens, name)])
            == Some(n.(sys := Do(cfg, n.sys, StartStep(opens, name))))
  {
    Looked(cfg, n);
    AfterOneMore(cfg, n, [Test, Choose], Fetch(true));
    var ready := n.(alarm := Ready);
    assert After(cfg, n, [Test, Choose] + [Fetch(true)]) == Some(ready);
    AfterOneMore(cfg, n, [Test, Choose] + [Fetch(true)], Act(opens, name));
    Called(cfg, ready, opens, name);
  }

  lemma Called(cfg: Recording.Config, n: Node, opens: bool, name: string)
    requires n.alarm.Ready? && !Closing(n.sys.pc) && n.phase != APART
    ensures Advance(cfg, n, Act(opens, name)) == n.(sys := Do(cfg, n.sys, StartStep(opens, name)), alarm := Waiting)
  {}

  /** A start between events begins the next one. */
  lemma StartBegins(cfg: Recording.Config, n: Node, opens: bool, name: string)
    requires Live(cfg, n) && n.sys.s.state == Recording.PRE_BUFFER
    ensures var m := After(cfg, n, [Test, Choose] + [Fetch(true)] + [Act(opens, name)]);
            && m.Some? && m.value == n.(sys := m.value.sys)
            && var s, t := n.sys.s, m.value.sys.s;
            && t.state == Recording.RECORDING && t.eventId == s.eventId + 1 && t.chunkIdx == 0 && t.pre == []
            && (opens ==> t.files == s.files + [Recording.File(s.eventId + 1, 0, s.pre, 0)] && t.out == Some(|s.files|))
            && (!opens ==> t.files == s.files && t.out == None)
  {
    StartCalls(cfg, n, opens, name);
    StartMeans(cfg, n.sys, opens, name);
  }

  /** While a file is being closed it does nothing, ... */
  lemma StartIsLate(cfg: Recording.Config, n: Node, opens: bool, name: string)
    requires Live(cfg, n) && n.sys.s.state == Recording.FINALIZING
    ensures After(cfg, n, [Test, Choose] + [Fetch(true)] + [Act(opens, name)]) == Some(n)
  {
    StartCalls(cfg, n, opens, name);
    StartLeaves(cfg, n, opens, name);
  }

  lemma StartLeaves(cfg: Recording.Config, n: Node, opens: bool, name: string)
    requires Recording.InEvent(n.sys.s.state) && !Closing(n.sys.pc)
    ensures n.(sys := Do(cfg, n.sys, StartStep(opens, name))) == n
  {
    RecordingRules.StartIsIgnored(cfg, n.sys, opens, name);
  }

  /** ... nor without the parameters of the stream, ... */
  lemma StartWithoutParameters(cfg: Recording.Config, n: Node)
    requires Live(cfg, n) && !InRecording(n)
    ensures After(cfg, n, [Test, Choose] + [Fetch(false)]) == Some(n)
  {
    Looked(cfg, n);
    AfterOneMore(cfg, n, [Test, Choose], Fetch(false));
  }

  /** ... nor while the stream is not alive. */
  lemma StartIsIgnored(cfg: Recording.Config, n: Node)
    requires Sound(cfg, n) && n.open && n.alarm.Waiting? && !n.phase.alive
    ensures Allowed(n, Test) && Advance(cfg, n, Test) == n
  {}

  // ------------------------------------------------------------------ a stop and a loss

  /** A stop turns recording into the post-buffer, with its count at zero, and is else without effect. */
  lemma StopIsTaken(cfg: Recording.Config, n: Node)
    requires Sound(cfg, n) && n.open
    ensures Allowed(n, Halt)
    ensures var t := Advance(cfg, n, Halt).sys.s;
            t == if n.sys.s.state == Recording.RECORDING
                 then n.sys.s.(state := Recording.POST_BUFFER, postKeys := 0) else n.sys.s
  {
    StopMeans(cfg, n.sys);
  }

  /** A lost stream closes the file of the event, which is over then. */
  lemma LossEndsEvent(cfg: Recording.Config, n: Node, opens: bool, name: string)
    requires Sound(cfg, n) && n.open && n.phase == Phase(true, false, false) && n.sys.pc == Idle && n.sys.s.out.Some?
    ensures var m := After(cfg, n, [Tell(Lost)] + Works([TakeStep, TrailerStep, EndStep(opens, name)]));
            && m.Some? && m.value.phase == APART && m.value.late == 0
            && m.value.sys.pc == Idle && m.value.sys.s.state == Recording.PRE_BUFFER && m.value.sys.s.out == None
            && ClosedLast(n.sys.s, m.value.sys.s) && |m.value.sys.s.files| == |n.sys.s.files|
            && m.value.sys.s.eventId == n.sys.s.eventId
  {
    var rest := [TakeStep, TrailerStep, EndStep(opens, name)];
    var t := LossClosesFile(cfg, n.sys, opens, name);
    assert [LostStep, TakeStep, TrailerStep, EndStep(opens, name)][1..] == rest;
    LostIsHeard(cfg, n);
    WorkIsRun(cfg, Advance(cfg, n, Tell(Lost)), rest);
    assert ([Tell(Lost)] + Works(rest))[1..] == Works(rest);
  }

  lemma LostIsHeard(cfg: Recording.Config, n: Node)
    requires n.open && n.phase == Phase(true, false, false) && n.sys.pc == Idle
    ensures Allowed(n, Tell(Lost))
    ensures var m := Advance(cfg, n, Tell(Lost)); m.sys == Do(cfg, n.sys, LostStep) && m.phase == APART && m.late == 0
  {}

  // ------------------------------------------------------------------ after the node was stopped

  /** A stopped node takes no alarm and no loss; packets still go to the session until it is shut down. */
  lemma ClosedIsDeaf(cfg: Recording.Config, n: Node)
    requires Sound(cfg, n) && !n.open
    ensures !Allowed(n, Test) && !Allowed(n, Halt) && n.alarm.Waiting?
    ensures Allowed(n, Tell(Lost)) ==> Advance(cfg, n, Tell(Lost)).sys == n.sys
    ensures n.sys.pc == Idle ==> Allowed(n, Shutdown) && Advance(cfg, n, Shutdown).sys == Do(cfg, n.sys, ShutStep)
  {}
}
