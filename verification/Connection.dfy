/**
  The connection loop of a stream (rtsp_stream.cpp): when the callbacks fire, when the stream
  counts as alive, and how long it waits between attempts.

  What the network does is a list of attempts; when the list is used up, a stop is requested.
  The loop keeps a log of what it told others; the lemmas are about the log of every run.
*/
module Connection {
  /** A connected stream: what av_read_frame returns. */
  datatype Reading =
    | Frame
    | Again
    | Interrupted
    | ExitCode
    | Failed(stopping: bool)

  /** An attempt to open: it fails, and the wait is cut short after some slices; or it is read until it ends. */
  datatype Attempt =
    | Refused(patience: nat)
    | Connected(readings: seq<Reading>, stopping: bool)

  datatype Config = Config(delay: nat, maxDelay: nat, maxAttempts: int)

  /**
    What others can tell: the input with its codec parameters is there or gone, the flag they read is
    set or cleared, a callback is called, a packet is handed over.
  */
  datatype Entry =
    | Opened
    | Closed
    | Up
    | Down
    | Found
    | Lost
    | Pushed
    | Wait(ms: nat, slices: nat)
    | GaveUp

  /** The variables of `run`, the flag others read, and the log. */
  datatype Link = Link(connected: bool, attempts: nat, delay: nat, alive: bool, over: bool, log: seq<Entry>)

  function NewLink(cfg: Config): Link {
    Link(false, 0, cfg.delay, false, false, [])
  }

  function Note(k: Link, e: Entry): Link {
    k.(log := k.log + [e])
  }

  function Min(a: nat, b: nat): nat {
    if a < b then a else b
  }

  /** The callbacks of a lost connection, once per connection. */
  function Lose(k: Link): Link {
    if k.connected then Note(k, Lost).(connected := false) else k
  }

  function Clear(k: Link): Link {
    Note(Note(k, Closed), Down).(alive := false)
  }

  function Refuse(cfg: Config, k: Link, patience: nat): Link {
    var lost := Lose(Clear(k));
    if cfg.maxAttempts > 0 && k.attempts >= cfg.maxAttempts then Note(lost, GaveUp).(over := true)
    else
      Note(lost, Wait(k.delay, Min(k.delay / 100, patience)))
        .(delay := Min(k.delay * 2, cfg.maxDelay), attempts := k.attempts + 1)
  }

  function Accept(cfg: Config, k: Link): Link {
    var up := Note(Note(k, Opened).(attempts := 0, delay := cfg.delay, alive := true), Up);
    if k.connected then up else Note(up, Found).(connected := true)
  }

  /** Why reading ended: the connection was lost, or a stop was seen, or neither. */
  datatype Ending = Ending(frames: nat, lost: bool, stopped: bool)

  function Read(readings: seq<Reading>): Ending
    decreases |readings|
  {
    if readings == [] then Ending(0, false, true)
    else
      match readings[0]
      case Frame => var e := Read(readings[1..]); e.(frames := e.frames + 1)
      case Again => Read(readings[1..])
      case Interrupted => Ending(0, true, false)
      case ExitCode => Ending(0, false, false)
      case Failed(stopping) => Ending(0, !stopping, stopping)
  }

  /** The packets handed over. */
  function Frames(n: nat): seq<Entry> {
    if n == 0 then [] else Frames(n - 1) + [Pushed]
  }

  function Close(k: Link, e: Ending, stopping: bool): Link {
    var down := Clear(k.(log := k.log + Frames(e.frames)));
    var stop := e.stopped || stopping;
    if e.lost && !stop then Lose(down)
    else if stop then down.(over := true)
    else down
  }

  function Turn(cfg: Config, k: Link, a: Attempt): Link {
    match a
    case Refused(patience) => Refuse(cfg, k, patience)
    case Connected(readings, stopping) => Close(Accept(cfg, k), Read(readings), stopping)
  }

  function Turns(cfg: Config, k: Link, attempts: seq<Attempt>): Link
    decreases |attempts|
  {
    if attempts == [] || k.over then k else Turns(cfg, Turn(cfg, k, attempts[0]), attempts[1..])
  }

  // ------------------------------------------------------------------ the loop

  class Stream {
    const cfg: Config
    var alive: bool
    var log: seq<Entry>

    constructor (cfg: Config)
      ensures this.cfg == cfg && !alive && log == []
    {
      this.cfg := cfg;
      alive, log := false, [];
    }

    ghost function View(connected: bool, attempts: nat, delay: nat, over: bool): Link
      reads this
    {
      Link(connected, attempts, delay, alive, over, log)
    }

    /** The loop around av_read_frame. */
    method ReadFrames(readings: seq<Reading>) returns (lost: bool, stopped: bool)
      modifies `log
      ensures var e := Read(readings); lost == e.lost && stopped == e.stopped && log == old(log) + Frames(e.frames)
    {
      var i := 0;
      ghost var n := 0;
      while i < |readings|
        invariant i <= |readings| && log == old(log) + Frames(n)
        invariant var rest := Read(readings[i..]); Read(readings) == rest.(frames := rest.frames + n)
      {
        assert readings[i..][1..] == readings[i + 1..];
        match readings[i] {
          case Interrupted => return true, false;
          case ExitCode => return false, false;
          case Again =>
          case Failed(stopping) => return !stopping, stopping;
          case Frame =>
            assert Frames(n + 1) == Frames(n) + [Pushed];
            log := log + [Pushed];
            n := n + 1;
        }
        i := i + 1;
      }
      return false, true;
    }

    /** The wait between two attempts, in slices of 100 ms. */
    method WaitFor(delay: nat, patience: nat)
      modifies `log
      ensures log == old(log) + [Wait(delay, Min(delay / 100, patience))]
    {
      var i := 0;
      while i < delay / 100 && i < patience
        invariant i <= Min(delay / 100, patience)
      {
        i := i + 1;
      }
      log := log + [Wait(delay, i)];
    }

    /** The store to the flag that others read. */
    method SetAlive(now: bool)
      modifies `alive, `log
      ensures alive == now && log == old(log) + [if now then Up else Down]
    {
      alive := now;
      log := log + [if now then Up else Down];
    }

    /** One turn of `run` in which the stream cannot be opened. */
    method TurnRefused(patience: nat, wasConnected: bool, attempts: nat, delay: nat)
      returns (connected: bool, attempts': nat, delay': nat, over: bool)
      modifies this
      ensures View(connected, attempts', delay', over) == Refuse(cfg, old(View(wasConnected, attempts, delay, false)), patience)
    {
      connected, attempts', delay', over := wasConnected, attempts, delay, false;
      log := log + [Closed];
      SetAlive(false);
      if connected {
        log := log + [Lost];
        connected := false;
      }
      if cfg.maxAttempts > 0 && attempts >= cfg.maxAttempts {
        log := log + [GaveUp];
        over := true;
        return;
      }
      WaitFor(delay, patience);
      delay' := Min(delay * 2, cfg.maxDelay);
      attempts' := attempts + 1;
    }

    /** One turn of `run` in which it can. */
    method TurnOpened(readings: seq<Reading>, stopping: bool, wasConnected: bool)
      returns (connected: bool, over: bool)
      modifies this
      ensures forall attempts, delay ::
                View(connected, 0, cfg.delay, over)
                == Close(Accept(cfg, old(View(wasConnected, attempts, delay, false))), Read(readings), stopping)
    {
      connected, over := wasConnected, false;
      log := log + [Opened];
      SetAlive(true);
      if !connected {
        log := log + [Found];
        connected := true;
      }
      var lost, stopped := ReadFrames(readings);
      log := log + [Closed];
      SetAlive(false);
      if lost && !(stopped || stopping) {
        if connected {
          log := log + [Lost];
          connected := false;
        }
      } else if stopped || stopping {
        over := true;
      }
    }

    /** `run`; the stop request comes when the attempts are used up, if not before. */
    method Run(attempts: seq<Attempt>)
      modifies this
      ensures var k := Turns(cfg, old(View(false, 0, cfg.delay, false)), attempts);
              log == k.log && alive == k.alive
    {
      var reconnectAttempts: nat, currentDelay: nat := 0, cfg.delay;
      var wasConnected, over := false, false;
      var i := 0;
      while i < |attempts| && !over
        invariant i <= |attempts|
        invariant Turns(cfg, old(View(false, 0, cfg.delay, false)), attempts)
                  == Turns(cfg, View(wasConnected, reconnectAttempts, currentDelay, over), attempts[i..])
      {
        assert attempts[i..][1..] == attempts[i + 1..];
        match attempts[i] {
          case Refused(patience) =>
            wasConnected, reconnectAttempts, currentDelay, over
              := TurnRefused(patience, wasConnected, reconnectAttempts, currentDelay);
          case Connected(readings, stopping) =>
            wasConnected, over := TurnOpened(readings, stopping, wasConnected);
            reconnectAttempts, currentDelay := 0, cfg.delay;
        }
        i := i + 1;
      }
    }
  }

  // ------------------------------------------------------------------ the protocol

  datatype Phase = Phase(together: bool, alive: bool, input: bool) | Broken

  const APART: Phase := Phase(false, false, false)

  /**
    Reads a log as a protocol.  Found comes only when apart and alive, lost only when together and not
    alive, packets only when together and alive, waits only when apart.  The input is there whenever
    the stream is alive, is closed before the flag is cleared, and is not closed before the stream was
    found.
  */
  function Next(p: Phase, e: Entry): Phase {
    if p.Broken? then Broken
    else
      match e
      case Opened => if p.alive then Broken else p.(input := true)
      case Closed => if p.input && !p.together then Broken else p.(input := false)
      case Up => if p.input then p.(alive := true) else Broken
      case Down => if p.input then Broken else p.(alive := false)
      case Found => if !p.together && p.alive then p.(together := true) else Broken
      case Lost => if p.together && !p.alive && !p.input then p.(together := false) else Broken
      case Pushed => if p.together && p.alive && p.input then p else Broken
      case _ => if p == APART then p else Broken
  }

  function Protocol(log: seq<Entry>): Phase
    decreases |log|
  {
    if log == [] then APART else Next(Protocol(log[..|log| - 1]), log[|log| - 1])
  }

  lemma ProtocolSnoc(log: seq<Entry>, e: Entry)
    ensures Protocol(log + [e]) == Next(Protocol(log), e)
  {
    assert (log + [e])[..|log|] == log;
  }

  /** Attempts that have failed since the stream was last up. */
  function Streak(log: seq<Entry>): nat
    decreases |log|
  {
    if log == [] then 0
    else
      match log[|log| - 1]
      case Up => 0
      case Wait(_, _) => Streak(log[..|log| - 1]) + 1
      case _ => Streak(log[..|log| - 1])
  }

  lemma StreakSnoc(log: seq<Entry>, e: Entry)
    ensures Streak(log + [e]) == if e.Up? then 0 else if e.Wait? then Streak(log) + 1 else Streak(log)
  {
    assert (log + [e])[..|log|] == log;
  }

  function Pow2(k: nat): nat {
    if k == 0 then 1 else 2 * Pow2(k - 1)
  }

  /** What the wait after `k` failures should be. */
  function Backoff(cfg: Config, k: nat): nat {
    if k == 0 then cfg.delay else Min(cfg.delay * Pow2(k), cfg.maxDelay)
  }

  /** Every wait of the log has the length its place asks for, and giving up has its reason. */
  ghost predicate Paced(cfg: Config, log: seq<Entry>)
    decreases |log|
  {
    log != [] ==>
      var front, e := log[..|log| - 1], log[|log| - 1];
      && Paced(cfg, front)
      && (e.Wait? ==> e.ms == Backoff(cfg, Streak(front)) && (cfg.maxAttempts > 0 ==> Streak(front) < cfg.maxAttempts))
      && (e.GaveUp? ==> cfg.maxAttempts > 0 && Streak(front) >= cfg.maxAttempts)
  }

  lemma PacedSnoc(cfg: Config, log: seq<Entry>, e: Entry)
    ensures Paced(cfg, log + [e]) <==>
            && Paced(cfg, log)
            && (e.Wait? ==> e.ms == Backoff(cfg, Streak(log)) && (cfg.maxAttempts > 0 ==> Streak(log) < cfg.maxAttempts))
            && (e.GaveUp? ==> cfg.maxAttempts > 0 && Streak(log) >= cfg.maxAttempts)
  {
    assert (log + [e])[..|log|] == log;
  }

  lemma BackoffDoubles(cfg: Config, k: nat)
    ensures Backoff(cfg, k + 1) == Min(Backoff(cfg, k) * 2, cfg.maxDelay)
  {
    assert cfg.delay * Pow2(k + 1) == cfg.delay * Pow2(k) * 2;
    if k == 0 {
      assert cfg.delay * Pow2(0) == cfg.delay;
    }
  }

  ghost predicate Proper(cfg: Config, k: Link) {
    && Protocol(k.log) == Phase(k.connected, k.alive, k.alive)
    && k.attempts == Streak(k.log) && k.delay == Backoff(cfg, k.attempts)
    && Paced(cfg, k.log)
  }

  lemma NoteKeeps(cfg: Config, log: seq<Entry>, e: Entry)
    ensures Protocol(log + [e]) == Next(Protocol(log), e)
    ensures Streak(log + [e]) == if e.Up? then 0 else if e.Wait? then Streak(log) + 1 else Streak(log)
    ensures !e.Wait? && !e.GaveUp? ==> Paced(cfg, log + [e]) == Paced(cfg, log)
  {
    ProtocolSnoc(log, e);
    StreakSnoc(log, e);
    PacedSnoc(cfg, log, e);
  }

  lemma ClearIsProper(cfg: Config, k: Link)
    requires Proper(cfg, k) && (k.alive ==> k.connected)
    ensures Proper(cfg, Clear(k))
  {
    NoteKeeps(cfg, k.log, Closed);
    NoteKeeps(cfg, k.log + [Closed], Down);
  }

  lemma LoseIsProper(cfg: Config, k: Link)
    requires Proper(cfg, k) && !k.alive
    ensures Proper(cfg, Lose(k)) && !Lose(k).connected
  {
    NoteKeeps(cfg, k.log, Lost);
  }

  lemma {:induction false} FramesAreProper(cfg: Config, k: Link, n: nat)
    requires Proper(cfg, k) && k.connected && k.alive
    ensures Proper(cfg, k.(log := k.log + Frames(n)))
  {
    if n == 0 {
      assert k.log + [] == k.log;
    } else {
      FramesAreProper(cfg, k, n - 1);
      NoteKeeps(cfg, k.log + Frames(n - 1), Pushed);
      assert k.log + Frames(n) == (k.log + Frames(n - 1)) + [Pushed];
    }
  }

  lemma WaitIsProper(cfg: Config, k: Link, w: Entry)
    requires Proper(cfg, k) && !k.connected && !k.alive && w.Wait? && w.ms == k.delay
    requires cfg.maxAttempts > 0 ==> k.attempts < cfg.maxAttempts
    ensures Proper(cfg, Note(k, w).(delay := Min(k.delay * 2, cfg.maxDelay), attempts := k.attempts + 1))
  {
    NoteKeeps(cfg, k.log, w);
    PacedSnoc(cfg, k.log, w);
    BackoffDoubles(cfg, k.attempts);
  }

  lemma GivingUpIsProper(cfg: Config, k: Link)
    requires Proper(cfg, k) && !k.connected && !k.alive && cfg.maxAttempts > 0 && k.attempts >= cfg.maxAttempts
    ensures Proper(cfg, Note(k, GaveUp).(over := true))
  {
    NoteKeeps(cfg, k.log, GaveUp);
    PacedSnoc(cfg, k.log, GaveUp);
  }

  lemma RefuseIsProper(cfg: Config, k: Link, patience: nat)
    requires Proper(cfg, k) && !k.alive
    ensures Proper(cfg, Refuse(cfg, k, patience))
  {
    ClearIsProper(cfg, k);
    LoseIsProper(cfg, Clear(k));
    var lost := Lose(Clear(k));
    if cfg.maxAttempts > 0 && k.attempts >= cfg.maxAttempts {
      GivingUpIsProper(cfg, lost);
    } else {
      WaitIsProper(cfg, lost, Wait(k.delay, Min(k.delay / 100, patience)));
    }
  }

  lemma AcceptIsProper(cfg: Config, k: Link)
    requires Proper(cfg, k) && !k.alive
    ensures Proper(cfg, Accept(cfg, k)) && Accept(cfg, k).connected && Accept(cfg, k).alive
  {
    NoteKeeps(cfg, k.log, Opened);
    NoteKeeps(cfg, k.log + [Opened], Up);
    NoteKeeps(cfg, k.log + [Opened] + [Up], Found);
  }

  lemma TurnIsProper(cfg: Config, k: Link, a: Attempt)
    requires Proper(cfg, k) && !k.alive
    ensures Proper(cfg, Turn(cfg, k, a)) && !Turn(cfg, k, a).alive
  {
    match a {
      case Refused(patience) => RefuseIsProper(cfg, k, patience);
      case Connected(readings, stopping) =>
        var up, e := Accept(cfg, k), Read(readings);
        AcceptIsProper(cfg, k);
        FramesAreProper(cfg, up, e.frames);
        var read := up.(log := up.log + Frames(e.frames));
        ClearIsProper(cfg, read);
        LoseIsProper(cfg, Clear(read));
    }
  }

  /** A run from a proper state between two turns keeps the protocol and the pace. */
  lemma {:induction false} RunIsProper(cfg: Config, k: Link, attempts: seq<Attempt>)
    requires Proper(cfg, k) && !k.alive
    ensures Proper(cfg, Turns(cfg, k, attempts)) && !Turns(cfg, k, attempts).alive
    decreases |attempts|
  {
    if attempts != [] && !k.over {
      TurnIsProper(cfg, k, attempts[0]);
      RunIsProper(cfg, Turn(cfg, k, attempts[0]), attempts[1..]);
    }
  }

  /**
    In every run found and lost strictly alternate, beginning with found; the stream is alive at each
    found and each packet and not at each lost; no packet comes between a lost and the next found;
    the k-th failure in a row waits as `Backoff` says.
  */
  lemma EveryRunIsProper(cfg: Config, attempts: seq<Attempt>)
    ensures var k := Turns(cfg, NewLink(cfg), attempts);
            Protocol(k.log) == Phase(k.connected, false, false) && Paced(cfg, k.log)
  {
    RunIsProper(cfg, NewLink(cfg), attempts);
  }

  /** What is proper is proper up to every point. */
  lemma {:induction false} PrefixIsProper(log: seq<Entry>, n: nat)
    requires !Protocol(log).Broken? && n <= |log|
    ensures !Protocol(log[..n]).Broken?
    decreases |log|
  {
    if n < |log| {
      PrefixIsProper(log[..|log| - 1], n);
      assert log[..|log| - 1][..n] == log[..n];
    } else {
      assert log[..n] == log;
    }
  }

  /** In a proper log no packet comes between a lost and the next found. */
  lemma {:induction false} NoPacketApart(log: seq<Entry>, i: nat, j: nat)
    requires !Protocol(log).Broken? && i < j < |log| && log[i] == Lost && log[j] == Pushed
    ensures exists m :: i < m < j && log[m] == Found
  {
    TogetherAt(log, j);
    FoundBetween(log, i, j);
  }

  lemma TogetherAt(log: seq<Entry>, j: nat)
    requires !Protocol(log).Broken? && j < |log| && log[j] == Pushed
    ensures var p := Protocol(log[..j]); p.Phase? && p.together
  {
    PrefixIsProper(log, j + 1);
    assert log[..j + 1] == log[..j] + [Pushed];
    ProtocolSnoc(log[..j], Pushed);
  }

  lemma {:induction false} FoundBetween(log: seq<Entry>, i: nat, j: nat)
    requires !Protocol(log).Broken? && i < j <= |log| && log[i] == Lost
    requires var p := Protocol(log[..j]); p.Phase? && p.together
    ensures exists m :: i < m < j && log[m] == Found
    decreases j
  {
    PrefixIsProper(log, j);
    assert log[..j] == log[..j - 1] + [log[j - 1]];
    ProtocolSnoc(log[..j - 1], log[j - 1]);
    if log[j - 1] != Found {
      if i < j - 1 {
        FoundBetween(log, i, j - 1);
      }
    } else if i < j - 1 {
      assert i < j - 1 < j && log[j - 1] == Found;
    }
  }

  // ------------------------------------------------------------------ one turn, read by read

  /** Packets, and reads that are to be tried again. */
  ghost predicate Flowing(readings: seq<Reading>) {
    forall i | 0 <= i < |readings| :: readings[i] == Frame || readings[i] == Again
  }

  /** A result that ends reading. */
  predicate EndsReading(r: Reading) {
    r == Interrupted || r == ExitCode || r.Failed?
  }

  lemma {:induction false} FramesAre(n: nat)
    ensures Frames(n) == seq(n, i => Pushed)
  {
    if n > 0 { FramesAre(n - 1); }
  }

  lemma {:induction false} ReadUntil(front: seq<Reading>, end: Reading, rest: seq<Reading>)
    requires Flowing(front) && EndsReading(end)
    ensures Read(front + ([end] + rest))
            == Ending(multiset(front)[Frame], end == Interrupted || end == Failed(false), end == Failed(true))
    decreases |front|
  {
    var all := front + ([end] + rest);
    if front == [] {
      assert all == [end] + rest;
    } else {
      assert all[0] == front[0] && all[1..] == front[1..] + ([end] + rest);
      assert front == [front[0]] + front[1..];
      ReadUntil(front[1..], end, rest);
    }
  }

  lemma {:induction false} ReadToTheStop(front: seq<Reading>)
    requires Flowing(front)
    ensures Read(front) == Ending(multiset(front)[Frame], false, true)
    decreases |front|
  {
    if front != [] {
      assert front == [front[0]] + front[1..];
      ReadToTheStop(front[1..]);
    }
  }

  /** What a turn that could open tells: `lost` and `stop` are why it ended. */
  ghost predicate Told(cfg: Config, k: Link, t: Link, packets: nat, lost: bool, stop: bool) {
    && t.log == k.log + ([Opened, Up] + (if k.connected then [] else [Found])) + seq(packets, i => Pushed)
                + [Closed, Down] + (if lost then [Lost] else [])
    && t.connected == !lost && !t.alive && t.over == stop && t.attempts == 0 && t.delay == cfg.delay
  }

  lemma ClosedIsTold(cfg: Config, k: Link, e: Ending, stopping: bool)
    requires !k.over
    ensures Told(cfg, k, Close(Accept(cfg, k), e, stopping), e.frames,
                 e.lost && !(e.stopped || stopping), e.stopped || stopping)
  {
    FramesAre(e.frames);
    var opening := [Opened, Up] + (if k.connected then [] else [Found]);
    assert Accept(cfg, k).log == k.log + opening;
    var read := k.log + opening + Frames(e.frames);
    assert (read + [Closed]) + [Down] == read + [Closed, Down];
    assert read + [Closed, Down] + [] == read + [Closed, Down];
  }

  /**
    A stream that opens: one packet is handed over for each frame read, and whatever would follow the
    first result that ends reading is not read.  The connection counts as lost exactly on an interrupt or
    a failure, if no stop came; an exit code does not, and a stop ends the loop.
  */
  lemma TurnIsTold(cfg: Config, k: Link, front: seq<Reading>, end: Reading, rest: seq<Reading>, stopping: bool)
    requires !k.over && Flowing(front) && EndsReading(end)
    ensures Told(cfg, k, Turn(cfg, k, Connected(front + ([end] + rest), stopping)), multiset(front)[Frame],
                 (end == Interrupted || end == Failed(false)) && !stopping, end == Failed(true) || stopping)
  {
    ReadUntil(front, end, rest);
    ClosedIsTold(cfg, k, Read(front + ([end] + rest)), stopping);
  }

  /** The same if a stop is seen while reading goes on. */
  lemma StoppedTurnIsTold(cfg: Config, k: Link, front: seq<Reading>, stopping: bool)
    requires !k.over && Flowing(front)
    ensures Told(cfg, k, Turn(cfg, k, Connected(front, stopping)), multiset(front)[Frame], false, true)
  {
    ReadToTheStop(front);
    ClosedIsTold(cfg, k, Read(front), stopping);
  }

  /** A stream that does not open: a loss is told once, and then the loop waits, or gives up after as many attempts as allowed. */
  lemma RefusalIsTold(cfg: Config, k: Link, patience: nat)
    requires !k.over
    ensures var t := Turn(cfg, k, Refused(patience));
            var giveUp := cfg.maxAttempts > 0 && k.attempts >= cfg.maxAttempts;
            && t.log == k.log + [Closed, Down] + (if k.connected then [Lost] else [])
                        + [if giveUp then GaveUp else Wait(k.delay, if patience < k.delay / 100 then patience else k.delay / 100)]
            && !t.connected && !t.alive && t.over == giveUp
            && (!giveUp ==> t.attempts == k.attempts + 1
                            && t.delay == if 2 * k.delay < cfg.maxDelay then 2 * k.delay else cfg.maxDelay)
  {
    assert k.log + [Closed] + [Down] == k.log + [Closed, Down];
    assert k.log + [Closed, Down] + [] == k.log + [Closed, Down];
  }

  /** The loop takes the attempts one by one until it is over. */
  lemma {:induction false} TurnsSnoc(cfg: Config, k: Link, attempts: seq<Attempt>, a: Attempt)
    ensures var t := Turns(cfg, k, attempts);
            Turns(cfg, k, attempts + [a]) == if t.over then t else Turn(cfg, t, a)
    decreases |attempts|
  {
    if attempts == [] {
      assert [] + [a] == [a] && [a][1..] == [];
    } else if !k.over {
      assert (attempts + [a])[0] == attempts[0] && (attempts + [a])[1..] == attempts[1..] + [a];
      TurnsSnoc(cfg, Turn(cfg, k, attempts[0]), attempts[1..], a);
    }
  }
}
