/**
  One recording session (recording_session.cpp and .hpp).

  Every method of `RecordingSession` is one region that the code runs under its mutex, or the
  file output it does between two such regions.  `Session` is the session as a value, and the
  functions on it say what each region does; every method is proved to do exactly that.

  FFmpeg is modelled by what it is told: `files` lists the opened files with the packets written
  to each and the number of trailers; `freed` lists every packet given to av_packet_free, each
  time it is given.  Whether a file opens or a limit of time is reached is a parameter.

  The buffer holds handles: a handle owns its packet until the pointer is moved out of it or set
  to null, and a handle that still owns one frees it when it is destroyed.
*/
module Recording {
  import opened RecordingBuffer
  import opened Wrappers

  datatype State = IDLE | PRE_BUFFER | RECORDING | FINALIZING | POST_BUFFER

  datatype Config = Config(preKeys: nat, postKeys: int, timed: bool, maxKbytes: int, maxChunks: int, dir: string)

  /** A Packet: the pointer it owns, and its own copies of two fields. */
  datatype Handle = Handle(pkt: Option<Packet>, key: bool, size: nat)

  /** The constructor from a pointer. */
  function NewHandle(p: Packet): Handle {
    Handle(Some(p), p.key, p.size)
  }

  /** What the move constructor, or an assignment of null to the pointer, leaves behind. */
  function Emptied(h: Handle): Handle {
    h.(pkt := None)
  }

  datatype File = File(event: nat, chunk: nat, packets: seq<Packet>, trailers: nat)

  datatype Session = Session(
    state: State,
    pre: seq<Packet>,
    keys: int,
    bytes: nat,
    postKeys: int,
    out: Option<nat>,
    filename: string,
    eventId: nat,
    chunkIdx: nat,
    chunkBytes: nat,
    files: seq<File>,
    freed: seq<Packet>,
    down: bool)

  function NewSession(): Session {
    Session(PRE_BUFFER, [], 0, 0, 0, None, "", 0, 0, 0, [], [], false)
  }

  // ------------------------------------------------------------------ the regions as functions

  function Free(s: Session, ps: seq<Packet>): Session {
    s.(freed := s.freed + ps)
  }

  function Append(f: File, ps: seq<Packet>): File {
    f.(packets := f.packets + ps)
  }

  /** write_packet_to_file; the packet is freed, and if a file is open it has been written first. */
  function Write(s: Session, ps: seq<Packet>): Session {
    if s.out.Some? && s.out.value < |s.files| then
      Free(s.(files := s.files[s.out.value := Append(s.files[s.out.value], ps)]), ps)
    else Free(s, ps)
  }

  /** init_muxer. */
  function Open(cfg: Config, s: Session, opens: bool, name: string): Session {
    var named := s.(filename := cfg.dir + "/" + name);
    if opens then named.(files := s.files + [File(s.eventId, s.chunkIdx, [], 0)], out := Some(|s.files|)) else named
  }

  predicate Accepts(p: Packet) {
    p.size != 0 && p.size <= MAX_REASONABLE_PACKET_SIZE
  }

  /** The front of the buffer is freed, `kept` remains. */
  function Keep(s: Session, kept: seq<Packet>): Session
    requires |kept| <= |s.pre|
  {
    Free(s, s.pre[..|s.pre| - |kept|]).(pre := kept, keys := Keys(kept), bytes := Bytes(kept))
  }

  function PushedBack(s: Session, p: Packet): Session {
    s.(pre := s.pre + [p], keys := s.keys + (if p.key then 1 else 0), bytes := s.bytes + p.size)
  }

  function Trimmed(cfg: Config, s: Session): Session {
    Keep(s, Trim(s.pre, cfg.preKeys))
  }

  /** add_to_pre_buffer. */
  function AddToPre(cfg: Config, s: Session, p: Packet): Session {
    Trimmed(cfg, PushedBack(s, p))
  }

  predicate AtCount(cfg: Config, s: Session) {
    cfg.maxChunks > 0 && s.chunkIdx >= cfg.maxChunks
  }

  predicate AtSize(cfg: Config, s: Session) {
    cfg.maxKbytes > 0 && s.chunkBytes >= cfg.maxKbytes * 1024
  }

  /** The session after a packet, and whether the worker is to finalize. */
  function Push(cfg: Config, s: Session, p: Packet, overdue: bool): (Session, bool) {
    if s.down || !Accepts(p) then (Free(s, [p]), false)
    else
      match s.state
      case IDLE => (Free(s, [p]), false)
      case FINALIZING => (Free(s, [p]), false)
      case PRE_BUFFER => (AddToPre(cfg, s, p), false)
      case RECORDING =>
        var w := Write(s, [p]).(chunkBytes := s.chunkBytes + p.size);
        (w, ((cfg.timed && overdue) || AtSize(cfg, w)) && !AtCount(cfg, w))
      case POST_BUFFER =>
        var w := Write(s, [p]).(postKeys := s.postKeys + if p.key then 1 else 0);
        (w, w.postKeys >= cfg.postKeys)
  }

  /** The first region of finalize_and_rotate; the flag says whether there is a file to finalize. */
  function FinalizeBegin(s: Session): (Session, bool) {
    if s.state == RECORDING && s.out.Some? then (s.(state := FINALIZING), true)
    else if s.state == POST_BUFFER && s.out.Some? then (s.(state := FINALIZING), true)
    else if s.state == POST_BUFFER then (s.(state := PRE_BUFFER, postKeys := 0), false)
    else (s, false)
  }

  /** The file that finalize_file_io works on. */
  function Taken(s: Session, path: string): Option<nat> {
    if path == "" then None else s.out
  }

  /** av_write_trailer and avio_closep on the file taken. */
  function Trailer(s: Session, file: nat): Session {
    if file < |s.files| then s.(files := s.files[file := s.files[file].(trailers := s.files[file].trailers + 1)]) else s
  }

  /** The last region of finalize_and_rotate, which rotates or ends the event. */
  function FinalizeEnd(cfg: Config, s: Session, previous: State, opens: bool, name: string): Session {
    var closed := s.(out := None);
    if previous == RECORDING then
      Open(cfg, closed.(chunkIdx := s.chunkIdx + 1, chunkBytes := 0), opens, name).(state := RECORDING)
    else if previous == POST_BUFFER then closed.(postKeys := 0, state := PRE_BUFFER)
    else closed
  }

  predicate InEvent(state: State) {
    state == RECORDING || state == POST_BUFFER || state == FINALIZING
  }

  function Start(cfg: Config, s: Session, opens: bool, name: string): Session {
    if InEvent(s.state) then s
    else
      Drain(Open(cfg, Begun(s), opens, name)).(state := RECORDING)
  }

  /** The numbers of a new event. */
  function Begun(s: Session): Session {
    s.(eventId := s.eventId + 1, chunkIdx := 0, chunkBytes := 0)
  }

  function Drain(s: Session): Session {
    Write(s, s.pre).(pre := [], keys := 0, bytes := 0)
  }

  function Continue(s: Session): Session {
    if s.state == POST_BUFFER then s.(postKeys := 0, state := RECORDING) else s
  }

  function Stop(s: Session): Session {
    if s.state == RECORDING then s.(postKeys := 0, state := POST_BUFFER) else s
  }

  /** The first region of force_stop; the flag is false where it returns at once. */
  function ForceBegin(s: Session): (Session, bool) {
    if InEvent(s.state) then (Free(s, s.pre).(pre := [], keys := 0, postKeys := 0, state := FINALIZING), true) else (s, false)
  }

  function ForceEnd(s: Session): Session {
    s.(out := None, state := PRE_BUFFER)
  }

  function ShutBegin(s: Session): Session {
    Free(s, s.pre).(pre := [], state := IDLE, down := true)
  }

  function ShutEnd(s: Session): Session {
    s.(out := None)
  }

  /** The path that the closing paths take along: force_stop and shutdown look for a file first. */
  function PathToFinalize(s: Session): string {
    if s.out.Some? then s.filename else ""
  }

  // ------------------------------------------------------------------ the session as an object

  class RecordingSession {
    const cfg: Config
    var state: State
    var preBuffer: seq<Handle>
    ghost var held: seq<Packet>
    var preKeys: int
    var bufferBytes: nat
    var postKeys: int
    var out: Option<nat>
    var filename: string
    var eventId: nat
    var chunkIdx: nat
    var chunkBytes: nat
    var files: seq<File>
    var freed: seq<Packet>
    var shutdownRequested: bool

    constructor (cfg: Config)
      ensures this.cfg == cfg && Valid() && View() == NewSession()
    {
      this.cfg := cfg;
      state := PRE_BUFFER;
      preBuffer, held, preKeys, bufferBytes, postKeys := [], [], 0, 0, 0;
      out, filename, eventId, chunkIdx, chunkBytes := None, "", 0, 0, 0;
      files, freed, shutdownRequested := [], [], false;
    }

    ghost function View(): Session
      reads this
    {
      Session(state, held, preKeys, bufferBytes, postKeys, out, filename, eventId, chunkIdx, chunkBytes,
              files, freed, shutdownRequested)
    }

    /** Every handle in the buffer owns its packet; `held` is these packets. */
    ghost predicate Owning()
      reads `preBuffer, `held
    {
      |preBuffer| == |held| && forall i | 0 <= i < |held| :: preBuffer[i] == NewHandle(held[i])
    }

    /** The cached counters are those of the buffer. */
    ghost predicate Counted()
      reads `preBuffer, `held, `preKeys, `bufferBytes
    {
      Owning() && preKeys == Keys(held) && bufferBytes == Bytes(held)
    }

    /** Until shutdown the counters are right, and outside PRE_BUFFER nothing is buffered. */
    ghost predicate Valid()
      reads this
    {
      && Owning()
      && (out.Some? ==> out.value < |files|)
      && (!shutdownRequested ==> Counted() && (InEvent(state) ==> held == []))
    }

    // ---------------------------------------------------------------- ownership

    /** av_packet_free; a null pointer is let pass. */
    method AvPacketFree(pkt: Option<Packet>)
      modifies `freed
      ensures freed == if pkt.Some? then old(freed) + [pkt.value] else old(freed)
    {
      if pkt.Some? {
        freed := freed + [pkt.value];
      }
    }

    /** The destructor of a handle. */
    method Destroy(h: Handle)
      modifies `freed
      ensures freed == if h.pkt.Some? then old(freed) + [h.pkt.value] else old(freed)
    {
      if h.pkt.Some? {
        AvPacketFree(h.pkt);
      }
    }

    /** clear() on the buffer: every handle is destroyed, so the packets still owned are freed. */
    method ClearPreBuffer()
      modifies `preBuffer, `held, `freed
      ensures preBuffer == [] && held == []
      ensures old(Owning()) ==> freed == old(freed) + old(held)
      ensures (forall i | 0 <= i < |old(preBuffer)| :: old(preBuffer)[i].pkt.None?) ==> freed == old(freed)
    {
      for i := 0 to |preBuffer|
        invariant preBuffer == old(preBuffer) && held == old(held)
        invariant old(Owning()) ==> freed == old(freed) + held[..i]
        invariant (forall j | 0 <= j < |preBuffer| :: preBuffer[j].pkt.None?) ==> freed == old(freed)
      {
        Destroy(preBuffer[i]);
        assert old(Owning()) ==> held[..i + 1] == held[..i] + [held[i]];
      }
      assert old(Owning()) ==> held[..|preBuffer|] == held;
      preBuffer := [];
      held := [];
    }

    // ---------------------------------------------------------------- the pre-buffer

    /** The first `n` packets of `was` have been taken off the front and freed. */
    ghost predicate Popped(was: seq<Packet>, before: seq<Packet>, n: nat)
      reads `preBuffer, `held, `freed
    {
      Owning() && n <= |was| && held == was[n..] && freed == before + was[..n]
    }

    method PopFront(ghost was: seq<Packet>, ghost before: seq<Packet>, ghost n: nat)
      requires preBuffer != [] && Popped(was, before, n) && bufferBytes == Bytes(held)
      modifies `preBuffer, `held, `freed, `bufferBytes
      ensures Popped(was, before, n + 1) && bufferBytes == Bytes(held)
    {
      bufferBytes := bufferBytes - preBuffer[0].size;
      Destroy(preBuffer[0]);
      preBuffer := preBuffer[1..];
      held := held[1..];
      assert was[..n + 1] == was[..n] + [was[n]];
      assert was[n..][1..] == was[n + 1..];
    }

    method PopKeyOrNot(ghost was: seq<Packet>, ghost before: seq<Packet>, ghost n: nat)
      requires preBuffer != [] && Popped(was, before, n) && Counted()
      modifies `preBuffer, `held, `freed, `bufferBytes, `preKeys
      ensures Popped(was, before, n + 1) && Counted()
    {
      if preBuffer[0].key {
        preKeys := preKeys - 1;
      }
      PopFront(was, before, n);
    }

    method FirstKey() returns (first: nat)
      requires Owning()
      ensures first == Lead(held)
    {
      first := 0;
      assert held[0..] == held;
      while first < |preBuffer| && !preBuffer[first].key
        invariant first <= |preBuffer| && Lead(held) == first + Lead(held[first..])
      {
        assert held[first..][1..] == held[first + 1..];
        first := first + 1;
      }
    }

    /** drop_oldest_gop_from_pre_buffer. */
    method DropOldestGop()
      requires Counted()
      modifies `preBuffer, `held, `freed, `bufferBytes, `preKeys
      ensures Counted() && Popped(old(held), old(freed), GopSize(old(held)))
    {
      ghost var was, before := held, freed;
      assert was[0..] == was && before + was[..0] == before;
      if preBuffer == [] {
        return;
      }
      var first := FirstKey();
      if first == |preBuffer| {
        DropQuarter(was, before);
        return;
      }
      DropLead(first, was, before);
      assert was[first..][1..] == was[first + 1..];
      DropGroup(first, was, before);
    }

    /** Without a key frame, a quarter of the buffer goes. */
    method DropQuarter(ghost was: seq<Packet>, ghost before: seq<Packet>)
      requires held == was != [] && freed == before && Counted() && Lead(was) == |was|
      modifies `preBuffer, `held, `freed, `bufferBytes
      ensures Counted() && Popped(was, before, GopSize(was))
    {
      var toRemove := if |preBuffer| / 4 > 1 then |preBuffer| / 4 else 1;
      assert was[0..] == was && before + was[..0] == before;
      for i := 0 to toRemove
        invariant Popped(was, before, i) && bufferBytes == Bytes(held)
      {
        PopFront(was, before, i);
      }
      LeadHasNoKey(was, toRemove);
    }

    /** The packets in front of the first key frame: their sizes are counted off, then they are erased. */
    method DropLead(first: nat, ghost was: seq<Packet>, ghost before: seq<Packet>)
      requires held == was && freed == before && Counted() && first == Lead(was) < |was|
      modifies `preBuffer, `held, `freed, `bufferBytes
      ensures Counted() && Popped(was, before, first)
    {
      assert was[0..] == was;
      for i := 0 to first
        invariant bufferBytes == Bytes(was[i..])
        invariant held == was && freed == before && preKeys == Keys(was) && Owning()
      {
        assert was[i..][1..] == was[i + 1..];
        bufferBytes := bufferBytes - preBuffer[i].size;
      }
      LeadHasNoKey(was, first);
      EraseFront(first, was, before);
    }

    /** erase() of the first `n` handles, which destroys them. */
    method EraseFront(n: nat, ghost was: seq<Packet>, ghost before: seq<Packet>)
      requires Owning() && held == was && freed == before && n <= |was|
      modifies `preBuffer, `held, `freed
      ensures Popped(was, before, n)
    {
      for i := 0 to n
        invariant Owning() && held == was && freed == before + was[..i]
      {
        Destroy(preBuffer[i]);
        assert was[..i + 1] == was[..i] + [was[i]];
      }
      preBuffer := preBuffer[n..];
      held := held[n..];
    }

    /** Up to `n` the first group is gone; `removed` says whether its key frame is. */
    ghost predicate InGroup(first: nat, was: seq<Packet>, before: seq<Packet>, n: nat, removed: bool)
      reads `preBuffer, `held, `freed, `bufferBytes, `preKeys
    {
      && Popped(was, before, n) && bufferBytes == Bytes(held) && first <= n
      && if removed then n + Lead(held) == GopSize(was) && preKeys == Keys(held) + 1
         else n == first == Lead(was) < |was| && preKeys == Keys(held) && held != [] && held[0].key
    }

    method PopOfGroup(ghost first: nat, ghost was: seq<Packet>, ghost before: seq<Packet>, ghost n: nat, ghost removed: bool)
      requires preBuffer != [] && InGroup(first, was, before, n, removed) && (removed ==> !preBuffer[0].key)
      modifies `preBuffer, `held, `freed, `bufferBytes
      ensures InGroup(first, was, before, n + 1, true) && |preBuffer| < |old(preBuffer)|
    {
      NextOfGroup(was, n, removed);
      PopFront(was, before, n);
    }

    lemma GroupBegins(first: nat, was: seq<Packet>, before: seq<Packet>)
      requires Popped(was, before, first) && Counted() && first == Lead(was) < |was|
      ensures InGroup(first, was, before, first, false)
    {
      assert held[0] == was[first];
    }

    /** Nothing is left, or the next group begins. */
    lemma GroupIsGone(first: nat, was: seq<Packet>, before: seq<Packet>, n: nat, removed: bool)
      requires InGroup(first, was, before, n, removed) && (preBuffer == [] || (removed && preBuffer[0].key))
      ensures removed && Popped(was, before, GopSize(was))
      ensures preKeys == Keys(held) + 1 && bufferBytes == Bytes(held)
    {
      assert Lead(held) == 0;
    }

    /** A key frame and what follows it, up to the next. */
    method DropGroup(ghost first: nat, ghost was: seq<Packet>, ghost before: seq<Packet>)
      requires Popped(was, before, first) && Counted() && first == Lead(was) < |was|
      modifies `preBuffer, `held, `freed, `bufferBytes, `preKeys
      ensures Counted() && Popped(was, before, GopSize(was))
    {
      GroupBegins(first, was, before);
      var keyframeRemoved := false;
      ghost var n := first;
      while preBuffer != []
        invariant InGroup(first, was, before, n, keyframeRemoved)
        decreases |preBuffer|
      {
        ghost var removed := keyframeRemoved;
        if preBuffer[0].key {
          if keyframeRemoved {
            break;
          }
          keyframeRemoved := true;
        }
        PopOfGroup(first, was, before, n, removed);
        n := n + 1;
      }
      GroupIsGone(first, was, before, n, keyframeRemoved);
      if keyframeRemoved {
        preKeys := preKeys - 1;
      }
    }

    /** The buffer is what is left of `was`. */
    ghost predicate Reduced(was: seq<Packet>, before: seq<Packet>)
      reads `preBuffer, `held, `freed, `bufferBytes, `preKeys
    {
      Counted() && |preBuffer| <= |was| && Popped(was, before, |was| - |preBuffer|)
    }

    method EmergencyClear(target: nat, ghost was: seq<Packet>, ghost before: seq<Packet>)
      requires Reduced(was, before)
      modifies `preBuffer, `held, `freed, `bufferBytes, `preKeys
      ensures Reduced(was, before) && held == FitBytes(old(held), target)
    {
      while preBuffer != [] && bufferBytes > target
        invariant Reduced(was, before) && FitBytes(old(held), target) == FitBytes(held, target)
        decreases |preBuffer|
      {
        PopKeyOrNot(was, before, |was| - |preBuffer|);
      }
    }

    method EmergencyClearByCount(target: nat, ghost was: seq<Packet>, ghost before: seq<Packet>)
      requires Reduced(was, before)
      modifies `preBuffer, `held, `freed, `bufferBytes, `preKeys
      ensures Reduced(was, before) && held == FitCount(old(held), target)
    {
      while |preBuffer| > target
        invariant Reduced(was, before) && FitCount(old(held), target) == FitCount(held, target)
        decreases |preBuffer|
      {
        FitCountStep(held, target);
        PopKeyOrNot(was, before, |was| - |preBuffer|);
      }
    }

    /** The loop over whole groups; from a buffer within the limit it turns at most once. */
    method DropGops() returns (ghost turns: nat)
      requires Counted() && Keys(held) <= cfg.preKeys + 1
      modifies `preBuffer, `held, `freed, `bufferBytes, `preKeys
      ensures Reduced(old(held), old(freed)) && held == KeepKeys(old(held), cfg.preKeys)
      ensures turns <= 1
    {
      ghost var was, before := held, freed;
      assert was[0..] == was && before + was[..0] == before;
      turns := 0;
      while preKeys > cfg.preKeys
        invariant Counted() && turns <= 1
        invariant turns == 0 ==> held == was && freed == before
        invariant turns == 1 ==>
                    && Keys(was) == cfg.preKeys + 1 && Popped(was, before, GopSize(was))
                    && Keys(held) == cfg.preKeys && held == KeepKeys(was, cfg.preKeys)
        decreases 1 - turns
      {
        DropGopKeeps(held, cfg.preKeys);
        DropOldestGop();
        turns := turns + 1;
      }
    }

    /** add_to_pre_buffer: the handle is moved into the buffer, and comes back without its packet. */
    method AddToPreBuffer(h: Handle) returns (h': Handle)
      requires Counted() && Keys(held) <= cfg.preKeys && h.pkt.Some? && h == NewHandle(h.pkt.value)
      modifies `preBuffer, `held, `freed, `bufferBytes, `preKeys
      ensures Counted() && View() == AddToPre(cfg, old(View()), h.pkt.value) && h'.pkt.None?
    {
      h' := PushBack(h);
      TrimPreBuffer();
    }

    method PushBack(h: Handle) returns (h': Handle)
      requires Counted() && h.pkt.Some? && h == NewHandle(h.pkt.value)
      modifies `preBuffer, `held, `bufferBytes, `preKeys
      ensures View() == PushedBack(old(View()), h.pkt.value) && h'.pkt.None?
      ensures Counted() && Keys(held) <= old(Keys(held)) + 1
    {
      SumsSnoc(held, h.pkt.value);
      bufferBytes := bufferBytes + h.size;
      if h.key {
        preKeys := preKeys + 1;
      }
      preBuffer := preBuffer + [h];
      held := held + [h.pkt.value];
      h' := Emptied(h);
    }

    /** The trimming that ends add_to_pre_buffer. */
    method TrimPreBuffer()
      requires Counted() && Keys(held) <= cfg.preKeys + 1
      modifies `preBuffer, `held, `freed, `bufferBytes, `preKeys
      ensures Counted() && View() == Trimmed(cfg, old(View()))
    {
      ghost var s := View();
      ThreeChecks();
      KeepIs(s, View());
    }

    method ThreeChecks()
      requires Counted() && Keys(held) <= cfg.preKeys + 1
      modifies `preBuffer, `held, `freed, `bufferBytes, `preKeys
      ensures Reduced(old(held), old(freed)) && held == Trim(old(held), cfg.preKeys)
    {
      ghost var was, before := held, freed;
      ghost var turns := DropGops();
      CheckBytes(was, before);
      CheckCount(was, before);
    }

    method CheckBytes(ghost was: seq<Packet>, ghost before: seq<Packet>)
      requires Reduced(was, before)
      modifies `preBuffer, `held, `freed, `bufferBytes, `preKeys
      ensures Reduced(was, before) && held == CapBytes(old(held))
    {
      if bufferBytes > MAX_PRE_BUFFER_BYTES {
        EmergencyClear(MAX_PRE_BUFFER_BYTES / 2, was, before);
      }
    }

    method CheckCount(ghost was: seq<Packet>, ghost before: seq<Packet>)
      requires Reduced(was, before)
      modifies `preBuffer, `held, `freed, `bufferBytes, `preKeys
      ensures Reduced(was, before) && held == CapCount(old(held))
    {
      if |preBuffer| > MAX_PRE_BUFFER_PACKETS {
        EmergencyClearByCount(MAX_PRE_BUFFER_PACKETS / 2, was, before);
      }
    }

    // ---------------------------------------------------------------- packets

    /** write_packet_to_file. */
    method WritePacketToFile(pkt: Option<Packet>)
      modifies `files, `freed
      ensures View() == (if pkt.Some? then Write(old(View()), [pkt.value]) else old(View())) && |files| == |old(files)|
    {
      if out.None? || out.value >= |files| || pkt.None? {
        AvPacketFree(pkt);
        return;
      }
      files := files[out.value := Append(files[out.value], [pkt.value])];
      AvPacketFree(pkt);
    }

    method AddToPostBuffer(h: Handle) returns (h': Handle, full: bool)
      requires h.pkt.Some? && h == NewHandle(h.pkt.value)
      modifies `files, `freed, `postKeys
      ensures View() == Write(old(View()), [h.pkt.value]).(postKeys := old(postKeys) + if h.key then 1 else 0)
      ensures (full <==> postKeys >= cfg.postKeys) && h'.pkt.None?
      ensures |files| == |old(files)|
    {
      if h.key {
        postKeys := postKeys + 1;
      }
      WritePacketToFile(h.pkt);
      h' := Emptied(h);
      full := postKeys >= cfg.postKeys;
    }

    /** A packet of the running event, and whether its chunk is full. */
    method RecordPacket(h: Handle, overdue: bool) returns (h': Handle, full: bool)
      requires state == RECORDING && !shutdownRequested
      requires h.pkt.Some? && h == NewHandle(h.pkt.value) && Accepts(h.pkt.value)
      modifies `files, `freed, `chunkBytes
      ensures |files| == |old(files)|
      ensures (View(), full) == Push(cfg, old(View()), h.pkt.value, overdue) && h'.pkt.None?
    {
      WritePacketToFile(h.pkt);
      h' := Emptied(h);
      chunkBytes := chunkBytes + h'.size;
      full := false;
      if cfg.timed || cfg.maxKbytes > 0 {
        var timeHit := cfg.timed && overdue;
        var sizeHit := cfg.maxKbytes > 0 && chunkBytes >= cfg.maxKbytes * 1024;
        var countHit := cfg.maxChunks > 0 && chunkIdx >= cfg.maxChunks;
        if (timeHit || sizeHit) && !countHit {
          full := true;
        }
      }
    }

    /** push_packet up to the end of its region, and the destructor of its handle. */
    method PushPacket(p: Packet, overdue: bool) returns (shouldFinalize: bool)
      requires Valid() && (!shutdownRequested ==> Keys(held) <= cfg.preKeys)
      modifies this
      ensures Valid() && (View(), shouldFinalize) == Push(cfg, old(View()), p, overdue)
    {
      shouldFinalize := false;
      if shutdownRequested || p.size == 0 || p.size > MAX_REASONABLE_PACKET_SIZE {
        AvPacketFree(Some(p));
        return;
      }
      var packet := NewHandle(p);
      packet, shouldFinalize := ByState(packet, overdue);
      Destroy(packet);
    }

    /** The switch over the state. */
    method ByState(h: Handle, overdue: bool) returns (h': Handle, shouldFinalize: bool)
      requires Valid() && !shutdownRequested && Keys(held) <= cfg.preKeys
      requires h.pkt.Some? && h == NewHandle(h.pkt.value) && Accepts(h.pkt.value)
      modifies this
      ensures Valid() && (View(), shouldFinalize) == Push(cfg, old(View()), h.pkt.value, overdue) && h'.pkt.None?
    {
      shouldFinalize := false;
      match state {
        case IDLE =>
          AvPacketFree(h.pkt);
          h' := Emptied(h);
        case PRE_BUFFER =>
          h' := AddToPreBuffer(h);
        case FINALIZING =>
          AvPacketFree(h.pkt);
          h' := Emptied(h);
        case RECORDING =>
          h', shouldFinalize := RecordPacket(h, overdue);
        case POST_BUFFER =>
          h', shouldFinalize := AddToPostBuffer(h);
      }
    }

    // ---------------------------------------------------------------- files

    method InitMuxer(opens: bool, name: string)
      modifies `filename, `files, `out
      ensures View() == Open(cfg, old(View()), opens, name)
      ensures opens ==> out == Some(|files| - 1) && |files| > 0
      ensures |files| >= |old(files)| && (!opens ==> out == old(out))
    {
      filename := cfg.dir + "/" + name;
      if !opens {
        return;
      }
      files := files + [File(eventId, chunkIdx, [], 0)];
      out := Some(|files| - 1);
    }

    /** The first region of finalize_and_rotate. */
    method BeginFinalize() returns (proceed: bool, previous: State, path: string)
      requires Valid()
      modifies `state, `postKeys
      ensures Valid() && (View(), proceed) == FinalizeBegin(old(View()))
      ensures previous == old(state) && (proceed ==> path == filename)
    {
      previous, path := state, "";
      if state == RECORDING {
        if out.None? {
          return false, previous, path;
        }
        state := FINALIZING;
        path := filename;
      } else if state == POST_BUFFER {
        if out.None? {
          postKeys := 0;
          state := PRE_BUFFER;
          return false, previous, path;
        }
        state := FINALIZING;
        path := filename;
      } else {
        return false, previous, path;
      }
      proceed := true;
    }

    /** The region of finalize_file_io, which takes the file that is open. */
    method TakeFile(path: string) returns (file: Option<nat>)
      ensures file == Taken(View(), path)
    {
      if path == "" {
        return None;
      }
      file := out;
    }

    /** The output of finalize_file_io, outside the mutex. */
    method WriteTrailer(file: nat)
      requires Valid() && file < |files|
      modifies `files
      ensures Valid() && View() == Trailer(old(View()), file)
    {
      files := files[file := files[file].(trailers := files[file].trailers + 1)];
    }

    /** The last region of finalize_and_rotate. */
    method EndFinalize(previous: State, opens: bool, name: string)
      requires Valid() && state == FINALIZING && (previous == RECORDING || previous == POST_BUFFER)
      modifies this
      ensures Valid() && View() == FinalizeEnd(cfg, old(View()), previous, opens, name)
    {
      out := None;
      if previous == RECORDING {
        RotateFile(opens, name);
      } else if previous == POST_BUFFER {
        postKeys := 0;
        state := PRE_BUFFER;
      }
    }

    method RotateFile(opens: bool, name: string)
      modifies `chunkIdx, `chunkBytes, `filename, `files, `out, `state
      ensures View()
              == Open(cfg, old(View()).(chunkIdx := old(chunkIdx) + 1, chunkBytes := 0), opens, name).(state := RECORDING)
      ensures opens ==> out == Some(|files| - 1) && |files| > 0
      ensures |files| >= |old(files)| && (!opens ==> out == old(out))
    {
      chunkIdx := chunkIdx + 1;
      chunkBytes := 0;
      InitMuxer(opens, name);
      state := RECORDING;
    }

    // ---------------------------------------------------------------- events

    method StartEvent(opens: bool, name: string)
      requires Valid()
      modifies this
      ensures Valid() && View() == Start(cfg, old(View()), opens, name)
    {
      if state == RECORDING || state == POST_BUFFER || state == FINALIZING {
        return;
      }
      BeginEvent(opens, name);
    }

    method BeginEvent(opens: bool, name: string)
      requires Valid() && !InEvent(state)
      modifies this
      ensures Valid() && View() == Start(cfg, old(View()), opens, name)
    {
      ghost var s := View();
      OpenAndDrain(opens, name);
      state := RECORDING;
      StartIs(cfg, s, opens, name);
    }

    method OpenAndDrain(opens: bool, name: string)
      requires Owning() && (out.Some? ==> out.value < |files|)
      modifies `eventId, `chunkIdx, `chunkBytes, `filename, `files, `out, `freed, `preBuffer, `held, `preKeys, `bufferBytes
      ensures View() == Drain(Open(cfg, Begun(old(View())), opens, name))
      ensures preBuffer == [] && held == [] && preKeys == bufferBytes == 0
      ensures out.Some? ==> out.value < |files|
    {
      NextEvent(opens, name);
      DrainPreBuffer();
    }

    method NextEvent(opens: bool, name: string)
      modifies `eventId, `chunkIdx, `chunkBytes, `filename, `files, `out
      ensures View() == Open(cfg, Begun(old(View())), opens, name)
      ensures opens ==> out == Some(|files| - 1) && |files| > 0
      ensures |files| >= |old(files)| && (!opens ==> out == old(out))
    {
      eventId := eventId + 1;
      chunkIdx := 0;
      chunkBytes := 0;
      InitMuxer(opens, name);
    }

    /** The loop that writes out what was buffered, and the clearing behind it. */
    method DrainPreBuffer()
      requires Owning()
      modifies `files, `freed, `preBuffer, `held, `preKeys, `bufferBytes
      ensures View() == Drain(old(View())) && |files| == |old(files)|
      ensures preBuffer == [] && held == [] && preKeys == bufferBytes == 0
    {
      WriteBuffer();
      ClearPreBuffer();
      preKeys := 0;
      bufferBytes := 0;
    }

    method WriteBuffer()
      requires Owning()
      modifies `files, `freed, `preBuffer
      ensures View() == Write(old(View()), held) && |files| == |old(files)|
      ensures forall i | 0 <= i < |preBuffer| :: preBuffer[i].pkt.None?
    {
      ghost var was := View();
      WriteNothing(was);
      for i := 0 to |preBuffer|
        invariant Drained(was, i) && |preBuffer| == |held|
      {
        DrainTurn(was, i);
      }
      assert held[..|held|] == held;
    }

    /** The first `n` packets of the buffer have been written, and their handles emptied. */
    ghost predicate Drained(was: Session, n: nat)
      reads this
    {
      && |preBuffer| == |held| && n <= |held| && |files| == |was.files|
      && (forall j | n <= j < |held| :: preBuffer[j] == NewHandle(held[j]))
      && (forall j | 0 <= j < n :: preBuffer[j].pkt.None?)
      && View() == Write(was, held[..n])
    }

    method DrainTurn(ghost was: Session, i: nat)
      requires Drained(was, i) && i < |preBuffer|
      modifies `files, `freed, `preBuffer
      ensures Drained(was, i + 1)
    {
      WriteMore(was, held[..i], [held[i]]);
      assert held[..i + 1] == held[..i] + [held[i]];
      DrainOne(i);
    }

    method DrainOne(i: nat)
      requires i < |preBuffer| && i < |held| && preBuffer[i] == NewHandle(held[i])
      modifies `files, `freed, `preBuffer
      ensures View() == Write(old(View()), [held[i]]) && |files| == |old(files)|
      ensures preBuffer == old(preBuffer)[i := Emptied(old(preBuffer)[i])]
    {
      if preBuffer[i].pkt.Some? {
        WritePacketToFile(preBuffer[i].pkt);
        preBuffer := preBuffer[i := Emptied(preBuffer[i])];
      }
    }

    method ContinueEvent()
      requires Valid()
      modifies `state, `postKeys
      ensures Valid() && View() == Continue(old(View()))
    {
      if state == IDLE || state == PRE_BUFFER || state == FINALIZING {
        return;
      }
      if state == POST_BUFFER {
        postKeys := 0;
        state := RECORDING;
      }
    }

    method StopEvent()
      requires Valid()
      modifies `state, `postKeys
      ensures Valid() && View() == Stop(old(View()))
    {
      if state == IDLE || state == PRE_BUFFER || state == POST_BUFFER || state == FINALIZING {
        return;
      }
      postKeys := 0;
      state := POST_BUFFER;
    }

    // ---------------------------------------------------------------- closing

    /** The first region of force_stop.  It leaves the byte counter alone, which is already zero. */
    method BeginForceStop() returns (proceed: bool, path: string)
      requires Valid() && !shutdownRequested
      modifies this
      ensures Valid() && (View(), proceed) == ForceBegin(old(View()))
      ensures proceed ==> path == PathToFinalize(View())
    {
      path := "";
      if state == IDLE || state == PRE_BUFFER {
        return false, path;
      }
      state := FINALIZING;
      if out.Some? {
        path := filename;
      }
      ClearPreBuffer();
      preKeys := 0;
      postKeys := 0;
      proceed := true;
    }

    method EndForceStop()
      requires Valid() && !shutdownRequested
      modifies `out, `state
      ensures Valid() && View() == ForceEnd(old(View()))
    {
      out := None;
      state := PRE_BUFFER;
    }

    method BeginShutdown() returns (path: string)
      requires Valid()
      modifies this
      ensures Valid() && View() == ShutBegin(old(View()))
      ensures path == if InEvent(old(state)) then PathToFinalize(old(View())) else ""
    {
      shutdownRequested := true;
      path := "";
      if state == RECORDING || state == POST_BUFFER || state == FINALIZING {
        if out.Some? {
          path := filename;
        }
      }
      ClearPreBuffer();
      state := IDLE;
    }

    method EndShutdown()
      requires Valid()
      modifies `out
      ensures Valid() && View() == ShutEnd(old(View()))
    {
      out := None;
    }
  }

  /** A packet of the first group is passed. */
  lemma NextOfGroup(was: seq<Packet>, n: nat, removed: bool)
    requires n < |was|
    requires if removed then n + Lead(was[n..]) == GopSize(was) && !was[n].key else n == Lead(was)
    ensures n + 1 + Lead(was[n + 1..]) == GopSize(was)
    ensures Keys(was[n..]) == Keys(was[n + 1..]) + if was[n].key then 1 else 0
    ensures was[n].key <==> !removed
  {
    assert was[n..][1..] == was[n + 1..];
  }

  lemma StartIs(cfg: Config, s: Session, opens: bool, name: string)
    requires !InEvent(s.state)
    ensures Start(cfg, s, opens, name) == Drain(Open(cfg, Begun(s), opens, name)).(state := RECORDING)
  {}

  lemma KeepIs(s: Session, t: Session)
    requires |t.pre| <= |s.pre| && t.keys == Keys(t.pre) && t.bytes == Bytes(t.pre)
    requires t == s.(pre := t.pre, keys := t.keys, bytes := t.bytes, freed := t.freed)
    requires t.freed == s.freed + s.pre[..|s.pre| - |t.pre|]
    ensures t == Keep(s, t.pre)
  {}

  lemma WriteNothing(s: Session)
    ensures Write(s, []) == s
  {
    assert s.freed + [] == s.freed;
    if s.out.Some? && s.out.value < |s.files| {
      var f := s.files[s.out.value];
      assert f.packets + [] == f.packets;
      assert Append(f, []) == f;
    }
  }

  lemma WriteMore(s: Session, a: seq<Packet>, b: seq<Packet>)
    ensures Write(Write(s, a), b) == Write(s, a + b)
  {
    assert (s.freed + a) + b == s.freed + (a + b);
    if s.out.Some? && s.out.value < |s.files| {
      var i := s.out.value;
      assert (s.files[i].packets + a) + b == s.files[i].packets + (a + b);
      assert s.files[i := Append(s.files[i], a)][i := Append(Append(s.files[i], a), b)] == s.files[i := Append(s.files[i], a + b)];
    }
  }
}
