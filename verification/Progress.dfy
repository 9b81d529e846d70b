/** The mutex is always released, and nobody waits for ever on account of another thread. */
module Progress {
  import opened Bytes
  import opened WriteLoop
  import opened AtomicSpec
  import opened Protocol
  import opened Sections
  import opened SharedFile

  const PER_BYTE := MAX_FAIL_COUNT + 4

  function Unread(disk: Disk): nat {
    if disk.offset <= |disk.file| then |disk.file| - disk.offset else 0
  }

  /** An upper bound on the steps that the holder of the mutex still makes before it releases it. */
  function StepsLeft(disk: Disk, phase: Phase): nat {
    match phase
    case Release => 1
    case SeekEnd => 2
    case Read => 3 + PER_BYTE * Unread(disk)
    case Send(w) => 4 + PER_BYTE * Unread(disk) + CallsLeft(w)
    case Rewind => 4 + PER_BYTE * |disk.file|
    case Newline(w) => 5 + PER_BYTE * (|disk.file| + |w.left|) + CallsLeft(w)
    case Body(w) => 6 + PER_BYTE * (|disk.file| + |w.left| + 1) + MAX_FAIL_COUNT + 2 + CallsLeft(w)
  }

  /** A step of the holder either releases the mutex or lowers the bound. */
  predicate ComesNearer(disk: Disk, conn: Conn, d: Disk, c: Conn)
    requires conn.pc.Inside?
  {
    if conn.pc.phase.Release? then !c.pc.Inside? && d.mutex == Free
    else c.pc.Inside? && StepsLeft(d, c.pc.phase) < StepsLeft(disk, conn.pc.phase)
  }

  lemma {:induction false} BodyFalls(id: nat, disk: Disk, conn: Conn, result: int)
    requires conn.pc.Inside? && conn.pc.phase.Body? && CanReturn(disk, conn.pc.phase, result)
    ensures var (d, c) := AfterIo(id, disk, conn, result); ComesNearer(disk, conn, d, c)
  {
    var w := conn.pc.phase.w;
    if Active(w) {
      CallsLeftFalls(w, result);
      assert |disk.file + Output(w, result)| + |Step(w, result).left| == |disk.file| + |w.left|;
    }
  }

  lemma {:induction false} NewlineFalls(id: nat, disk: Disk, conn: Conn, result: int)
    requires conn.pc.Inside? && conn.pc.phase.Newline? && CanReturn(disk, conn.pc.phase, result)
    ensures var (d, c) := AfterIo(id, disk, conn, result); ComesNearer(disk, conn, d, c)
  {
    var w := conn.pc.phase.w;
    if Active(w) {
      CallsLeftFalls(w, result);
      assert |disk.file + Output(w, result)| + |Step(w, result).left| == |disk.file| + |w.left|;
    }
  }

  lemma {:induction false} EchoingFalls(id: nat, disk: Disk, conn: Conn, result: int)
    requires conn.pc.Inside? && (conn.pc.phase.Read? || conn.pc.phase.Send?)
    requires CanReturn(disk, conn.pc.phase, result) && disk.offset <= |disk.file|
    ensures var (d, c) := AfterIo(id, disk, conn, result); ComesNearer(disk, conn, d, c)
  {
    if conn.pc.phase.Send? && Active(conn.pc.phase.w) {
      CallsLeftFalls(conn.pc.phase.w, result);
    }
  }

  /** Every step of the holder brings the release nearer, whatever the system calls return. */
  lemma {:induction false} StepsLeftFalls(before: seq<byte>, id: nat, disk: Disk, conn: Conn, result: int)
    requires conn.pc.Inside? && SectionInv(before, disk, conn.pc) && CanReturn(disk, conn.pc.phase, result)
    ensures var (d, c) := AfterIo(id, disk, conn, result); ComesNearer(disk, conn, d, c)
  {
    match conn.pc.phase
    case Body(w) => BodyFalls(id, disk, conn, result);
    case Newline(w) => NewlineFalls(id, disk, conn, result);
    case Read => EchoingFalls(id, disk, conn, result);
    case Send(w) => EchoingFalls(id, disk, conn, result);
    case _ =>
  }

  // ---------------------------------------------------------------- either kind of thread

  /** The thread is inside its critical section. */
  predicate InsideAt(s: State, actor: Actor) {
    match actor
    case Client(id) => id < |s.conns| && s.conns[id].pc.Inside?
    case Clock => s.clock.pc.Printing?
  }

  /** The bound for either kind of thread. */
  function BoundAt(s: State, actor: Actor): nat
    requires InsideAt(s, actor)
  {
    match actor
    case Client(id) => StepsLeft(s.disk, s.conns[id].pc.phase)
    case Clock => if s.clock.pc.failed then 1 else |s.clock.pc.left| + 1
  }

  /** A step that the thread inside its critical section can make. */
  function HolderMove(s: State, actor: Actor): Action
    requires InsideAt(s, actor)
  {
    match actor
    case Client(id) =>
      var phase := s.conns[id].pc.phase;
      ByClient(id, Io(if phase.Read? && s.disk.offset < |s.disk.file| then 1 else 0))
    case Clock =>
      var pc := s.clock.pc;
      ByClock(if pc.failed || pc.left == [] then Unlock else Print(|pc.left|))
  }

  lemma {:induction false} InsideHolds(file: seq<byte>, s: State, actor: Actor)
    requires FileInv(file, s) && InsideAt(s, actor)
    ensures s.disk.mutex == HeldBy(actor)
  {
    if actor.Client? {
      assert ConnAt(s, actor.id).pc.Inside?;
    }
  }

  lemma {:induction false} HolderMoves(file: seq<byte>, s: State, actor: Actor)
    requires FileInv(file, s) && InsideAt(s, actor)
    ensures s.disk.mutex == HeldBy(actor) && ActsFor(HolderMove(s, actor), actor) && Enabled(s, HolderMove(s, actor))
  {
    InsideHolds(file, s, actor);
  }

  /** The thread inside a critical section holds the mutex and always has a step to make. */
  lemma {:induction false} HolderCanStep(file: seq<byte>, run: seq<Action>, actor: Actor)
    requires IsRun(Initial(file), run) && InsideAt(After(Initial(file), run), actor)
    ensures var s := After(Initial(file), run);
            s.disk.mutex == HeldBy(actor) && ActsFor(HolderMove(s, actor), actor) && Enabled(s, HolderMove(s, actor))
  {
    RunKeepsFileInv(file, run);
    HolderMoves(file, After(Initial(file), run), actor);
  }

  lemma {:induction false} ClockFalls(s: State, tick: ClockMove)
    requires InsideAt(s, Clock) && Enabled(s, ByClock(tick))
    ensures var t := Next(s, ByClock(tick));
            if InsideAt(t, Clock) then BoundAt(t, Clock) < BoundAt(s, Clock) else t.disk.mutex == Free
  {
  }

  lemma {:induction false} OwnStepLowers(file: seq<byte>, s: State, actor: Actor, a: Action)
    requires FileInv(file, s) && InsideAt(s, actor) && Enabled(s, a) && ActsFor(a, actor)
    ensures var t := Next(s, a);
            if InsideAt(t, actor) then BoundAt(t, actor) < BoundAt(s, actor) else t.disk.mutex == Free
  {
    match actor
    case Client(id) =>
      InsideHasSectionInv(file, s, id);
      StepsLeftFalls(Committed(file, s.disk).file, id, s.disk, s.conns[id], a.move.result);
    case Clock => ClockFalls(s, a.tick);
  }

  /** And every step it makes either releases the mutex or lowers a bound fixed by the packet and
      the file when it took the mutex; nobody else can change that bound meanwhile. So the mutex is
      always released, by connection threads and by the timestamp thread. */
  lemma {:induction false} CriticalSectionEnds(file: seq<byte>, run: seq<Action>, actor: Actor, a: Action)
    requires IsRun(Initial(file), run) && InsideAt(After(Initial(file), run), actor)
    requires Enabled(After(Initial(file), run), a) && ActsFor(a, actor)
    ensures var s := After(Initial(file), run);
            var t := Next(s, a);
            if InsideAt(t, actor) then BoundAt(t, actor) < BoundAt(s, actor) else t.disk.mutex == Free
  {
    RunKeepsFileInv(file, run);
    OwnStepLowers(file, After(Initial(file), run), actor, a);
  }

  /** The bound when a connection thread takes the mutex. */
  lemma {:induction false} StepsAtAcquire(s: State, id: nat)
    requires Enabled(s, ByClient(id, Acquire))
    ensures var t := Next(s, ByClient(id, Acquire));
            && InsideAt(t, Client(id))
            && BoundAt(t, Client(id))
               <= 4 * PER_BYTE + (PER_BYTE + 1) * |s.conns[id].pc.packet| + PER_BYTE * |s.disk.file|
  {
  }

  /** The bound when the timestamp thread takes it. */
  lemma {:induction false} StepsAtBegin(s: State, text: seq<byte>)
    requires Enabled(s, ByClock(Begin(text)))
    ensures var t := Next(s, ByClock(Begin(text)));
            InsideAt(t, Clock) && BoundAt(t, Clock) == |text| + 2
  {
  }

  // ---------------------------------------------------------------- over whole runs

  function OwnSteps(run: seq<Action>, actor: Actor): nat {
    if run == [] then 0
    else OwnSteps(run[..|run| - 1], actor) + if ActsFor(run[|run| - 1], actor) then 1 else 0
  }

  /** The thread is inside its critical section from the start to the end of the run. */
  predicate StaysInside(s: State, run: seq<Action>, actor: Actor)
    requires IsRun(s, run)
    decreases |run|
  {
    InsideAt(After(s, run), actor) && (run != [] ==> StaysInside(s, run[..|run| - 1], actor))
  }

  lemma {:induction false} StepLowersBound(file: seq<byte>, s: State, a: Action, actor: Actor)
    requires FileInv(file, s) && Enabled(s, a) && InsideAt(s, actor) && InsideAt(Next(s, a), actor)
    ensures BoundAt(Next(s, a), actor) + (if ActsFor(a, actor) then 1 else 0) <= BoundAt(s, actor)
  {
    if ActsFor(a, actor) {
      OwnStepLowers(file, s, actor, a);
    } else {
      InsideHolds(file, s, actor);
      HolderIsUndisturbed(file, s, actor, a);
    }
  }

  /** However the other threads interleave, a thread makes no more steps inside one critical section
      than the bound at its start says. */
  lemma {:induction false} HolderStepsAreBounded(file: seq<byte>, s: State, run: seq<Action>, actor: Actor)
    requires FileInv(file, s) && IsRun(s, run) && StaysInside(s, run, actor)
    ensures FileInv(file, After(s, run)) && InsideAt(s, actor)
    ensures OwnSteps(run, actor) + BoundAt(After(s, run), actor) <= BoundAt(s, actor)
    decreases |run|
  {
    if run != [] {
      var before, last := run[..|run| - 1], run[|run| - 1];
      HolderStepsAreBounded(file, s, before, actor);
      StepKeepsFileInv(file, After(s, before), last);
      StepLowersBound(file, After(s, before), last, actor);
    }
  }

  /** A step that brings a connection thread that has not ended nearer to its next one: its own, or
      one of the thread that holds the mutex it waits for. */
  function Unblocking(s: State, id: nat): Action
    requires id < |s.conns|
  {
    match s.conns[id].pc
    case Reading => ByClient(id, Recv([]))
    case Draining => ByClient(id, Loop)
    case Waiting(_) =>
      if s.disk.mutex.HeldBy? && InsideAt(s, s.disk.mutex.actor) then HolderMove(s, s.disk.mutex.actor)
      else ByClient(id, Acquire)
    case Inside(_, _, _, _, _, _) => HolderMove(s, Client(id))
    case Exited => ByMain
  }

  /** Nobody is stuck: in every reachable state, for every connection thread that has not ended,
      that step is enabled. In particular every `recv` finds room for a whole chunk, and whoever
      holds the mutex can go on. */
  lemma {:induction false} NobodyIsStuck(file: seq<byte>, run: seq<Action>, id: nat)
    requires IsRun(Initial(file), run) && id < |After(Initial(file), run).conns|
    requires !After(Initial(file), run).conns[id].pc.Exited?
    ensures Enabled(After(Initial(file), run), Unblocking(After(Initial(file), run), id))
  {
    RunKeepsFileInv(file, run);
    var s := After(Initial(file), run);
    assert ConnInv(file, s.disk, id, ConnAt(s, id));
    if s.conns[id].pc.Waiting? && s.disk.mutex.HeldBy? {
      assert s.disk.mutex.actor.Client? ==> ConnAt(s, s.disk.mutex.actor.id).pc.Inside?;
      HolderCanStep(file, run, s.disk.mutex.actor);
    } else if s.conns[id].pc.Inside? {
      HolderCanStep(file, run, Client(id));
    }
  }
}
