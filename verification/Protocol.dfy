/** The running server as a state machine: connection threads, the timestamp thread, the listen
    thread, the main thread and signals, one small step at a time.

    Fields and arguments described as records of the past are never read by a guard. */
module Protocol {
  import opened Bytes
  import opened Splitter
  import opened WriteLoop
  import CopyLoop
  import opened Receiving
  import opened AtomicSpec

  // ---------------------------------------------------------------- the shared file

  datatype Mutex = Free | HeldBy(actor: Actor)

  /** The file, the one offset all threads share, and the mutex. `log` records the critical
      sections that have released the mutex, in that order. */
  datatype Disk = Disk(file: seq<byte>, offset: nat, mutex: Mutex, log: seq<Op>)

  /** An `O_APPEND` write goes to the end of the file and leaves the offset there. */
  function Append(disk: Disk, bytes: seq<byte>): Disk {
    if bytes == [] then disk
    else disk.(file := disk.file + bytes, offset := |disk.file| + |bytes|)
  }

  function Commit(disk: Disk, op: Op): Disk {
    disk.(mutex := Free, log := disk.log + [op])
  }

  // ---------------------------------------------------------------- connection threads

  /** Where a thread is between taking and releasing the mutex. */
  datatype Phase =
    | Body(w: WriteState)     // writing the packet to the file
    | Newline(w: WriteState)  // writing the newline to the file
    | Rewind                  // seeking to the start
    | Read                    // reading the next piece of the file
    | Send(w: WriteState)     // writing that piece to the socket
    | SeekEnd                 // seeking to the end
    | Release                 // releasing the mutex

  /** `wrote` and `echoed` record what this critical section has appended and sent, `lost` and `cut`
      whether a disk write gave up and whether the echo was cut short. */
  datatype Pc =
    | Reading
    | Draining
    | Waiting(packet: seq<byte>)
    | Inside(packet: seq<byte>, phase: Phase, wrote: seq<byte>, lost: bool, echoed: seq<byte>, cut: bool)
    | Exited

  /** `received`, `sent` and `taken` record every byte received and sent and the number of packets
      cut off; `ended` records that the last `recv` was short. */
  datatype Conn = Conn(received: seq<byte>, buffer: RecvBuffer, ended: bool, taken: nat, sent: seq<byte>, pc: Pc)

  const NEW_CONN := Conn([], EMPTY_BUFFER, false, 0, [], Reading)

  /** `Recv` is the result of a `recv`; `Loop` one test of the drain loop; `Acquire` taking the
      mutex; `Io` a step of the critical section with the result of its system call. */
  datatype Move = Recv(chunk: seq<byte>) | Loop | Acquire | Io(result: int)

  /** What the next system call of a critical section can return. */
  predicate CanReturn(disk: Disk, phase: Phase, result: int) {
    match phase
    case Body(w) => if Active(w) then Answers(w, result) else result == 0
    case Newline(w) => if Active(w) then Answers(w, result) else result == 0
    case Send(w) => if Active(w) then Answers(w, result) else result == 0
    case Read =>
      && result <= CopyLoop.MAX_BUF_SIZE
      && (result > 0 ==> disk.offset + result <= |disk.file|)
      && (result == 0 ==> disk.offset >= |disk.file|)
    case _ => result == 0
  }

  predicate ClientEnabled(disk: Disk, conn: Conn, move: Move) {
    match conn.pc
    case Reading => move.Recv? && |move.chunk| <= CHUNK && HasRoom(conn.buffer, CHUNK)
    case Draining => move.Loop?
    case Waiting(_) => move.Acquire? && disk.mutex.Free?
    case Inside(_, phase, _, _, _, _) => move.Io? && CanReturn(disk, phase, move.result)
    case Exited => false
  }

  function AfterRecv(conn: Conn, chunk: seq<byte>): Conn
    requires |chunk| <= CHUNK && HasRoom(conn.buffer, CHUNK)
  {
    if |chunk| == CHUNK then
      conn.(received := conn.received + chunk, buffer := AfterFull(conn.buffer, chunk))
    else if |chunk| == 0 then
      conn.(pc := Exited)
    else
      conn.(received := conn.received + chunk, buffer := AfterShort(conn.buffer, chunk),
            ended := true, pc := Draining)
  }

  function AfterLoop(conn: Conn): Conn {
    var b := conn.buffer.bytes;
    if HasNewline(b) then
      conn.(buffer := conn.buffer.(bytes := Shifted(b)), taken := conn.taken + 1, pc := Waiting(Token(b)))
    else
      conn.(pc := Exited)
  }

  function AfterIo(id: nat, disk: Disk, conn: Conn, result: int): (Disk, Conn)
    requires conn.pc.Inside? && CanReturn(disk, conn.pc.phase, result)
  {
    var pc := conn.pc;
    match pc.phase
    case Body(w) =>
      if Active(w) then
        (Append(disk, Output(w, result)),
         conn.(pc := pc.(phase := Body(Step(w, result)), wrote := pc.wrote + Output(w, result))))
      else
        (disk, conn.(pc := pc.(phase := Newline(Start([NEWLINE])), lost := pc.lost || !Finished(w))))
    case Newline(w) =>
      if Active(w) then
        (Append(disk, Output(w, result)),
         conn.(pc := pc.(phase := Newline(Step(w, result)), wrote := pc.wrote + Output(w, result))))
      else
        (disk, conn.(pc := pc.(phase := Rewind, lost := pc.lost || !Finished(w))))
    case Rewind =>
      (disk.(offset := 0), conn.(pc := pc.(phase := Read)))
    case Read =>
      if result > 0 then
        (disk.(offset := disk.offset + result),
         conn.(pc := pc.(phase := Send(Start(disk.file[disk.offset..disk.offset + result])))))
      else
        (disk, conn.(pc := pc.(phase := SeekEnd, cut := pc.cut || result < 0)))
    case Send(w) =>
      if Active(w) then
        (disk,
         conn.(sent := conn.sent + Output(w, result),
               pc := pc.(phase := Send(Step(w, result)), echoed := pc.echoed + Output(w, result))))
      else if Finished(w) then
        (disk, conn.(pc := pc.(phase := Read)))
      else
        (disk, conn.(pc := pc.(phase := SeekEnd, cut := true)))
    case SeekEnd =>
      (disk.(offset := |disk.file|), conn.(pc := pc.(phase := Release)))
    case Release =>
      (Commit(disk, Op(Client(id), pc.packet, pc.wrote, pc.lost, pc.echoed, pc.cut)), conn.(pc := Draining))
  }

  function ClientNext(id: nat, disk: Disk, conn: Conn, move: Move): (Disk, Conn)
    requires ClientEnabled(disk, conn, move)
  {
    match move
    case Recv(chunk) => (disk, AfterRecv(conn, chunk))
    case Loop => (disk, AfterLoop(conn))
    case Acquire =>
      (disk.(mutex := HeldBy(Client(id))),
       conn.(pc := Inside(conn.pc.packet, Body(Start(conn.pc.packet)), [], false, [], false)))
    case Io(result) => AfterIo(id, disk, conn, result)
  }

  // ---------------------------------------------------------------- the timestamp thread

  /** The two flags that threads and signal handlers share; `alarms` records how many SIGALRMs
      have been delivered. */
  datatype Flags = Flags(run: bool, due: bool, alarms: nat)

  datatype ClockPc =
    | CheckRun   // testing the run flag of the outer loop
    | InnerRun   // testing the run flag of the inner loop
    | InnerDue   // testing the timestamp flag of the inner loop
    | Locking    // taking the mutex
    | Printing(text: seq<byte>, left: seq<byte>, wrote: seq<byte>, failed: bool)  // inside `dprintf`
    | ClearDue   // clearing the timestamp flag
    | Stopped

  /** `late` records that the inner loop was last left because the run flag was clear; `started`
      how many records have been begun. */
  datatype ClockThread = ClockThread(pc: ClockPc, late: bool, started: nat)

  /** `Begin` is taking the mutex for a record with this text; `Print` a write of part of it,
      `PrintFails` one that fails and ends the printing; `Unlock` releasing the mutex. */
  datatype ClockMove = Advance | Begin(text: seq<byte>) | Print(n: nat) | PrintFails | Unlock

  predicate ClockEnabled(disk: Disk, clock: ClockThread, move: ClockMove) {
    match clock.pc
    case Locking => move.Begin? && disk.mutex.Free?
    case Printing(_, left, _, failed) =>
      if failed || left == [] then move.Unlock?
      else move.PrintFails? || (move.Print? && 0 < move.n <= |left|)
    case Stopped => false
    case _ => move.Advance?
  }

  function ClockNext(disk: Disk, flags: Flags, clock: ClockThread, move: ClockMove): (Disk, Flags, ClockThread)
    requires ClockEnabled(disk, clock, move)
  {
    match clock.pc
    case CheckRun => (disk, flags, clock.(pc := if flags.run then InnerRun else Stopped))
    case InnerRun =>
      (disk, flags, if flags.run then clock.(pc := InnerDue) else clock.(pc := Locking, late := true))
    case InnerDue => (disk, flags, clock.(pc := if flags.due then Locking else InnerRun))
    case Locking =>
      (disk.(mutex := HeldBy(Clock)), flags,
       clock.(pc := Printing(move.text, FullRecord(move.text), [], false), started := clock.started + 1))
    case Printing(text, left, wrote, failed) =>
      (match move
       case Unlock => (Commit(disk, Op(Clock, text, wrote, failed, [], false)), flags, clock.(pc := ClearDue))
       case PrintFails => (disk, flags, clock.(pc := clock.pc.(failed := true)))
       case Print(n) =>
         (Append(disk, left[..n]), flags,
          clock.(pc := Printing(text, left[n..], wrote + left[..n], failed))))
    case ClearDue => (disk, flags.(due := false), clock.(pc := CheckRun))
  }

  // ---------------------------------------------------------------- the listen thread

  datatype ListenPc =
    | OuterCheck
    | ListenCheck
    | ListenCall
    | AcceptCheck
    | AcceptCall
    | Confirm(accepted: bool)  // the test after the accept loop; `accepted` records how it was left
    | Create
    | Insert(id: nat)
    | Closed

  /** One step of the listen thread; `ok` is the result of a `listen` or `accept`, which otherwise
      failed with `EAGAIN`. */
  function ListenNext(run: bool, pc: ListenPc, ok: bool, newest: nat): ListenPc
    requires !pc.Closed?
  {
    match pc
    case OuterCheck => if run then ListenCheck else Closed
    case ListenCheck => if run then ListenCall else AcceptCheck
    case ListenCall => if ok then AcceptCheck else ListenCheck
    case AcceptCheck => if run then AcceptCall else Confirm(false)
    case AcceptCall => if ok then Confirm(true) else AcceptCheck
    case Confirm(_) => if run then Create else Closed
    case Create => Insert(newest)
    case Insert(_) => OuterCheck
  }

  // ---------------------------------------------------------------- the whole process

  datatype MainPc =
    | WaitForRun | JoinListen | JoinClock | ClearRun | JoinNext | CloseDisk | FreeFlags | RemoveFile | Gone

  /** `list` holds the connection threads to join, newest first; `joined` records those joined. */
  datatype State = State(
    disk: Disk, conns: seq<Conn>, flags: Flags, clock: ClockThread, listener: ListenPc,
    list: seq<nat>, joined: seq<nat>, main: MainPc,
    diskOpen: bool, flagsLive: bool, fileThere: bool)

  datatype Action =
    | ByClient(id: nat, move: Move)
    | ByClock(tick: ClockMove)
    | ByListener(ok: bool)
    | ByMain
    | Terminate  // SIGINT or SIGTERM
    | Alarm      // SIGALRM

  /** The process once its threads run, over a file that may already have content. */
  function Initial(file: seq<byte>): State {
    State(Disk(file, 0, Free, []), [], Flags(true, false, 0), ClockThread(CheckRun, false, 0), OuterCheck,
          [], [], WaitForRun, true, true, true)
  }

  predicate MainEnabled(s: State) {
    match s.main
    case WaitForRun => true
    case JoinListen => s.listener.Closed?
    case JoinClock => s.clock.pc.Stopped?
    case JoinNext => s.list == [] || (s.list[0] < |s.conns| && s.conns[s.list[0]].pc.Exited?)
    case Gone => false
    case _ => true
  }

  function MainNext(s: State): State
    requires MainEnabled(s)
  {
    match s.main
    case WaitForRun => if s.flags.run then s else s.(main := JoinListen)
    case JoinListen => s.(main := JoinClock)
    case JoinClock => s.(main := ClearRun)
    case ClearRun => s.(flags := s.flags.(run := false), main := JoinNext)
    case JoinNext =>
      if s.list == [] then s.(main := CloseDisk)
      else s.(joined := s.joined + [s.list[0]], list := s.list[1..])
    case CloseDisk => s.(diskOpen := false, main := FreeFlags)
    case FreeFlags => s.(flagsLive := false, main := RemoveFile)
    case RemoveFile => s.(fileThere := false, main := Gone)
  }

  predicate Enabled(s: State, a: Action) {
    match a
    case ByClient(id, move) => id < |s.conns| && ClientEnabled(s.disk, s.conns[id], move)
    case ByClock(tick) => ClockEnabled(s.disk, s.clock, tick)
    case ByListener(_) => !s.listener.Closed?
    case ByMain => MainEnabled(s)
    case Terminate => !s.main.Gone?
    case Alarm => !s.main.Gone?
  }

  function ListenerStep(s: State, ok: bool): State
    requires !s.listener.Closed?
  {
    var next := s.(listener := ListenNext(s.flags.run, s.listener, ok, |s.conns|));
    match s.listener
    case Create => next.(conns := s.conns + [NEW_CONN])
    case Insert(id) => next.(list := [id] + s.list)
    case _ => next
  }

  function Next(s: State, a: Action): State
    requires Enabled(s, a)
  {
    match a
    case ByClient(id, move) =>
      var (disk, conn) := ClientNext(id, s.disk, s.conns[id], move);
      s.(disk := disk, conns := s.conns[id := conn])
    case ByClock(tick) =>
      var (disk, flags, clock) := ClockNext(s.disk, s.flags, s.clock, tick);
      s.(disk := disk, flags := flags, clock := clock)
    case ByListener(ok) => ListenerStep(s, ok)
    case ByMain => MainNext(s)
    case Terminate => s.(flags := s.flags.(run := false))
    case Alarm => s.(flags := s.flags.(due := true, alarms := s.flags.alarms + 1))
  }

  /** The step tests, sets or clears one of the two flags. */
  predicate TouchesFlags(s: State, a: Action) {
    match a
    case ByClient(_, _) => false
    case ByClock(_) => !s.clock.pc.Locking? && !s.clock.pc.Printing?
    case ByListener(_) =>
      s.listener.OuterCheck? || s.listener.ListenCheck? || s.listener.AcceptCheck? || s.listener.Confirm?
    case ByMain => s.main.WaitForRun? || s.main.ClearRun?
    case Terminate => true
    case Alarm => true
  }

  /** A run is any interleaving of enabled steps. */
  predicate IsRun(s: State, run: seq<Action>)
    decreases |run|, 0
  {
    run == [] || (IsRun(s, run[..|run| - 1]) && Enabled(After(s, run[..|run| - 1]), run[|run| - 1]))
  }

  function After(s: State, run: seq<Action>): State
    requires IsRun(s, run)
    decreases |run|, 1
  {
    if run == [] then s else Next(After(s, run[..|run| - 1]), run[|run| - 1])
  }

  lemma {:induction false} AfterSnoc(s: State, run: seq<Action>, a: Action)
    requires IsRun(s, run) && Enabled(After(s, run), a)
    ensures IsRun(s, run + [a]) && After(s, run + [a]) == Next(After(s, run), a)
  {
    assert (run + [a])[..|run|] == run;
  }

  lemma {:induction false} OneStep(s: State, a: Action)
    requires Enabled(s, a)
    ensures IsRun(s, [a]) && After(s, [a]) == Next(s, a)
  {
    assert IsRun(s, []) && After(s, []) == s;
    AfterSnoc(s, [], a);
    assert [] + [a] == [a];
  }

  lemma {:induction false} RunsJoin(s: State, first: seq<Action>, t: State, second: seq<Action>)
    requires IsRun(s, first) && After(s, first) == t && IsRun(t, second)
    ensures IsRun(s, first + second) && After(s, first + second) == After(t, second)
    decreases |second|
  {
    if second == [] {
      assert first + second == first;
    } else {
      var before, last := second[..|second| - 1], second[|second| - 1];
      RunsJoin(s, first, t, before);
      JoinLast(first, second);
      AfterSnoc(s, first + before, last);
    }
  }

  lemma {:induction false} StepThenRun(s: State, a: Action, run: seq<Action>)
    requires Enabled(s, a) && IsRun(Next(s, a), run)
    ensures IsRun(s, [a] + run) && After(s, [a] + run) == After(Next(s, a), run)
  {
    OneStep(s, a);
    RunsJoin(s, [a], Next(s, a), run);
  }
}
