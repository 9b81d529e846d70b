/** What the interleavings add up to: atomic operations on one file. */
module SharedFile {
  import opened Bytes
  import opened AtomicSpec
  import opened Protocol
  import opened Sections
  import opened Accounting

  /** What the holder of the mutex has appended so far. */
  function InFlight(s: State): seq<byte> {
    match s.disk.mutex
    case Free => []
    case HeldBy(Client(id)) => if ConnAt(s, id).pc.Inside? then ConnAt(s, id).pc.wrote else []
    case HeldBy(Clock) => if s.clock.pc.Printing? then s.clock.pc.wrote else []
  }

  /** Linearizability. After any run of any number of connection threads, the timestamp thread and
      everything else, the critical sections that are over form a legal atomic run in the order in
      which they released the mutex; the file is what that run leaves plus what the one thread
      inside its critical section has appended, and each client has been sent what that run sends
      it plus what its own unfinished echo has sent. */
  lemma {:induction false} Linearizable(file: seq<byte>, run: seq<Action>)
    requires IsRun(Initial(file), run)
    ensures var s := After(Initial(file), run);
            var v := RunOps(View(file, map[]), s.disk.log);
            && LegalRun(View(file, map[]), s.disk.log)
            && s.disk.file == v.file + InFlight(s)
            && forall id | 0 <= id < |s.conns| :: s.conns[id].sent == Sent(v, id) + Echoing(s.conns[id].pc)
  {
    RunKeepsFileInv(file, run);
    var s := After(Initial(file), run);
    forall id | 0 <= id < |s.conns|
      ensures s.conns[id].sent == Sent(Committed(file, s.disk), id) + Echoing(s.conns[id].pc)
    {
      assert ConnInv(file, s.disk, id, ConnAt(s, id));
    }
  }

  /** The record is the whole packet and its newline, if no disk write of that thread has given up,
      or no write of a timestamp failed. */
  predicate RecordAccounted(file: seq<byte>, run: seq<Action>, op: Op)
    requires IsRun(Initial(file), run)
  {
    match op.actor
    case Client(id) => DiskTakesAll(Initial(file), run, id) ==> op.record == FullRecord(op.packet)
    case Clock => PrintsGoThrough(run) ==> op.record == FullRecord(op.packet)
  }

  /** The echo is the whole of this content, if no read of that thread failed and no write to its
      socket gave up. */
  predicate EchoAccounted(file: seq<byte>, run: seq<Action>, op: Op, content: seq<byte>)
    requires IsRun(Initial(file), run)
  {
    match op.actor
    case Client(id) => EchoesGoThrough(Initial(file), run, id) ==> op.echo == content
    case Clock => true
  }

  /** And nothing is missing from the records and the echoes of that atomic run except on account of
      failures that occur in the run: what is lost is lost by a thread whose disk write gave up, and
      what is cut short by one whose read failed or whose socket would not take the bytes. */
  lemma {:induction false} OnlyFailuresLose(file: seq<byte>, run: seq<Action>, i: nat)
    requires IsRun(Initial(file), run) && i < |After(Initial(file), run).disk.log|
    ensures var log := After(Initial(file), run).disk.log;
            && RecordAccounted(file, run, log[i])
            && EchoAccounted(file, run, log[i], RunOps(View(file, map[]), log[..i + 1]).file)
  {
    Linearizable(file, run);
    var log := After(Initial(file), run).disk.log;
    LegalAt(View(file, map[]), log, i);
    OfIsProjection(log, log[i].actor);
    assert log[i] in Of(log, log[i].actor);
    match log[i].actor
    case Client(id) =>
      LossesAreDiskFailures(file, run, id);
      CutsAreEchoFailures(file, run, id);
    case Clock => LossesArePrintFailures(file, run);
  }

  /** The last operation of the log is what the holder of the mutex did, and this step committed it. */
  predicate Commits(v: View, s: State, t: State)
    requires |t.disk.log| == |s.disk.log| + 1
  {
    var op := t.disk.log[|s.disk.log|];
    && s.disk.log <= t.disk.log && s.disk.mutex == HeldBy(op.actor) && t.disk.mutex == Free
    && Legal(v, op)
    && t.disk.file == v.file + op.record
    && (op.actor.Client? || op.record != [] ==> t.disk.offset == |t.disk.file|)
  }

  lemma {:induction false} ClientCommits(file: seq<byte>, s: State, id: nat, move: Move)
    requires FileInv(file, s) && Enabled(s, ByClient(id, move))
    requires s.conns[id].pc.Inside? && s.conns[id].pc.phase.Release?
    ensures var t := Next(s, ByClient(id, move));
            |t.disk.log| == |s.disk.log| + 1 && Commits(Committed(file, s.disk), s, t)
  {
    ClientLog(s, id, move);
    InsideHasSectionInv(file, s, id);
    ReleaseIsLegal(Committed(file, s.disk), id, s.disk, s.conns[id].pc);
  }

  lemma {:induction false} ClockCommits(file: seq<byte>, s: State)
    requires FileInv(file, s) && Enabled(s, ByClock(Unlock)) && s.clock.pc.Printing?
    ensures var t := Next(s, ByClock(Unlock));
            |t.disk.log| == |s.disk.log| + 1 && Commits(Committed(file, s.disk), s, t)
  {
    var pc := s.clock.pc;
    PartOfRecord(pc.wrote, pc.left, pc.text);
  }

  /** Each step either commits one operation, legal where it is committed, or none; so the order of
      the log respects the order in which critical sections follow each other. A connection thread
      leaves the offset at the end of the file, and so does the timestamp thread if it wrote anything. */
  lemma {:induction false} StepCommitsAtMostOne(file: seq<byte>, s: State, a: Action)
    requires FileInv(file, s) && Enabled(s, a)
    ensures var t := Next(s, a);
            t.disk.log == s.disk.log
            || (|t.disk.log| == |s.disk.log| + 1 && Commits(Committed(file, s.disk), s, t))
  {
    match a
    case ByClient(id, move) =>
      if s.conns[id].pc.Inside? && s.conns[id].pc.phase.Release? {
        ClientCommits(file, s, id, move);
      } else {
        ClientLog(s, id, move);
      }
    case ByClock(tick) =>
      if s.clock.pc.Printing? && tick.Unlock? {
        ClockCommits(file, s);
      }
    case _ => OthersLeaveConns(s, a);
  }

  predicate OffsetCountsEcho(disk: Disk, pc: Pc)
    requires pc.Inside?
  {
    && pc.echoed <= disk.file
    && (pc.phase.Read? ==> disk.offset == |pc.echoed| <= |disk.file|)
    && (pc.phase.Send? ==> disk.offset == |pc.echoed| + |pc.phase.w.left| <= |disk.file|)
  }

  lemma {:induction false} SectionOffset(before: seq<byte>, disk: Disk, pc: Pc)
    requires pc.Inside? && SectionInv(before, disk, pc)
    ensures OffsetCountsEcho(disk, pc)
  {
    if pc.phase.Send? {
      assert pc.echoed <= disk.file[..disk.offset] <= disk.file;
    }
  }

  /** In every reachable state in which a thread is echoing, the shared offset is the number of
      bytes that thread has read so far, and what it has sent is that much of the file. */
  lemma {:induction false} OffsetIsBytesRead(file: seq<byte>, run: seq<Action>, id: nat)
    requires IsRun(Initial(file), run) && id < |After(Initial(file), run).conns|
    requires After(Initial(file), run).conns[id].pc.Inside?
    ensures OffsetCountsEcho(After(Initial(file), run).disk, After(Initial(file), run).conns[id].pc)
  {
    RunKeepsFileInv(file, run);
    var s := After(Initial(file), run);
    InsideHasSectionInv(file, s, id);
    SectionOffset(Committed(file, s.disk).file, s.disk, s.conns[id].pc);
  }

  lemma {:induction false} InsideHasSectionInv(file: seq<byte>, s: State, id: nat)
    requires FileInv(file, s) && id < |s.conns| && s.conns[id].pc.Inside?
    ensures SectionInv(Committed(file, s.disk).file, s.disk, s.conns[id].pc)
  {
    assert ConnAt(s, id).pc.Inside?;
  }

  /** The step is one of this thread. */
  predicate ActsFor(a: Action, actor: Actor) {
    match actor
    case Client(id) => a.ByClient? && a.id == id
    case Clock => a.ByClock?
  }

  /** While a thread holds the mutex no other thread changes the file, the offset, the mutex or the
      log, nor the state of that thread. */
  lemma {:induction false} HolderIsUndisturbed(file: seq<byte>, s: State, actor: Actor, a: Action)
    requires FileInv(file, s) && s.disk.mutex == HeldBy(actor) && Enabled(s, a) && !ActsFor(a, actor)
    ensures Next(s, a).disk == s.disk
    ensures actor.Client? ==> ConnAt(Next(s, a), actor.id) == ConnAt(s, actor.id)
    ensures actor.Clock? ==> Next(s, a).clock == s.clock
  {
    match a
    case ByClient(other, move) =>
      assert ConnAt(s, other) == s.conns[other];
      assert !s.conns[other].pc.Inside?;
      ConnUpdated(s, other, move);
    case ByClock(tick) =>
      assert !s.clock.pc.Printing?;
      ClockLeavesConns(s, tick);
    case _ => OthersLeaveConns(s, a);
  }

  // ---------------------------------------------------------------- what clients see

  /** Every echo a client gets is a prefix of the file as it stood right after that client's own
      record, and all of it if no read of the file failed and no write to that client gave up; and of
      any two echoes of a run, to whatever clients, one is a prefix of the other, and the earlier of
      the later if the later was not cut short. */
  lemma {:induction false} ClientsSeeOneHistory(file: seq<byte>, run: seq<Action>, i: nat, j: nat)
    requires IsRun(Initial(file), run)
    requires i <= j < |After(Initial(file), run).disk.log|
    requires After(Initial(file), run).disk.log[i].actor.Client? && After(Initial(file), run).disk.log[j].actor.Client?
    ensures var log := After(Initial(file), run).disk.log;
            var snapshot := RunOps(View(file, map[]), log[..i + 1]).file;
            && log[i].echo <= snapshot
            && (EchoesGoThrough(Initial(file), run, log[i].actor.id) ==> log[i].echo == snapshot)
            && (EchoesGoThrough(Initial(file), run, log[j].actor.id) ==> log[i].echo <= log[j].echo)
            && (!log[j].cut ==> log[i].echo <= log[j].echo)
            && (log[i].echo <= log[j].echo || log[j].echo <= log[i].echo)
  {
    Linearizable(file, run);
    var log := After(Initial(file), run).disk.log;
    EchoIsSnapshot(View(file, map[]), log, i);
    EchoesChain(View(file, map[]), log, i, j);
    EchoUncut(file, run, i);
    EchoUncut(file, run, j);
  }

  lemma {:induction false} EchoUncut(file: seq<byte>, run: seq<Action>, i: nat)
    requires IsRun(Initial(file), run) && i < |After(Initial(file), run).disk.log|
    requires After(Initial(file), run).disk.log[i].actor.Client?
    ensures var op := After(Initial(file), run).disk.log[i];
            EchoesGoThrough(Initial(file), run, op.actor.id) ==> !op.cut
  {
    var log := After(Initial(file), run).disk.log;
    OfIsProjection(log, log[i].actor);
    assert log[i] in Of(log, log[i].actor);
    CutsAreEchoFailures(file, run, log[i].actor.id);
  }
}
