/** Every interleaving of the small steps keeps the shared file in order. */
module Sections {
  import opened Bytes
  import opened Splitter
  import opened WriteLoop
  import opened Receiving
  import opened AtomicSpec
  import opened Protocol

  /** The view that the finished critical sections, run atomically in their order, lead to. */
  function Committed(file: seq<byte>, disk: Disk): View {
    RunOps(View(file, map[]), disk.log)
  }

  /** What holds inside a critical section that found the file with content `before`. */
  predicate SectionInv(before: seq<byte>, disk: Disk, pc: Pc)
    requires pc.Inside?
  {
    && disk.file == before + pc.wrote
    && (!pc.phase.SeekEnd? && !pc.phase.Release? ==> !pc.cut)
    && match pc.phase
       case Body(w) => pc.wrote + w.left == pc.packet && !pc.lost && pc.echoed == []
       case Newline(w) => NewlineInv(pc.packet, pc.wrote, pc.lost, w) && pc.echoed == []
       case Rewind => RecordInv(pc.packet, pc.wrote, pc.lost) && pc.echoed == []
       case Read => RecordInv(pc.packet, pc.wrote, pc.lost) && EchoInv(disk, pc.echoed, [])
       case Send(w) => RecordInv(pc.packet, pc.wrote, pc.lost) && EchoInv(disk, pc.echoed, w.left)
       case _ =>
         && RecordInv(pc.packet, pc.wrote, pc.lost)
         && pc.echoed <= disk.file
         && (!pc.cut ==> pc.echoed == disk.file)
         && (pc.phase.Release? ==> disk.offset == |disk.file|)
  }

  /** Both writes of the record are over. */
  predicate RecordInv(packet: seq<byte>, wrote: seq<byte>, lost: bool) {
    PartialRecord(packet, wrote) && (lost <==> wrote != FullRecord(packet))
  }

  /** The packet has been written, or as much of it as the disk would take; the newline is next. */
  predicate NewlineInv(packet: seq<byte>, wrote: seq<byte>, lost: bool, w: WriteState) {
    if w.left == [] then RecordInv(packet, wrote, lost)
    else w.left == [NEWLINE] && wrote <= packet && (lost <==> wrote != packet)
  }

  /** The shared offset is what this thread has read so far: what it has sent and what it is
      about to send. */
  predicate EchoInv(disk: Disk, echoed: seq<byte>, pending: seq<byte>) {
    disk.offset <= |disk.file| && echoed + pending == disk.file[..disk.offset]
  }

  /** Bytes handed to the file move from what is left to write to what is written. */
  lemma {:induction false} Moved(before: seq<byte>, wrote: seq<byte>, w: WriteState, result: int)
    requires Active(w) && Answers(w, result)
    ensures (before + wrote) + Output(w, result) == before + (wrote + Output(w, result))
    ensures (wrote + Output(w, result)) + Step(w, result).left == wrote + w.left
  {
    assert Output(w, result) + Step(w, result).left == w.left;
  }

  lemma {:induction false} BodyKeeps(before: seq<byte>, id: nat, disk: Disk, conn: Conn, result: int)
    requires conn.pc.Inside? && conn.pc.phase.Body? && CanReturn(disk, conn.pc.phase, result)
    requires SectionInv(before, disk, conn.pc)
    ensures var (d, c) := AfterIo(id, disk, conn, result); SectionInv(before, d, c.pc)
  {
    if Active(conn.pc.phase.w) {
      Moved(before, conn.pc.wrote, conn.pc.phase.w, result);
    } else {
      PrefixFacts(conn.pc.wrote, conn.pc.phase.w.left, conn.pc.packet);
    }
  }

  lemma {:induction false} NewlineKeeps(before: seq<byte>, id: nat, disk: Disk, conn: Conn, result: int)
    requires conn.pc.Inside? && conn.pc.phase.Newline? && CanReturn(disk, conn.pc.phase, result)
    requires SectionInv(before, disk, conn.pc)
    ensures var (d, c) := AfterIo(id, disk, conn, result); SectionInv(before, d, c.pc)
  {
    var w := conn.pc.phase.w;
    if Active(w) {
      assert disk.file + Output(w, result) == before + (conn.pc.wrote + Output(w, result));
      if result > 0 {
        assert Output(w, result) == [NEWLINE];
        assert conn.pc.lost ==> |conn.pc.wrote| < |conn.pc.packet|;
        assert (conn.pc.wrote + [NEWLINE])[..|conn.pc.wrote|] == conn.pc.wrote;
      }
    }
  }

  lemma {:induction false} ReadKeeps(before: seq<byte>, id: nat, disk: Disk, conn: Conn, result: int)
    requires conn.pc.Inside? && conn.pc.phase.Read? && CanReturn(disk, conn.pc.phase, result)
    requires SectionInv(before, disk, conn.pc)
    ensures var (d, c) := AfterIo(id, disk, conn, result); SectionInv(before, d, c.pc)
  {
    if result > 0 {
      assert disk.file[..disk.offset] + disk.file[disk.offset..disk.offset + result]
          == disk.file[..disk.offset + result];
    } else if result == 0 {
      assert disk.file[..disk.offset] == disk.file;
    }
  }

  lemma {:induction false} SendKeeps(before: seq<byte>, id: nat, disk: Disk, conn: Conn, result: int)
    requires conn.pc.Inside? && conn.pc.phase.Send? && CanReturn(disk, conn.pc.phase, result)
    requires SectionInv(before, disk, conn.pc)
    ensures var (d, c) := AfterIo(id, disk, conn, result); SectionInv(before, d, c.pc)
  {
    var w := conn.pc.phase.w;
    if Active(w) {
      assert Output(w, result) + Step(w, result).left == w.left;
      assert conn.pc.echoed + Output(w, result) + Step(w, result).left == conn.pc.echoed + w.left;
    } else {
      assert conn.pc.echoed <= disk.file[..disk.offset] <= disk.file;
    }
  }

  lemma {:induction false} IoStaysInside(id: nat, disk: Disk, conn: Conn, result: int)
    requires conn.pc.Inside? && CanReturn(disk, conn.pc.phase, result) && !conn.pc.phase.Release?
    ensures var (d, c) := AfterIo(id, disk, conn, result);
            c.pc.Inside? && c.pc.packet == conn.pc.packet && d.mutex == disk.mutex && d.log == disk.log
  {
  }

  lemma {:induction false} SeekKeeps(before: seq<byte>, id: nat, disk: Disk, conn: Conn, result: int)
    requires conn.pc.Inside? && (conn.pc.phase.Rewind? || conn.pc.phase.SeekEnd?)
    requires CanReturn(disk, conn.pc.phase, result) && SectionInv(before, disk, conn.pc)
    ensures var (d, c) := AfterIo(id, disk, conn, result); SectionInv(before, d, c.pc)
  {
    assert disk.file[..0] == [];
  }

  /** Every step inside a critical section keeps its invariant. */
  lemma {:induction false} SectionKeeps(before: seq<byte>, id: nat, disk: Disk, conn: Conn, result: int)
    requires conn.pc.Inside? && CanReturn(disk, conn.pc.phase, result) && !conn.pc.phase.Release?
    requires SectionInv(before, disk, conn.pc)
    ensures var (d, c) := AfterIo(id, disk, conn, result);
            && c.pc.Inside? && c.pc.packet == conn.pc.packet
            && d.mutex == disk.mutex && d.log == disk.log
            && SectionInv(before, d, c.pc)
  {
    IoStaysInside(id, disk, conn, result);
    match conn.pc.phase
    case Body(_) => BodyKeeps(before, id, disk, conn, result);
    case Newline(_) => NewlineKeeps(before, id, disk, conn, result);
    case Read => ReadKeeps(before, id, disk, conn, result);
    case Send(_) => SendKeeps(before, id, disk, conn, result);
    case _ => SeekKeeps(before, id, disk, conn, result);
  }

  /** The operation that a critical section amounts to. */
  function ReleaseOp(id: nat, pc: Pc): Op
    requires pc.Inside?
  {
    Op(Client(id), pc.packet, pc.wrote, pc.lost, pc.echoed, pc.cut)
  }

  /** The whole critical section is a legal atomic operation. */
  lemma {:induction false} ReleaseIsLegal(v: View, id: nat, disk: Disk, pc: Pc)
    requires pc.Inside? && pc.phase.Release? && SectionInv(v.file, disk, pc)
    ensures Legal(v, ReleaseOp(id, pc))
    ensures Apply(v, ReleaseOp(id, pc)).file == disk.file
  {
  }

  // ---------------------------------------------------------------- one connection thread

  function Pending(pc: Pc): seq<seq<byte>> {
    if pc.Waiting? || pc.Inside? then [pc.packet] else []
  }

  function Echoing(pc: Pc): seq<byte> {
    if pc.Inside? then pc.echoed else []
  }

  function Mine(disk: Disk, id: nat): seq<seq<byte>> {
    Packets(Of(disk.log, Client(id)))
  }

  /** A thread that has not seen a short read: full chunks so far, and nothing handled. */
  predicate StillReceiving(handled: seq<seq<byte>>, conn: Conn) {
    && (conn.pc.Reading? || conn.pc.Exited?)
    && Holds(conn.buffer, conn.received)
    && conn.taken == 0 && handled == []
  }

  /** After so many rounds the drain loop has cut off the packets handled and the one pending, and has
      left this buffer. */
  predicate CutOff(received: seq<byte>, taken: nat, handled: seq<seq<byte>>, pending: seq<seq<byte>>, left: seq<byte>) {
    Drain(Final(received), taken) == Drained(handled + pending, left) && |handled + pending| == taken
  }

  lemma {:induction false} NextCut(received: seq<byte>, taken: nat, handled: seq<seq<byte>>, left: seq<byte>)
    requires CutOff(received, taken, handled, [], left) && HasNewline(left)
    ensures CutOff(received, taken + 1, handled, [Token(left)], Shifted(left))
  {
    assert handled + [] == handled;
    DrainLast(Final(received), taken, Drained(handled, left));
  }

  /** A thread in its drain loop: it has handled the packets that the loop has cut off, except the
      one it is at, and its buffer is as the loop left it. */
  predicate InDrainLoop(handled: seq<seq<byte>>, conn: Conn) {
    && !conn.pc.Reading?
    && |conn.received| % CHUNK != 0
    && CutOff(conn.received, conn.taken, handled, Pending(conn.pc), conn.buffer.bytes)
    && (conn.pc.Exited? ==> !HasNewline(conn.buffer.bytes))
  }

  predicate DrainInv(handled: seq<seq<byte>>, conn: Conn) {
    if conn.ended then InDrainLoop(handled, conn) else StillReceiving(handled, conn)
  }

  predicate ConnInv(file: seq<byte>, disk: Disk, id: nat, conn: Conn) {
    && DrainInv(Mine(disk, id), conn)
    && conn.sent == Sent(Committed(file, disk), id) + Echoing(conn.pc)
  }

  lemma {:induction false} RecvKeeps(conn: Conn, chunk: seq<byte>)
    requires DrainInv([], conn) && conn.pc.Reading? && |chunk| <= CHUNK && HasRoom(conn.buffer, CHUNK)
    ensures DrainInv([], AfterRecv(conn, chunk))
  {
    if |chunk| == CHUNK {
      FullKeepsShape(conn.buffer, conn.received, chunk);
    } else if |chunk| > 0 {
      ShortEndsReceiving(conn.buffer, conn.received, chunk);
      LastChunk(|conn.received|, |chunk|);
      assert Drain(Final(conn.received + chunk), 0).packets == [];
    }
  }

  lemma {:induction false} LoopKeeps(handled: seq<seq<byte>>, conn: Conn)
    requires DrainInv(handled, conn) && conn.pc.Draining?
    ensures DrainInv(handled, AfterLoop(conn))
  {
    if HasNewline(conn.buffer.bytes) {
      NextCut(conn.received, conn.taken, handled, conn.buffer.bytes);
    }
  }

  // ---------------------------------------------------------------- the whole server

  function ConnAt(s: State, id: nat): Conn {
    if id < |s.conns| then s.conns[id] else NEW_CONN
  }

  /** Whoever holds the mutex is inside its critical section and has appended what it says;
      nobody else has appended anything that is not committed. */
  predicate MutexInv(file: seq<byte>, s: State) {
    var before := Committed(file, s.disk).file;
    match s.disk.mutex
    case Free => s.disk.file == before
    case HeldBy(Client(id)) => ConnAt(s, id).pc.Inside? && SectionInv(before, s.disk, ConnAt(s, id).pc)
    case HeldBy(Clock) => s.clock.pc.Printing? && PrintInv(before, s.disk, s.clock.pc)
  }

  predicate PrintInv(before: seq<byte>, disk: Disk, pc: ClockPc)
    requires pc.Printing?
  {
    && disk.file == before + pc.wrote && pc.wrote + pc.left == FullRecord(pc.text) && (pc.failed ==> pc.left != [])
    && (pc.wrote != [] ==> disk.offset == |disk.file|)
  }

  /** Only the holder of the mutex is inside a critical section. */
  ghost predicate Exclusive(s: State) {
    && (forall id: nat :: ConnAt(s, id).pc.Inside? ==> s.disk.mutex == HeldBy(Client(id)))
    && (s.clock.pc.Printing? ==> s.disk.mutex == HeldBy(Clock))
  }

  ghost predicate ConnsInv(file: seq<byte>, s: State) {
    forall id: nat :: ConnInv(file, s.disk, id, ConnAt(s, id))
  }

  /** The invariant of every reachable state of a server that found the file with this content. */
  ghost predicate FileInv(file: seq<byte>, s: State) {
    && LegalRun(View(file, map[]), s.disk.log)
    && MutexInv(file, s)
    && Exclusive(s)
    && ConnsInv(file, s)
  }

  lemma {:induction false} FileInvInitially(file: seq<byte>)
    ensures FileInv(file, Initial(file)) && Initial(file).disk == Disk(file, 0, Free, [])
  {
    var s := Initial(file);
    forall id: nat ensures ConnInv(file, s.disk, id, ConnAt(s, id)) {
      assert Of(s.disk.log, Client(id)) == [];
      assert Mine(s.disk, id) == [];
      assert Holds(EMPTY_BUFFER, []);
    }
  }

  // ---------------------------------------------------------------- the file over every step

  /** An operation of another actor changes nothing that a connection thread's invariant is about. */
  lemma {:induction false} CommitOfOther(file: seq<byte>, disk: Disk, op: Op, id: nat, conn: Conn)
    requires ConnInv(file, disk, id, conn) && op.actor != Client(id)
    ensures ConnInv(file, Commit(disk, op), id, conn)
  {
    OfSnoc(disk.log, op, Client(id));
    RunOpsSnoc(View(file, map[]), disk.log, op);
  }

  lemma {:induction false} CommitCounts(disk: Disk, op: Op, id: nat)
    requires op.actor == Client(id)
    ensures Mine(Commit(disk, op), id) == Mine(disk, id) + [op.packet]
  {
    OfSnoc(disk.log, op, Client(id));
  }

  lemma {:induction false} CommitSends(file: seq<byte>, disk: Disk, op: Op, id: nat)
    requires op.actor == Client(id)
    ensures Sent(Committed(file, Commit(disk, op)), id) == Sent(Committed(file, disk), id) + op.echo
  {
    RunOpsSnoc(View(file, map[]), disk.log, op);
  }

  /** When its own operation is committed, the packet counts as handled and the echo as sent. */
  lemma {:induction false} CommitOfOwn(file: seq<byte>, disk: Disk, id: nat, conn: Conn)
    requires ConnInv(file, disk, id, conn) && conn.pc.Inside? && conn.pc.phase.Release?
    ensures var (d, c) := AfterIo(id, disk, conn, 0); ConnInv(file, d, id, c)
  {
    var (d, c) := AfterIo(id, disk, conn, 0);
    CommitCounts(disk, ReleaseOp(id, conn.pc), id);
    CommitSends(file, disk, ReleaseOp(id, conn.pc), id);
    assert Mine(d, id) + Pending(c.pc) == Mine(disk, id) + Pending(conn.pc);
  }

  /** Steps that touch neither the log nor the critical section of anyone else. */
  lemma {:induction false} QuietStepKeepsConns(file: seq<byte>, s: State, t: State, id: nat)
    requires ConnsInv(file, s) && t.disk.log == s.disk.log
    requires forall k: nat | k != id :: ConnAt(t, k) == ConnAt(s, k)
    requires ConnInv(file, s.disk, id, ConnAt(t, id))
    ensures ConnsInv(file, t)
  {
    forall k: nat ensures ConnInv(file, t.disk, k, ConnAt(t, k)) {
      assert ConnInv(file, s.disk, k, ConnAt(s, k));
      assert Mine(t.disk, k) == Mine(s.disk, k);
    }
  }

  /** Steps that no connection takes part in. */
  lemma {:induction false} SameConns(file: seq<byte>, s: State, t: State)
    requires ConnsInv(file, s) && t.disk.log == s.disk.log
    requires forall k: nat :: ConnAt(t, k) == ConnAt(s, k)
    ensures ConnsInv(file, t)
  {
    assert ConnInv(file, s.disk, 0, ConnAt(s, 0));
    QuietStepKeepsConns(file, s, t, 0);
  }

  lemma {:induction false} ConnUpdated(s: State, id: nat, move: Move)
    requires id < |s.conns| && ClientEnabled(s.disk, s.conns[id], move)
    ensures var t := Next(s, ByClient(id, move));
            && (t.disk, ConnAt(t, id)) == ClientNext(id, s.disk, ConnAt(s, id), move)
            && (forall k: nat | k != id :: ConnAt(t, k) == ConnAt(s, k))
            && t.clock == s.clock && t.flags == s.flags
  {
  }

  /** A connection thread commits its operation when it releases the mutex, and nothing otherwise. */
  lemma {:induction false} ClientLog(s: State, id: nat, move: Move)
    requires Enabled(s, ByClient(id, move))
    ensures var (t, pc) := (Next(s, ByClient(id, move)), s.conns[id].pc);
            if pc.Inside? && pc.phase.Release? then t.disk == Commit(s.disk, ReleaseOp(id, pc))
            else t.disk.log == s.disk.log
  {
  }

  /** Receiving and testing the drain loop happen outside the critical section. */
  lemma {:induction false} LocalMoveKeepsConns(file: seq<byte>, s: State, id: nat, move: Move)
    requires ConnsInv(file, s) && Enabled(s, ByClient(id, move)) && (move.Recv? || move.Loop?)
    ensures ConnsInv(file, Next(s, ByClient(id, move)))
  {
    ConnUpdated(s, id, move);
    assert ConnInv(file, s.disk, id, ConnAt(s, id));
    if move.Recv? {
      RecvKeeps(ConnAt(s, id), move.chunk);
    } else {
      LoopKeeps(Mine(s.disk, id), ConnAt(s, id));
    }
    QuietStepKeepsConns(file, s, Next(s, ByClient(id, move)), id);
  }

  /** Steps that leave the shared file, the timestamp thread and everyone inside a critical section
      as they were. */
  lemma {:induction false} SharedUntouched(file: seq<byte>, s: State, t: State)
    requires MutexInv(file, s) && Exclusive(s) && t.disk == s.disk && t.clock == s.clock
    requires forall k: nat :: ConnAt(t, k).pc.Inside? || ConnAt(s, k).pc.Inside? ==> ConnAt(t, k) == ConnAt(s, k)
    ensures MutexInv(file, t) && Exclusive(t)
  {
    match s.disk.mutex
    case Free =>
    case HeldBy(Client(id)) => assert ConnAt(s, id).pc.Inside?;
    case HeldBy(Clock) =>
  }

  lemma {:induction false} LocalMoveKeeps(file: seq<byte>, s: State, id: nat, move: Move)
    requires FileInv(file, s) && Enabled(s, ByClient(id, move)) && (move.Recv? || move.Loop?)
    ensures FileInv(file, Next(s, ByClient(id, move)))
  {
    LocalMoveKeepsConns(file, s, id, move);
    ConnUpdated(s, id, move);
    assert !ConnAt(s, id).pc.Inside? && !ConnAt(Next(s, ByClient(id, move)), id).pc.Inside?;
    SharedUntouched(file, s, Next(s, ByClient(id, move)));
  }

  lemma {:induction false} AcquireKeeps(file: seq<byte>, s: State, id: nat)
    requires FileInv(file, s) && Enabled(s, ByClient(id, Acquire))
    ensures FileInv(file, Next(s, ByClient(id, Acquire)))
  {
    var t := Next(s, ByClient(id, Acquire));
    ConnUpdated(s, id, Acquire);
    assert ConnInv(file, s.disk, id, ConnAt(s, id));
    QuietStepKeepsConns(file, s, t, id);
  }

  lemma {:induction false} IoSends(id: nat, disk: Disk, conn: Conn, result: int)
    requires conn.pc.Inside? && !conn.pc.phase.Release? && CanReturn(disk, conn.pc.phase, result)
    ensures var c := AfterIo(id, disk, conn, result).1;
            && c == conn.(sent := c.sent, pc := c.pc) && c.pc.Inside? && c.pc.packet == conn.pc.packet
            && exists out: seq<byte> :: c.sent == conn.sent + out && c.pc.echoed == conn.pc.echoed + out
  {
    var c := AfterIo(id, disk, conn, result).1;
    if conn.pc.phase.Send? && Active(conn.pc.phase.w) {
      var out := Output(conn.pc.phase.w, result);
      assert c.sent == conn.sent + out && c.pc.echoed == conn.pc.echoed + out;
    } else {
      assert c.sent == conn.sent + [] && c.pc.echoed == conn.pc.echoed + [];
    }
  }

  lemma {:induction false} IoKeepsConn(file: seq<byte>, id: nat, disk: Disk, conn: Conn, result: int)
    requires ConnInv(file, disk, id, conn) && conn.pc.Inside? && !conn.pc.phase.Release?
    requires CanReturn(disk, conn.pc.phase, result)
    ensures var (d, c) := AfterIo(id, disk, conn, result); ConnInv(file, disk, id, c)
  {
    var c := AfterIo(id, disk, conn, result).1;
    IoSends(id, disk, conn, result);
    var out :| c.sent == conn.sent + out && c.pc.echoed == conn.pc.echoed + out;
    Regroup(Sent(Committed(file, disk), id), conn.pc.echoed, out);
    assert Pending(c.pc) == Pending(conn.pc);
  }

  lemma {:induction false} IoKeeps(file: seq<byte>, s: State, id: nat, result: int)
    requires FileInv(file, s) && Enabled(s, ByClient(id, Io(result))) && !s.conns[id].pc.phase.Release?
    ensures FileInv(file, Next(s, ByClient(id, Io(result))))
  {
    var t := Next(s, ByClient(id, Io(result)));
    ConnUpdated(s, id, Io(result));
    var before := Committed(file, s.disk).file;
    assert ConnAt(s, id).pc.Inside?;
    SectionKeeps(before, id, s.disk, ConnAt(s, id), result);
    assert ConnInv(file, s.disk, id, ConnAt(s, id));
    IoKeepsConn(file, id, s.disk, ConnAt(s, id), result);
    QuietStepKeepsConns(file, s, t, id);
  }

  lemma {:induction false} ReleaseKeepsConns(file: seq<byte>, s: State, id: nat)
    requires ConnsInv(file, s) && Enabled(s, ByClient(id, Io(0))) && s.conns[id].pc.Inside?
    requires s.conns[id].pc.phase.Release?
    ensures ConnsInv(file, Next(s, ByClient(id, Io(0))))
  {
    var t := Next(s, ByClient(id, Io(0)));
    ConnUpdated(s, id, Io(0));
    assert ConnInv(file, s.disk, id, ConnAt(s, id));
    CommitOfOwn(file, s.disk, id, ConnAt(s, id));
    forall k: nat | k != id ensures ConnInv(file, t.disk, k, ConnAt(t, k)) {
      assert ConnInv(file, s.disk, k, ConnAt(s, k));
      CommitOfOther(file, s.disk, ReleaseOp(id, ConnAt(s, id).pc), k, ConnAt(s, k));
    }
  }

  /** After the commit nobody is inside a critical section and the file is what has been committed. */
  lemma {:induction false} ReleaseKeepsFile(file: seq<byte>, s: State, id: nat)
    requires LegalRun(View(file, map[]), s.disk.log) && MutexInv(file, s)
    requires s.disk.mutex == HeldBy(Client(id)) && ConnAt(s, id).pc.Inside? && ConnAt(s, id).pc.phase.Release?
    ensures var d := Commit(s.disk, ReleaseOp(id, ConnAt(s, id).pc));
            LegalRun(View(file, map[]), d.log) && d.file == Committed(file, d).file
  {
    ReleaseIsLegal(Committed(file, s.disk), id, s.disk, ConnAt(s, id).pc);
    RunOpsSnoc(View(file, map[]), s.disk.log, ReleaseOp(id, ConnAt(s, id).pc));
  }

  lemma {:induction false} ReleaseKeepsExclusive(s: State, id: nat)
    requires Exclusive(s) && Enabled(s, ByClient(id, Io(0))) && s.conns[id].pc.Inside?
    requires s.conns[id].pc.phase.Release?
    ensures Exclusive(Next(s, ByClient(id, Io(0))))
    ensures s.disk.mutex == HeldBy(Client(id))
    ensures Next(s, ByClient(id, Io(0))).disk == Commit(s.disk, ReleaseOp(id, ConnAt(s, id).pc))
  {
    ConnUpdated(s, id, Io(0));
    assert ConnAt(s, id).pc.Inside?;
  }

  lemma {:induction false} ReleaseKeeps(file: seq<byte>, s: State, id: nat)
    requires FileInv(file, s) && Enabled(s, ByClient(id, Io(0))) && s.conns[id].pc.Inside?
    requires s.conns[id].pc.phase.Release?
    ensures FileInv(file, Next(s, ByClient(id, Io(0))))
  {
    ReleaseKeepsConns(file, s, id);
    ReleaseKeepsExclusive(s, id);
    ReleaseKeepsFile(file, s, id);
  }

  lemma {:induction false} ClientKeeps(file: seq<byte>, s: State, id: nat, move: Move)
    requires FileInv(file, s) && Enabled(s, ByClient(id, move))
    ensures FileInv(file, Next(s, ByClient(id, move)))
  {
    match move
    case Recv(_) => LocalMoveKeeps(file, s, id, move);
    case Loop => LocalMoveKeeps(file, s, id, move);
    case Acquire => AcquireKeeps(file, s, id);
    case Io(result) =>
      if s.conns[id].pc.phase.Release? {
        ReleaseKeeps(file, s, id);
      } else {
        IoKeeps(file, s, id, result);
      }
  }

  lemma {:induction false} PrintInvKeeps(before: seq<byte>, disk: Disk, pc: ClockPc, n: nat)
    requires pc.Printing? && PrintInv(before, disk, pc) && 0 < n <= |pc.left| && !pc.failed
    ensures PrintInv(before, Append(disk, pc.left[..n]),
                     Printing(pc.text, pc.left[n..], pc.wrote + pc.left[..n], false))
  {
    assert pc.left[..n] + pc.left[n..] == pc.left;
    assert before + pc.wrote + pc.left[..n] == before + (pc.wrote + pc.left[..n]);
  }

  lemma {:induction false} PrintKeeps(file: seq<byte>, s: State, n: nat)
    requires FileInv(file, s) && Enabled(s, ByClock(Print(n)))
    ensures FileInv(file, Next(s, ByClock(Print(n))))
  {
    var t := Next(s, ByClock(Print(n)));
    PrintInvKeeps(Committed(file, s.disk).file, s.disk, s.clock.pc, n);
    ClockLeavesConns(s, Print(n));
    SameConns(file, s, t);
  }

  lemma {:induction false} PrintFailsKeeps(file: seq<byte>, s: State)
    requires FileInv(file, s) && Enabled(s, ByClock(PrintFails))
    ensures FileInv(file, Next(s, ByClock(PrintFails)))
  {
    ClockLeavesConns(s, PrintFails);
    SameConns(file, s, Next(s, ByClock(PrintFails)));
  }

  /** Whatever part of a timestamp reaches the file, it is a legal operation. */
  lemma {:induction false} PartOfRecord(wrote: seq<byte>, left: seq<byte>, text: seq<byte>)
    requires wrote + left == FullRecord(text)
    ensures PartialRecord(text, wrote)
    ensures left != [] <==> wrote != FullRecord(text)
  {
    assert FullRecord(text)[..|text|] == text;
    if left == [] {
      assert wrote == FullRecord(text);
    } else {
      assert wrote == FullRecord(text)[..|wrote|] == text[..|wrote|];
    }
  }

  lemma {:induction false} UnlockKeeps(file: seq<byte>, s: State)
    requires FileInv(file, s) && Enabled(s, ByClock(Unlock)) && s.clock.pc.Printing?
    ensures FileInv(file, Next(s, ByClock(Unlock)))
  {
    var t := Next(s, ByClock(Unlock));
    var pc := s.clock.pc;
    var op := Op(Clock, pc.text, pc.wrote, pc.failed, [], false);
    var base := View(file, map[]);
    PartOfRecord(pc.wrote, pc.left, pc.text);
    RunOpsSnoc(base, s.disk.log, op);
    forall k: nat ensures ConnInv(file, t.disk, k, ConnAt(t, k)) {
      assert ConnInv(file, s.disk, k, ConnAt(s, k));
      CommitOfOther(file, s.disk, op, k, ConnAt(s, k));
    }
  }

  lemma {:induction false} ClockKeeps(file: seq<byte>, s: State, tick: ClockMove)
    requires FileInv(file, s) && Enabled(s, ByClock(tick))
    ensures FileInv(file, Next(s, ByClock(tick)))
  {
    match tick
    case Print(n) => PrintKeeps(file, s, n);
    case PrintFails => PrintFailsKeeps(file, s);
    case Unlock => UnlockKeeps(file, s);
    case Begin(text) => BeginKeeps(file, s, text);
    case Advance => AdvanceKeeps(file, s);
  }

  lemma {:induction false} ClockLeavesConns(s: State, tick: ClockMove)
    requires Enabled(s, ByClock(tick))
    ensures forall k: nat :: ConnAt(Next(s, ByClock(tick)), k) == ConnAt(s, k)
  {
    assert Next(s, ByClock(tick)).conns == s.conns;
  }

  lemma {:induction false} BeginKeeps(file: seq<byte>, s: State, text: seq<byte>)
    requires FileInv(file, s) && Enabled(s, ByClock(Begin(text)))
    ensures FileInv(file, Next(s, ByClock(Begin(text))))
  {
    ClockLeavesConns(s, Begin(text));
    SameConns(file, s, Next(s, ByClock(Begin(text))));
  }

  lemma {:induction false} AdvanceKeeps(file: seq<byte>, s: State)
    requires FileInv(file, s) && Enabled(s, ByClock(Advance))
    ensures FileInv(file, Next(s, ByClock(Advance)))
  {
    var t := Next(s, ByClock(Advance));
    ClockLeavesConns(s, Advance);
    SameConns(file, s, t);
    assert !s.clock.pc.Printing? && !t.clock.pc.Printing?;
    SharedUntouched(file, s, t.(clock := s.clock));
  }

  /** The listen thread, the main thread and signals leave the file and all connections alone; a
      new connection starts as one that has done nothing. */
  lemma {:induction false} OthersKeep(file: seq<byte>, s: State, a: Action)
    requires FileInv(file, s) && Enabled(s, a) && !a.ByClient? && !a.ByClock?
    ensures FileInv(file, Next(s, a))
  {
    OthersLeaveConns(s, a);
    SameConns(file, s, Next(s, a));
    SharedUntouched(file, s, Next(s, a));
  }

  lemma {:induction false} OthersLeaveConns(s: State, a: Action)
    requires Enabled(s, a) && !a.ByClient? && !a.ByClock?
    ensures Next(s, a).disk == s.disk && Next(s, a).clock == s.clock
    ensures forall k: nat :: ConnAt(Next(s, a), k) == ConnAt(s, k)
  {
    if a.ByListener? {
      assert Next(s, a) == ListenerStep(s, a.ok);
    } else {
      assert Next(s, a).conns == s.conns;
    }
  }

  /** Every step of every thread keeps the invariant. */
  lemma {:induction false} StepKeepsFileInv(file: seq<byte>, s: State, a: Action)
    requires FileInv(file, s) && Enabled(s, a)
    ensures FileInv(file, Next(s, a))
  {
    match a
    case ByClient(id, move) => ClientKeeps(file, s, id, move);
    case ByClock(tick) => ClockKeeps(file, s, tick);
    case _ => OthersKeep(file, s, a);
  }

  /** So it holds after every run. */
  lemma {:induction false} RunKeepsFileInv(file: seq<byte>, run: seq<Action>)
    requires IsRun(Initial(file), run)
    ensures FileInv(file, After(Initial(file), run))
    decreases |run|
  {
    if run == [] {
      FileInvInitially(file);
    } else {
      RunKeepsFileInv(file, run[..|run| - 1]);
      StepKeepsFileInv(file, After(Initial(file), run[..|run| - 1]), run[|run| - 1]);
    }
  }
}
