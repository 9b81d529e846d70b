/** The server can always be brought to its end, unless a drain loop never stops. */
module Shutdown {
  import opened Bytes
  import opened Splitter
  import opened Stopping
  import opened Receiving
  import opened Handling
  import opened AtomicSpec
  import opened Protocol
  import opened Sections
  import opened Progress
  import opened Lifecycle

  /** Every connection that has seen its short read has a drain loop that stops. */
  predicate AllDrainsStop(s: State) {
    forall id | 0 <= id < |s.conns| && s.conns[id].ended :: DrainStops(s.conns[id].received)
  }

  /** A reachable state of a server that has been told to stop, and can. */
  ghost predicate Ending(file: seq<byte>, s: State) {
    FileInv(file, s) && LifeInv(s) && !s.flags.run && AllDrainsStop(s)
  }

  // ---------------------------------------------------------------- how far it is to the end

  function ListenerRank(pc: ListenPc): nat {
    match pc
    case Closed => 0
    case OuterCheck => 1
    case Confirm(_) => 1
    case AcceptCheck => 2
    case Insert(_) => 2
    case AcceptCall => 3
    case ListenCheck => 3
    case Create => 3
    case ListenCall => 4
  }

  function ClockRank(pc: ClockPc): nat {
    match pc
    case Stopped => 0
    case CheckRun => 1
    case ClearDue => 2
    case Printing(_, _, _, _) => 3
    case Locking => 4
    case InnerRun => 5
    case InnerDue => 6
  }

  /** Packets that the drain loop of this connection still cuts off at most. */
  function PacketsLeft(conn: Conn): nat {
    var all := Patience(Final(conn.received));
    if conn.taken <= all then all - conn.taken else 0
  }

  function ConnRank(conn: Conn): nat {
    match conn.pc
    case Exited => 0
    case Reading => 1
    case Draining => 3 * PacketsLeft(conn) + 1
    case Inside(_, _, _, _, _, _) => 3 * PacketsLeft(conn) + 2
    case Waiting(_) => 3 * PacketsLeft(conn) + 3
  }

  function ConnRanks(conns: seq<Conn>): nat {
    if conns == [] then 0 else ConnRank(conns[0]) + ConnRanks(conns[1..])
  }

  function ThreadRank(s: State): nat {
    ClockRank(s.clock.pc) + ConnRanks(s.conns)
  }

  /** Steps left inside the critical section of the thread that is in one. */
  function HolderRank(s: State): nat {
    if s.disk.mutex.HeldBy? && InsideAt(s, s.disk.mutex.actor) then BoundAt(s, s.disk.mutex.actor) else 0
  }

  /** Nearer to the end: first the listen thread ends, then the other threads, then the main thread. */
  predicate Nearer(t: State, s: State) {
    var (l, m) := (ListenerRank(t.listener), ListenerRank(s.listener));
    l < m || (l == m && ThreadsNearer(t, s))
  }

  predicate ThreadsNearer(t: State, s: State) {
    || ThreadRank(t) < ThreadRank(s)
    || (ThreadRank(t) == ThreadRank(s) && (HolderRank(t) < HolderRank(s)
                                           || (HolderRank(t) == HolderRank(s) && MainNearer(t, s))))
  }

  predicate MainNearer(t: State, s: State) {
    Rank(t.main) > Rank(s.main) || (t.main == s.main && |t.list| < |s.list|)
  }

  lemma {:induction false} RanksUpdate(conns: seq<Conn>, id: nat, c: Conn)
    requires id < |conns|
    ensures ConnRanks(conns[id := c]) + ConnRank(conns[id]) == ConnRanks(conns) + ConnRank(c)
  {
    if id == 0 {
      assert conns[id := c][1..] == conns[1..];
    } else {
      RanksUpdate(conns[1..], id - 1, c);
      assert conns[id := c][1..] == conns[1..][id - 1 := c];
    }
  }

  // ---------------------------------------------------------------- the next step

  /** The first connection thread from `id` on that has not ended, or their number. */
  function FirstAlive(conns: seq<Conn>, id: nat): (k: nat)
    requires id <= |conns|
    ensures id <= k <= |conns|
    ensures k < |conns| ==> !conns[k].pc.Exited?
    ensures forall i | id <= i < k :: conns[i].pc.Exited?
    decreases |conns| - id
  {
    if id == |conns| || !conns[id].pc.Exited? then id else FirstAlive(conns, id + 1)
  }

  /** What a connection thread outside its critical section does next: a reader finds the connection
      closed. */
  function OwnMove(conn: Conn): Move {
    match conn.pc
    case Reading => Recv([])
    case Draining => Loop
    case _ => Acquire
  }

  /** A step that brings the end nearer: of the listen thread; or else of the thread that holds the
      mutex; or else of the timestamp thread; or else of a connection thread; or else of main. */
  function WindDown(s: State): Action {
    var alive := FirstAlive(s.conns, 0);
    if !s.listener.Closed? then ByListener(true)
    else if s.disk.mutex.HeldBy? && InsideAt(s, s.disk.mutex.actor) then HolderMove(s, s.disk.mutex.actor)
    else if !s.clock.pc.Stopped? then ByClock(if s.clock.pc.Locking? then Begin([]) else Advance)
    else if alive < |s.conns| then ByClient(alive, OwnMove(s.conns[alive]))
    else ByMain
  }

  lemma {:induction false} ListenerNearer(s: State, ok: bool)
    requires !s.flags.run && !s.listener.Closed?
    ensures ListenerRank(Next(s, ByListener(ok)).listener) < ListenerRank(s.listener)
    ensures !ok ==> ListenerRank(Next(s, ByListener(ok)).listener) == ListenerRank(s.listener) - 1
  {
    assert Next(s, ByListener(ok)).listener == ListenNext(false, s.listener, ok, |s.conns|);
  }

  lemma {:induction false} ClientConns(s: State, id: nat, move: Move)
    requires Enabled(s, ByClient(id, move))
    ensures Next(s, ByClient(id, move)).conns == s.conns[id := ClientNext(id, s.disk, s.conns[id], move).1]
  {
  }

  lemma {:induction false} ClientHolderNearer(file: seq<byte>, s: State, id: nat, a: Action)
    requires FileInv(file, s) && InsideAt(s, Client(id)) && Enabled(s, a) && a.ByClient? && a.id == id
    ensures Next(s, a).listener == s.listener && ThreadsNearer(Next(s, a), s)
  {
    var t := Next(s, a);
    InsideHolds(file, s, Client(id));
    OwnStepLowers(file, s, Client(id), a);
    ClientConns(s, id, a.move);
    RanksUpdate(s.conns, id, t.conns[id]);
    IoRank(id, s.disk, s.conns[id], a.move.result);
    if InsideAt(t, Client(id)) {
      StepKeepsFileInv(file, s, a);
      InsideHolds(file, t, Client(id));
    }
  }

  /** Inside its critical section a thread keeps its rank until it releases the mutex. */
  lemma {:induction false} IoRank(id: nat, disk: Disk, conn: Conn, result: int)
    requires conn.pc.Inside? && CanReturn(disk, conn.pc.phase, result)
    ensures var c := AfterIo(id, disk, conn, result).1;
            if c.pc.Inside? then ConnRank(c) == ConnRank(conn) else ConnRank(c) < ConnRank(conn)
  {
    var c := AfterIo(id, disk, conn, result).1;
    assert c.received == conn.received && c.taken == conn.taken;
  }

  lemma {:induction false} ClockHolderNearer(file: seq<byte>, s: State, tick: ClockMove)
    requires FileInv(file, s) && s.clock.pc.Printing? && Enabled(s, ByClock(tick))
    ensures Next(s, ByClock(tick)).listener == s.listener && ThreadsNearer(Next(s, ByClock(tick)), s)
  {
    var t := Next(s, ByClock(tick));
    InsideHolds(file, s, Clock);
    ClockFalls(s, tick);
    if InsideAt(t, Clock) {
      StepKeepsFileInv(file, s, ByClock(tick));
      InsideHolds(file, t, Clock);
    }
  }

  lemma {:induction false} ClockNearer(s: State, tick: ClockMove)
    requires !s.flags.run && !s.clock.pc.Printing? && Enabled(s, ByClock(tick))
    ensures Next(s, ByClock(tick)).listener == s.listener
    ensures ThreadRank(Next(s, ByClock(tick))) < ThreadRank(s)
  {
  }

  /** As long as the guard of a drain loop that stops finds a newline, the loop has packets left. */
  lemma {:induction false} LoopHasPacketsLeft(handled: seq<seq<byte>>, conn: Conn)
    requires DrainInv(handled, conn) && conn.pc.Draining? && DrainStops(conn.received)
    requires HasNewline(conn.buffer.bytes)
    ensures conn.taken < Patience(Final(conn.received))
  {
    var b := Final(conn.received);
    if Patience(b) <= conn.taken {
      DrainStable(b, Patience(b), conn.taken);
    }
  }

  lemma {:induction false} OwnMoveRank(handled: seq<seq<byte>>, id: nat, disk: Disk, conn: Conn)
    requires DrainInv(handled, conn) && (conn.ended ==> DrainStops(conn.received))
    requires !conn.pc.Exited? && !conn.pc.Inside? && disk.mutex.Free?
    ensures ClientEnabled(disk, conn, OwnMove(conn))
    ensures ConnRank(ClientNext(id, disk, conn, OwnMove(conn)).1) < ConnRank(conn)
  {
    if conn.pc.Draining? && HasNewline(conn.buffer.bytes) {
      LoopHasPacketsLeft(handled, conn);
    }
  }

  lemma {:induction false} ClientNearer(file: seq<byte>, s: State, id: nat)
    requires Ending(file, s) && id < |s.conns| && s.disk.mutex.Free? && !s.conns[id].pc.Exited?
    ensures Enabled(s, ByClient(id, OwnMove(s.conns[id])))
    ensures var t := Next(s, ByClient(id, OwnMove(s.conns[id])));
            t.listener == s.listener && ThreadRank(t) < ThreadRank(s)
  {
    var conn := s.conns[id];
    assert ConnInv(file, s.disk, id, ConnAt(s, id));
    assert !ConnAt(s, id).pc.Inside?;
    OwnMoveRank(Mine(s.disk, id), id, s.disk, conn);
    RanksUpdate(s.conns, id, ClientNext(id, s.disk, conn, OwnMove(conn)).1);
  }

  lemma {:induction false} MainCanStep(s: State)
    requires LifeInv(s) && !s.flags.run && s.listener.Closed? && s.clock.pc.Stopped? && !s.main.Gone?
    requires forall id | 0 <= id < |s.conns| :: s.conns[id].pc.Exited?
    ensures MainEnabled(s) && MainNearer(MainNext(s), s)
    ensures MainNext(s).listener == s.listener && ThreadRank(MainNext(s)) == ThreadRank(s)
    ensures MainNext(s).disk == s.disk && MainNext(s).conns == s.conns
  {
    if s.main.JoinNext? && s.list != [] {
      ListedExists(s);
    }
  }

  /** What is on the list exists. */
  lemma {:induction false} ListedExists(s: State)
    requires ListInv(s) && s.listener.Closed? && s.list != []
    ensures s.list[0] < |s.conns|
  {
    var k := |s.joined|;
    assert (s.joined + s.list)[k] == s.list[0];
    DescendingAt(|s.conns|, k);
  }

  // ---------------------------------------------------------------- every such step can be made

  /** Nothing but a short read ends the receiving of a connection. */
  predicate EndsNoReceiving(a: Action) {
    a.ByClient? && a.move.Recv? ==> a.move.chunk == []
  }

  lemma {:induction false} ClientEndsNothing(id: nat, disk: Disk, conn: Conn, move: Move)
    requires ClientEnabled(disk, conn, move) && (move.Recv? ==> move.chunk == [])
    ensures var c := ClientNext(id, disk, conn, move).1; c.ended == conn.ended && c.received == conn.received
  {
  }

  lemma {:induction false} DrainsStillStop(s: State, a: Action)
    requires AllDrainsStop(s) && Enabled(s, a) && EndsNoReceiving(a)
    ensures AllDrainsStop(Next(s, a))
  {
    match a
    case ByClient(id, move) =>
      ClientConns(s, id, move);
      ClientEndsNothing(id, s.disk, s.conns[id], move);
    case ByListener(ok) => assert Next(s, a) == ListenerStep(s, ok);
    case _ => assert Next(s, a).conns == s.conns;
  }

  lemma {:induction false} EndingStays(file: seq<byte>, s: State, a: Action)
    requires Ending(file, s) && Enabled(s, a) && EndsNoReceiving(a)
    ensures Ending(file, Next(s, a))
  {
    StepKeepsFileInv(file, s, a);
    StepKeepsLife(s, a);
    FlagStep(s, a);
    DrainsStillStop(s, a);
  }

  /** The mutex is held by a thread inside its critical section or by nobody. */
  lemma {:induction false} HolderIsInside(file: seq<byte>, s: State)
    requires FileInv(file, s)
    ensures s.disk.mutex.HeldBy? ==> InsideAt(s, s.disk.mutex.actor)
    ensures s.disk.mutex.Free? ==> !s.clock.pc.Printing? && forall id | 0 <= id < |s.conns| :: !s.conns[id].pc.Inside?
  {
    forall id | 0 <= id < |s.conns| && s.conns[id].pc.Inside? ensures s.disk.mutex.HeldBy? {
      assert ConnAt(s, id).pc.Inside?;
    }
  }

  lemma {:induction false} HolderWindsDown(file: seq<byte>, s: State, actor: Actor)
    requires FileInv(file, s) && InsideAt(s, actor)
    ensures var a := HolderMove(s, actor);
            Enabled(s, a) && EndsNoReceiving(a) && Next(s, a).listener == s.listener && ThreadsNearer(Next(s, a), s)
  {
    InsideHolds(file, s, actor);
    HolderMoves(file, s, actor);
    match actor
    case Client(id) => ClientHolderNearer(file, s, id, HolderMove(s, actor));
    case Clock => ClockHolderNearer(file, s, HolderMove(s, actor).tick);
  }

  /** The step is enabled, brings the end nearer, and leaves a state of the same kind. */
  lemma {:induction false} WindDownStep(file: seq<byte>, s: State)
    requires Ending(file, s) && !s.main.Gone?
    ensures Enabled(s, WindDown(s)) && EndsNoReceiving(WindDown(s)) && Nearer(Next(s, WindDown(s)), s)
  {
    var alive := FirstAlive(s.conns, 0);
    HolderIsInside(file, s);
    if !s.listener.Closed? {
      ListenerNearer(s, true);
    } else if s.disk.mutex.HeldBy? {
      HolderWindsDown(file, s, s.disk.mutex.actor);
    } else if !s.clock.pc.Stopped? {
      ClockNearer(s, if s.clock.pc.Locking? then Begin([]) else Advance);
    } else if alive < |s.conns| {
      ClientNearer(file, s, alive);
    } else {
      MainCanStep(s);
    }
  }

  /** Nothing is left for a thread to do that touches the file or a connection. */
  predicate Idle(s: State) {
    && !s.flags.run && s.disk.mutex.Free? && (s.listener.OuterCheck? || s.listener.Closed?)
    && (s.clock.pc.CheckRun? || s.clock.pc.Stopped?)
    && forall id | 0 <= id < |s.conns| :: s.conns[id].pc.Exited?
  }

  lemma {:induction false} IdleStays(s: State)
    requires Idle(s) && Enabled(s, WindDown(s))
    ensures Idle(Next(s, WindDown(s)))
    ensures Next(s, WindDown(s)).disk == s.disk && Next(s, WindDown(s)).conns == s.conns
  {
    assert FirstAlive(s.conns, 0) == |s.conns|;
    if !s.listener.Closed? {
      assert Next(s, WindDown(s)) == ListenerStep(s, true) == s.(listener := Closed);
    }
  }

  /** So the server can be brought to its end; and what is idle stays as it is. */
  lemma {:induction false} CanEnd(file: seq<byte>, s: State) returns (run: seq<Action>)
    requires Ending(file, s)
    ensures IsRun(s, run) && After(s, run).main.Gone?
    ensures Idle(s) ==> After(s, run).disk == s.disk && After(s, run).conns == s.conns
    decreases ListenerRank(s.listener), ThreadRank(s), HolderRank(s), 8 - Rank(s.main), |s.list|
  {
    if s.main.Gone? {
      run := [];
    } else {
      var a := WindDown(s);
      WindDownStep(file, s);
      EndingStays(file, s, a);
      if Idle(s) {
        IdleStays(s);
      }
      var more := CanEnd(file, Next(s, a));
      StepThenRun(s, a, more);
      run := [a] + more;
    }
  }

  // ---------------------------------------------------------------- and nothing else can keep it from that

  lemma {:induction false} ClientStaysEnded(handled: seq<seq<byte>>, id: nat, disk: Disk, conn: Conn, move: Move)
    requires DrainInv(handled, conn) && conn.ended && ClientEnabled(disk, conn, move)
    ensures var c := ClientNext(id, disk, conn, move).1; c.ended && c.received == conn.received
  {
  }

  lemma {:induction false} EndedStays(file: seq<byte>, s: State, a: Action, id: nat)
    requires FileInv(file, s) && Enabled(s, a) && id < |s.conns| && s.conns[id].ended
    ensures id < |Next(s, a).conns| && Next(s, a).conns[id].ended
    ensures Next(s, a).conns[id].received == s.conns[id].received
  {
    match a
    case ByClient(other, move) =>
      ClientConns(s, other, move);
      if other == id {
        assert ConnInv(file, s.disk, id, ConnAt(s, id));
        ClientStaysEnded(Mine(s.disk, id), id, s.disk, s.conns[id], move);
      }
    case ByListener(ok) => assert Next(s, a) == ListenerStep(s, ok);
    case _ => assert Next(s, a).conns == s.conns;
  }

  /** What a connection has received up to its short read is all it ever receives. */
  lemma {:induction false} EndedForEver(file: seq<byte>, s: State, run: seq<Action>, id: nat)
    requires FileInv(file, s) && IsRun(s, run) && id < |s.conns| && s.conns[id].ended
    ensures FileInv(file, After(s, run))
    ensures var t := After(s, run);
            id < |t.conns| && t.conns[id].ended && t.conns[id].received == s.conns[id].received
    decreases |run|
  {
    if run != [] {
      var before, last := run[..|run| - 1], run[|run| - 1];
      EndedForEver(file, s, before, id);
      StepKeepsFileInv(file, After(s, before), last);
      EndedStays(file, After(s, before), last, id);
    }
  }

  lemma {:induction false} ExitedDrainStopped(handled: seq<seq<byte>>, conn: Conn)
    requires DrainInv(handled, conn) && conn.ended && conn.pc.Exited?
    ensures DrainStops(conn.received)
  {
    var b := Final(conn.received);
    assert Stops(b, conn.taken);
    StoppingIsDecided(b);
  }

  lemma {:induction false} ExitedDrainsStop(file: seq<byte>, s: State)
    requires FileInv(file, s) && forall id | 0 <= id < |s.conns| :: s.conns[id].pc.Exited?
    ensures AllDrainsStop(s)
  {
    forall id | 0 <= id < |s.conns| && s.conns[id].ended ensures DrainStops(s.conns[id].received) {
      assert ConnInv(file, s.disk, id, ConnAt(s, id));
      ExitedDrainStopped(Mine(s.disk, id), s.conns[id]);
    }
  }

  lemma {:induction false} GoneIsTornDown(file: seq<byte>, run: seq<Action>)
    requires IsRun(Initial(file), run) && After(Initial(file), run).main.Gone?
    ensures var s := After(Initial(file), run); !s.diskOpen && !s.flagsLive && !s.fileThere
  {
    RunKeepsLife(file, run);
  }

  lemma {:induction false} DrainsStoppedAtEnd(file: seq<byte>, run: seq<Action>)
    requires IsRun(Initial(file), run) && After(Initial(file), run).main.Gone?
    ensures AllDrainsStop(After(Initial(file), run))
  {
    GoneIsTornDown(file, run);
    TeardownIsSafe(file, run);
    RunKeepsFileInv(file, run);
    ExitedDrainsStop(file, After(Initial(file), run));
  }

  lemma {:induction false} OnlyIfDrainStops(file: seq<byte>, run: seq<Action>, more: seq<Action>, id: nat)
    requires IsRun(Initial(file), run) && IsRun(After(Initial(file), run), more)
    requires After(After(Initial(file), run), more).main.Gone?
    requires id < |After(Initial(file), run).conns| && After(Initial(file), run).conns[id].ended
    ensures DrainStops(After(Initial(file), run).conns[id].received)
  {
    var s := After(Initial(file), run);
    RunKeepsFileInv(file, run);
    EndedForEver(file, s, more, id);
    RunsJoin(Initial(file), run, s, more);
    DrainsStoppedAtEnd(file, run + more);
  }

  /** From every reachable state there is a run to the end of the process, with every thread ended and
      joined and everything torn down, if and only if the drain loop stops of every connection that has
      seen its short read. */
  lemma {:induction false} ServerCanFinish(file: seq<byte>, run: seq<Action>)
    requires IsRun(Initial(file), run)
    ensures var s := After(Initial(file), run);
            (exists more :: IsRun(s, more) && After(s, more).main.Gone?) <==> AllDrainsStop(s)
  {
    var s := After(Initial(file), run);
    if AllDrainsStop(s) {
      var more := RunToEnd(file, run);
      assert IsRun(s, more) && After(s, more).main.Gone?;
    }
    forall more, id | IsRun(s, more) && After(s, more).main.Gone? && 0 <= id < |s.conns| && s.conns[id].ended
      ensures DrainStops(s.conns[id].received)
    {
      OnlyIfDrainStops(file, run, more, id);
    }
  }

  lemma {:induction false} RunToEnd(file: seq<byte>, run: seq<Action>) returns (more: seq<Action>)
    requires IsRun(Initial(file), run) && AllDrainsStop(After(Initial(file), run))
    ensures IsRun(After(Initial(file), run), more) && After(After(Initial(file), run), more).main.Gone?
  {
    var s := After(Initial(file), run);
    if s.main.Gone? {
      more := [];
    } else {
      RunKeepsFileInv(file, run);
      RunKeepsLife(file, run);
      StepKeepsFileInv(file, s, Terminate);
      StepKeepsLife(s, Terminate);
      var rest := CanEnd(file, Next(s, Terminate));
      StepThenRun(s, Terminate, rest);
      more := [Terminate] + rest;
    }
  }

  // ---------------------------------------------------------------- the listen thread once it is told

  function ListenerSteps(run: seq<Action>): nat {
    if run == [] then 0
    else ListenerSteps(run[..|run| - 1]) + if run[|run| - 1].ByListener? then 1 else 0
  }

  /** Connections that there are and that are about to be. */
  function ConnsAndNext(s: State): nat {
    |s.conns| + if s.listener.Create? then 1 else 0
  }

  lemma {:induction false} ListenerAfterStop(s: State, a: Action)
    requires !s.flags.run && Enabled(s, a)
    ensures ConnsAndNext(Next(s, a)) <= ConnsAndNext(s) && |Next(s, a).conns| >= |s.conns|
    ensures ListenerRank(Next(s, a).listener) + (if a.ByListener? then 1 else 0) <= ListenerRank(s.listener)
    ensures a != ByListener(true) ==>
              ListenerRank(Next(s, a).listener) + (if a.ByListener? then 1 else 0) == ListenerRank(s.listener)
  {
    match a
    case ByListener(ok) =>
      ListenerNearer(s, ok);
      assert Next(s, a) == ListenerStep(s, ok);
    case ByClient(id, move) => ClientConns(s, id, move);
    case _ => assert Next(s, a).conns == s.conns && Next(s, a).listener == s.listener;
  }

  /** Once the server has been told to stop, whatever `listen` and `accept` return, the listen thread
      makes at most four more steps, as many as its rank if they fail: it goes through the tests that
      are left one by one; and no connection gets a thread but one whose thread is just about
      to be created. */
  lemma {:induction false} ListenerStopsSoon(s: State, run: seq<Action>)
    requires !s.flags.run && IsRun(s, run)
    ensures ListenerSteps(run) + ListenerRank(After(s, run).listener) <= ListenerRank(s.listener) <= 4
    ensures ByListener(true) !in run ==>
              ListenerSteps(run) + ListenerRank(After(s, run).listener) == ListenerRank(s.listener)
    ensures |After(s, run).conns| <= |s.conns| + if s.listener.Create? then 1 else 0
    ensures !After(s, run).flags.run && ConnsAndNext(After(s, run)) <= ConnsAndNext(s)
    decreases |run|
  {
    if run != [] {
      var before, last := run[..|run| - 1], run[|run| - 1];
      ListenerStopsSoon(s, before);
      ListenerAfterStop(After(s, before), last);
      SplitLast(run);
      FlagStep(After(s, before), last);
    }
  }
}
