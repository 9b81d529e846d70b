/** Threads, flags and teardown over whole runs. */
module Lifecycle {
  import Bytes
  import opened AtomicSpec
  import opened Protocol
  import opened Sections

  // ---------------------------------------------------------------- every thread is joined

  /** Head insertion lists threads newest first. */
  function Descending(n: nat): (d: seq<nat>)
    ensures |d| == n
  {
    if n == 0 then [] else [n - 1] + Descending(n - 1)
  }

  lemma {:induction false} DescendingAt(n: nat, k: nat)
    requires k < n
    ensures Descending(n)[k] == n - 1 - k
  {
    if k > 0 {
      DescendingAt(n - 1, k - 1);
    }
  }

  /** Every thread number below `n` is there exactly once, and nothing else is. */
  lemma {:induction false} DescendingOnce(n: nat, k: nat)
    ensures multiset(Descending(n))[k] == if k < n then 1 else 0
  {
    if n > 0 {
      var m := n - 1;
      DescendingOnce(m, k);
      assert multiset([m] + Descending(m)) == multiset{m} + multiset(Descending(m));
    }
  }

  /** How many of the connection threads created have been put on the list. */
  function Listed(s: State): nat {
    if s.listener.Insert? then s.listener.id else |s.conns|
  }

  function Rank(main: MainPc): nat {
    match main
    case WaitForRun => 0
    case JoinListen => 1
    case JoinClock => 2
    case ClearRun => 3
    case JoinNext => 4
    case CloseDisk => 5
    case FreeFlags => 6
    case RemoveFile => 7
    case Gone => 8
  }

  predicate ExitedAt(s: State, id: nat) {
    id < |s.conns| && s.conns[id].pc.Exited?
  }

  predicate ListInv(s: State) {
    && (s.listener.Insert? ==> s.listener.id + 1 == |s.conns|)
    && s.joined + s.list == Descending(Listed(s))
    && (forall id | id in s.joined :: ExitedAt(s, id))
  }

  predicate MainInv(s: State) {
    && (Rank(s.main) >= 1 ==> !s.flags.run)
    && (Rank(s.main) >= 2 ==> s.listener.Closed?)
    && (Rank(s.main) >= 3 ==> s.clock.pc.Stopped?)
    && (Rank(s.main) < 4 ==> s.joined == [])
    && (Rank(s.main) > 4 ==> s.list == [])
    && (s.diskOpen <==> Rank(s.main) < 6)
    && (s.flagsLive <==> Rank(s.main) < 7)
    && (s.fileThere <==> Rank(s.main) < 8)
  }

  /** A connection is only handed to a thread when there is one, and the listen thread and the
      timestamp thread only end when they are told to; this rests on the run flag never being set
      again. */
  predicate AcceptInv(s: State) {
    (s.listener == Confirm(false) || s.listener.Closed? || s.clock.pc.Stopped?) ==> !s.flags.run
  }

  predicate LifeInv(s: State) {
    ListInv(s) && MainInv(s) && AcceptInv(s)
  }

  lemma {:induction false} ClientKeepsLife(s: State, id: nat, move: Move)
    requires LifeInv(s) && Enabled(s, ByClient(id, move))
    ensures LifeInv(Next(s, ByClient(id, move)))
  {
    var t := Next(s, ByClient(id, move));
    assert !s.conns[id].pc.Exited?;
    forall k | k in t.joined ensures ExitedAt(t, k) {
      assert ExitedAt(s, k);
    }
  }

  lemma {:induction false} ListenerKeepsLife(s: State, ok: bool)
    requires LifeInv(s) && Enabled(s, ByListener(ok))
    ensures LifeInv(Next(s, ByListener(ok)))
  {
    var t := ListenerStep(s, ok);
    assert s.joined == [];
    if s.listener.Insert? {
      assert t.joined + t.list == [s.listener.id] + (s.joined + s.list);
    }
  }

  lemma {:induction false} MainKeepsLife(s: State)
    requires LifeInv(s) && MainEnabled(s)
    ensures LifeInv(MainNext(s))
  {
    var t := MainNext(s);
    if s.main.JoinNext? && s.list != [] {
      assert t.joined + t.list == s.joined + s.list;
      forall id | id in t.joined ensures ExitedAt(t, id) {
        assert id in s.joined || id == s.list[0];
        if id in s.joined { assert ExitedAt(s, id); }
      }
    } else {
      forall id | id in t.joined ensures ExitedAt(t, id) {
        assert ExitedAt(s, id);
      }
    }
  }

  lemma {:induction false} OthersKeepLife(s: State, a: Action)
    requires LifeInv(s) && Enabled(s, a) && (a.ByClock? || a.Terminate? || a.Alarm?)
    ensures LifeInv(Next(s, a))
  {
    var t := Next(s, a);
    assert t.conns == s.conns && t.joined == s.joined && t.list == s.list && t.listener == s.listener;
    forall id | id in t.joined ensures ExitedAt(t, id) {
      assert ExitedAt(s, id);
    }
  }

  lemma {:induction false} StepKeepsLife(s: State, a: Action)
    requires LifeInv(s) && Enabled(s, a)
    ensures LifeInv(Next(s, a))
  {
    match a
    case ByClient(id, move) => ClientKeepsLife(s, id, move);
    case ByListener(ok) => ListenerKeepsLife(s, ok);
    case ByMain => MainKeepsLife(s);
    case _ => OthersKeepLife(s, a);
  }

  lemma {:induction false} RunKeepsLife(file: seq<Bytes.byte>, run: seq<Action>)
    requires IsRun(Initial(file), run)
    ensures LifeInv(After(Initial(file), run))
    decreases |run|
  {
    if run != [] {
      RunKeepsLife(file, run[..|run| - 1]);
      StepKeepsLife(After(Initial(file), run[..|run| - 1]), run[|run| - 1]);
    }
  }

  predicate TornDown(s: State) {
    !s.diskOpen || !s.flagsLive || !s.fileThere
  }

  /** Safe teardown. Once the file is closed, the flags are freed or the file is removed, the listen
      thread and the timestamp thread have ended, and every connection thread ever created has
      ended and been joined, each exactly once, newest first. */
  lemma {:induction false} TeardownIsSafe(file: seq<Bytes.byte>, run: seq<Action>)
    requires IsRun(Initial(file), run) && TornDown(After(Initial(file), run))
    ensures var s := After(Initial(file), run);
            && s.listener.Closed? && s.clock.pc.Stopped?
            && (forall id | 0 <= id < |s.conns| :: s.conns[id].pc.Exited?)
            && s.joined == Descending(|s.conns|)
  {
    RunKeepsLife(file, run);
    var s := After(Initial(file), run);
    assert s.joined + s.list == s.joined;
    forall id | 0 <= id < |s.conns| ensures s.conns[id].pc.Exited? {
      DescendingAt(|s.conns|, |s.conns| - 1 - id);
      assert s.joined[|s.conns| - 1 - id] == id;
      assert ExitedAt(s, id);
    }
  }

  /** From then on only the main thread and signals make steps: no thread can touch what is gone. */
  lemma {:induction false} NoThreadAfterTeardown(file: seq<Bytes.byte>, run: seq<Action>, a: Action)
    requires IsRun(Initial(file), run) && TornDown(After(Initial(file), run))
    requires Enabled(After(Initial(file), run), a)
    ensures a.ByMain? || a.Terminate? || a.Alarm?
  {
    TeardownIsSafe(file, run);
  }

  lemma {:induction false} ListenerLeavesFlags(s: State, ok: bool, flags: Flags)
    requires Enabled(s, ByListener(ok)) && !TouchesFlags(s, ByListener(ok))
    ensures ListenerStep(s.(flags := flags), ok) == ListenerStep(s, ok).(flags := flags)
  {
    var n := |s.conns|;
    var next := ListenNext(s.flags.run, s.listener, ok, n);
    assert ListenNext(flags.run, s.listener, ok, n) == next;
    if s.listener.Create? {
      assert ListenerStep(s, ok) == s.(listener := next, conns := s.conns + [NEW_CONN]);
    } else if s.listener.Insert? {
      assert ListenerStep(s, ok) == s.(listener := next, list := [s.listener.id] + s.list);
    } else {
      assert ListenerStep(s, ok) == s.(listener := next);
    }
  }

  lemma {:induction false} ClockLeavesFlags(s: State, tick: ClockMove, flags: Flags)
    requires Enabled(s, ByClock(tick)) && !TouchesFlags(s, ByClock(tick))
    ensures Next(s.(flags := flags), ByClock(tick)) == Next(s, ByClock(tick)).(flags := flags)
  {
  }

  lemma {:induction false} ClientLeavesFlags(s: State, id: nat, move: Move, flags: Flags)
    requires Enabled(s, ByClient(id, move))
    ensures Next(s.(flags := flags), ByClient(id, move)) == Next(s, ByClient(id, move)).(flags := flags)
  {
  }

  /** Other steps neither read the flags nor change them. */
  lemma {:induction false} FlagsUntouched(s: State, a: Action, flags: Flags)
    requires Enabled(s, a) && !TouchesFlags(s, a)
    ensures Enabled(s.(flags := flags), a)
    ensures Next(s.(flags := flags), a) == Next(s, a).(flags := flags)
  {
    match a
    case ByListener(ok) => ListenerLeavesFlags(s, ok, flags);
    case ByClock(tick) => ClockLeavesFlags(s, tick, flags);
    case ByClient(id, move) => ClientLeavesFlags(s, id, move, flags);
    case ByMain => assert MainNext(s.(flags := flags)) == MainNext(s).(flags := flags);
  }

  /** Once the flags have been freed, signal handlers are all that still touches them; nothing keeps
      a signal from being delivered then, up to the end of the process. */
  lemma {:induction false} OnlySignalsTouchFreedFlags(file: seq<Bytes.byte>, run: seq<Action>, a: Action)
    requires IsRun(Initial(file), run) && !After(Initial(file), run).flagsLive
    requires !After(Initial(file), run).main.Gone?
    ensures Enabled(After(Initial(file), run), a) && TouchesFlags(After(Initial(file), run), a)
            <==> a.Terminate? || a.Alarm?
  {
    RunKeepsLife(file, run);
    if Enabled(After(Initial(file), run), a) {
      NoThreadAfterTeardown(file, run, a);
    }
  }

  /** Once the listen thread has been joined, the list and the threads joined so far are all the
      connection threads there will ever be. */
  lemma {:induction false} ListIsComplete(file: seq<Bytes.byte>, run: seq<Action>, a: Action)
    requires IsRun(Initial(file), run) && Rank(After(Initial(file), run).main) >= 2
    requires Enabled(After(Initial(file), run), a)
    ensures var s := After(Initial(file), run);
            && s.joined + s.list == Descending(|s.conns|)
            && |Next(s, a).conns| == |s.conns|
  {
    RunKeepsLife(file, run);
  }

  /** A thread is only created for a connection that was accepted, and the run flag, once cleared,
      stays clear. */
  lemma {:induction false} NoThreadWithoutConnection(file: seq<Bytes.byte>, run: seq<Action>, ok: bool)
    requires IsRun(Initial(file), run) && Enabled(After(Initial(file), run), ByListener(ok))
    ensures var s := After(Initial(file), run);
            Next(s, ByListener(ok)).listener.Create? ==> s.listener == Confirm(true)
  {
    RunKeepsLife(file, run);
  }

  /** The listen thread and the timestamp thread end only when the server has been told to stop: a
      connection that is not there yet, or a call that fails, does not end them. */
  lemma {:induction false} ThreadsEndOnlyWhenTold(file: seq<Bytes.byte>, run: seq<Action>)
    requires IsRun(Initial(file), run)
    ensures var s := After(Initial(file), run);
            s.listener.Closed? || s.clock.pc.Stopped? ==> !s.flags.run
  {
    RunKeepsLife(file, run);
  }

  lemma {:induction false} RunFlagStaysClear(s: State, run: seq<Action>)
    requires IsRun(s, run) && !s.flags.run
    ensures !After(s, run).flags.run
    decreases |run|
  {
    if run != [] {
      RunFlagStaysClear(s, run[..|run| - 1]);
      FlagStep(After(s, run[..|run| - 1]), run[|run| - 1]);
    }
  }

  /** SIGINT, SIGTERM and the shutdown clear the run flag, and nothing sets it; SIGALRM sets the
      timestamp flag, and only the timestamp thread clears it, after a record. */
  lemma {:induction false} FlagStep(s: State, a: Action)
    requires Enabled(s, a)
    ensures Next(s, a).flags.run <==> s.flags.run && !a.Terminate? && !(a.ByMain? && s.main.ClearRun?)
    ensures Next(s, a).flags.due <==> a.Alarm? || (s.flags.due && !(a.ByClock? && s.clock.pc.ClearDue?))
    ensures Next(s, a).flags.alarms == s.flags.alarms + if a.Alarm? then 1 else 0
    ensures Next(s, a).clock == s.clock || a.ByClock?
  {
    if a.ByListener? {
      assert Next(s, a) == ListenerStep(s, a.ok);
    }
  }

  // ---------------------------------------------------------------- timestamps

  function Num(b: bool): nat {
    if b then 1 else 0
  }

  /** An alarm pays for each record begun, and for the one that the flag announces, except for one
      that the thread begins because the server is stopping. */
  predicate ClockInv(s: State) {
    var clock, flags := s.clock, s.flags;
    && (clock.late ==> !flags.run)
    && match clock.pc
       case CheckRun => clock.started + Num(flags.due) <= flags.alarms + Num(clock.late)
       case InnerRun => !clock.late && clock.started + Num(flags.due) <= flags.alarms
       case InnerDue => !clock.late && clock.started + Num(flags.due) <= flags.alarms
       case Locking =>
         if clock.late then clock.started + Num(flags.due) <= flags.alarms else clock.started + 1 <= flags.alarms
       case _ => clock.started <= flags.alarms + Num(clock.late)
  }

  lemma {:induction false} StepKeepsClockInv(s: State, a: Action)
    requires ClockInv(s) && Enabled(s, a)
    ensures ClockInv(Next(s, a))
  {
    FlagStep(s, a);
  }

  lemma {:induction false} RunKeepsClockInv(file: seq<Bytes.byte>, run: seq<Action>)
    requires IsRun(Initial(file), run)
    ensures ClockInv(After(Initial(file), run))
    decreases |run|
  {
    if run != [] {
      RunKeepsClockInv(file, run[..|run| - 1]);
      StepKeepsClockInv(After(Initial(file), run[..|run| - 1]), run[|run| - 1]);
    }
  }

  /** The records begun are those committed and the one being printed. */
  predicate CountInv(s: State) {
    s.clock.started == |Of(s.disk.log, Clock)| + Num(s.clock.pc.Printing?)
  }

  lemma {:induction false} StepKeepsCount(s: State, a: Action)
    requires CountInv(s) && Enabled(s, a)
    ensures CountInv(Next(s, a))
  {
    var t := Next(s, a);
    match a
    case ByClient(id, move) =>
      ClientLog(s, id, move);
      if t.disk.log != s.disk.log {
        OfSnoc(s.disk.log, ReleaseOp(id, s.conns[id].pc), Clock);
      }
    case ByClock(tick) =>
      if t.disk.log != s.disk.log {
        var pc := s.clock.pc;
        OfSnoc(s.disk.log, Op(Clock, pc.text, pc.wrote, pc.failed, [], false), Clock);
      }
    case _ => OthersLeaveConns(s, a);
  }

  lemma {:induction false} RunKeepsCount(file: seq<Bytes.byte>, run: seq<Action>)
    requires IsRun(Initial(file), run)
    ensures CountInv(After(Initial(file), run))
    decreases |run|
  {
    if run != [] {
      RunKeepsCount(file, run[..|run| - 1]);
      StepKeepsCount(After(Initial(file), run[..|run| - 1]), run[|run| - 1]);
    }
  }

  /** Timestamp accounting. At most one more timestamp is in the file than SIGALRMs have been
      delivered, and one more only after the run flag has been cleared. */
  lemma {:induction false} TimestampsArePaidFor(file: seq<Bytes.byte>, run: seq<Action>)
    requires IsRun(Initial(file), run)
    ensures var s := After(Initial(file), run);
            var stamps := |Of(s.disk.log, Clock)| + Num(s.clock.pc.Printing?);
            && stamps <= s.flags.alarms + 1
            && (stamps > s.flags.alarms ==> !s.flags.run)
  {
    RunKeepsClockInv(file, run);
    RunKeepsCount(file, run);
  }

  /** The timestamp thread passes its first test of the run flag, the server is told to stop, and the
      second test fails. */
  lemma {:induction false} StopBetweenTests(file: seq<Bytes.byte>) returns (run: seq<Action>)
    ensures IsRun(Initial(file), run)
    ensures After(Initial(file), run)
         == Initial(file).(flags := Flags(false, false, 0), clock := ClockThread(Locking, true, 0))
  {
    var s := Initial(file);
    assert After(s, []) == s;
    AfterSnoc(s, [], ByClock(Advance));
    run := [] + [ByClock(Advance)];
    AfterSnoc(s, run, Terminate);
    run := run + [Terminate];
    AfterSnoc(s, run, ByClock(Advance));
    run := run + [ByClock(Advance)];
  }

  predicate ClockOnly(run: seq<Action>) {
    forall a | a in run :: a.ByClock?
  }

  /** The server after the timestamp thread has appended the first `n` bytes of a record. */
  function Stamped(s: State, text: seq<Bytes.byte>, n: nat): State
    requires n <= |FullRecord(text)|
  {
    var wrote := FullRecord(text)[..n];
    var offset := if n == 0 then s.disk.offset else |s.disk.file + wrote|;
    var op := Op(Clock, text, wrote, n < |FullRecord(text)|, [], false);
    s.(disk := Disk(s.disk.file + wrote, offset, Free, s.disk.log + [op]),
       clock := ClockThread(ClearDue, s.clock.late, s.clock.started + 1))
  }

  /** The server while the timestamp thread has written the first `n` bytes of a record. */
  function HasPrinted(s: State, text: seq<Bytes.byte>, n: nat, failed: bool): State
    requires n <= |FullRecord(text)|
  {
    var full := FullRecord(text);
    var offset := if n == 0 then s.disk.offset else |s.disk.file + full[..n]|;
    s.(disk := s.disk.(file := s.disk.file + full[..n], offset := offset, mutex := HeldBy(Clock)),
       clock := ClockThread(Printing(text, full[n..], full[..n], failed), s.clock.late, s.clock.started + 1))
  }

  lemma {:induction false} CanPrint(s: State, text: seq<Bytes.byte>, n: nat) returns (run: seq<Action>)
    requires s.clock.pc.Locking? && s.disk.mutex.Free? && n <= |FullRecord(text)|
    ensures IsRun(s, run) && After(s, run) == HasPrinted(s, text, n, false) && ClockOnly(run)
  {
    var full := FullRecord(text);
    run := [ByClock(Begin(text))];
    OneStep(s, ByClock(Begin(text)));
    assert full[..0] == [] && full[0..] == full && [] + full[..n] == full[..n] && s.disk.file + [] == s.disk.file;
    if n > 0 {
      AfterSnoc(s, run, ByClock(Print(n)));
      run := run + [ByClock(Print(n))];
    }
  }

  /** About to take the mutex, the timestamp thread can go on to append a whole record, or any part of
      it when a write fails. */
  lemma {:induction false} CanStamp(s: State, text: seq<Bytes.byte>, n: nat) returns (run: seq<Action>)
    requires s.clock.pc.Locking? && s.disk.mutex.Free? && n <= |FullRecord(text)|
    ensures IsRun(s, run) && After(s, run) == Stamped(s, text, n) && ClockOnly(run)
  {
    run := CanPrint(s, text, n);
    if n < |FullRecord(text)| {
      AfterSnoc(s, run, ByClock(PrintFails));
      run := run + [ByClock(PrintFails)];
    }
    assert After(s, run) == HasPrinted(s, text, n, n < |FullRecord(text)|);
    AfterSnoc(s, run, ByClock(Unlock));
    run := run + [ByClock(Unlock)];
  }

  /** The extra timestamp does happen, with any text and without any alarm. */
  lemma {:induction false} ExtraTimestampHappens(file: seq<Bytes.byte>, text: seq<Bytes.byte>)
    returns (run: seq<Action>)
    ensures IsRun(Initial(file), run)
    ensures var s := After(Initial(file), run);
            s.flags.alarms == 0 && |Of(s.disk.log, Clock)| == 1 && s.disk.file == file + FullRecord(text)
  {
    var start := StopBetweenTests(file);
    var s := After(Initial(file), start);
    var stamp := CanStamp(s, text, |FullRecord(text)|);
    RunsJoin(Initial(file), start, s, stamp);
    run := start + stamp;
    assert FullRecord(text)[..|FullRecord(text)|] == FullRecord(text);
    OfSnoc([], Op(Clock, text, FullRecord(text), false, [], false), Clock);
  }
}
