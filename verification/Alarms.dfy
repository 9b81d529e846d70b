/** SIGALRM, the timestamp flag, and the timestamps written on account of it. */
module Alarms {
  import opened Bytes
  import opened AtomicSpec
  import opened Protocol
  import opened Sections
  import opened Lifecycle

  // ---------------------------------------------------------------- the flag

  /** In the run the timestamp thread never clears the flag. */
  predicate NeverCleared(s: State, run: seq<Action>)
    requires IsRun(s, run)
    decreases |run|
  {
    run == [] ||
    (var before, last := run[..|run| - 1], run[|run| - 1];
     NeverCleared(s, before) && !(last.ByClock? && After(s, before).clock.pc.ClearDue?))
  }

  /** An alarm sets the flag, whatever else is going on, and it stays set until the timestamp thread
      clears it. */
  lemma {:induction false} AlarmStaysDue(s: State, run: seq<Action>)
    requires Enabled(s, Alarm) && IsRun(Next(s, Alarm), run) && NeverCleared(Next(s, Alarm), run)
    ensures After(Next(s, Alarm), run).flags.due
    decreases |run|
  {
    if run != [] {
      AlarmStaysDue(s, run[..|run| - 1]);
      FlagStep(After(Next(s, Alarm), run[..|run| - 1]), run[|run| - 1]);
    }
  }

  // ---------------------------------------------------------------- an alarm is answered

  /** The timestamp thread is in its waiting loop, or about to enter it. */
  predicate Waits(pc: ClockPc) {
    pc.CheckRun? || pc.InnerRun? || pc.InnerDue?
  }

  function StepsToLocking(pc: ClockPc): nat {
    match pc
    case CheckRun => 3
    case InnerRun => 2
    case InnerDue => 1
    case _ => 0
  }

  lemma {:induction false} ReachesLocking(s: State) returns (run: seq<Action>)
    requires s.flags.run && s.flags.due && (Waits(s.clock.pc) || s.clock.pc.Locking?)
    ensures IsRun(s, run) && ClockOnly(run)
    ensures After(s, run) == s.(clock := s.clock.(pc := Locking))
    decreases StepsToLocking(s.clock.pc)
  {
    if s.clock.pc.Locking? {
      run := [];
    } else {
      var a := ByClock(Advance);
      var rest := ReachesLocking(Next(s, a));
      StepThenRun(s, a, rest);
      run := [a] + rest;
    }
  }

  /** The flag is answered: from its waiting loop, with the flag set and the mutex free, the timestamp
      thread on its own appends one record, with any text, clears the flag and waits again. */
  lemma {:induction false} FlagIsAnswered(s: State, text: seq<byte>) returns (run: seq<Action>)
    requires s.flags.run && s.flags.due && s.disk.mutex.Free? && (Waits(s.clock.pc) || s.clock.pc.Locking?)
    ensures IsRun(s, run) && ClockOnly(run)
    ensures var t := After(s, run);
            && t.disk.file == s.disk.file + FullRecord(text)
            && t.disk.log == s.disk.log + [Op(Clock, text, FullRecord(text), false, [], false)]
            && t.disk.mutex.Free? && t.flags == s.flags.(due := false)
            && t.clock == ClockThread(CheckRun, s.clock.late, s.clock.started + 1) && t.conns == s.conns
  {
    var n := |FullRecord(text)|;
    assert FullRecord(text)[..n] == FullRecord(text);
    var t := s.(clock := s.clock.(pc := Locking));
    var waiting := ReachesLocking(s);
    var printing := CanStamp(t, text, n);
    RunsJoin(s, waiting, t, printing);
    AfterSnoc(s, waiting + printing, ByClock(Advance));
    run := waiting + printing + [ByClock(Advance)];
  }

  // ---------------------------------------------------------------- and nothing else is

  /** The timestamp thread is at a record, or about to clear the flag after it, or waits with the flag
      not set. */
  predicate NothingDue(s: State) {
    s.clock.pc.Printing? || s.clock.pc.ClearDue? || (Waits(s.clock.pc) && !s.flags.due)
  }

  lemma {:induction false} NothingDueStays(s: State, a: Action)
    requires NothingDue(s) && s.flags.run && Enabled(s, a) && !a.Alarm?
    ensures NothingDue(Next(s, a)) && Next(s, a).clock.started == s.clock.started
  {
    FlagStep(s, a);
  }

  /** Without an alarm, as long as the run flag is set, no record is begun. */
  lemma {:induction false} NoRecordWithoutAlarm(s: State, run: seq<Action>)
    requires NothingDue(s) && IsRun(s, run) && Alarm !in run && After(s, run).flags.run
    ensures NothingDue(After(s, run)) && After(s, run).clock.started == s.clock.started
    decreases |run|
  {
    if run != [] {
      var before, last := run[..|run| - 1], run[|run| - 1];
      FlagStep(After(s, before), last);
      NoRecordWithoutAlarm(s, before);
      NothingDueStays(After(s, before), last);
    }
  }

  /** The timestamp thread leaves the run flag alone. */
  lemma {:induction false} ClockLeavesRunFlag(s: State, run: seq<Action>)
    requires IsRun(s, run) && ClockOnly(run)
    ensures After(s, run).flags.run == s.flags.run && Alarm !in run
    decreases |run|
  {
    if run != [] {
      var before, last := run[..|run| - 1], run[|run| - 1];
      assert last in run;
      ClockLeavesRunFlag(s, before);
      FlagStep(After(s, before), last);
      SplitLast(run);
    }
  }

  /** On its own the timestamp thread can go on to begin another record. */
  ghost predicate CanRecord(s: State) {
    exists run :: IsRun(s, run) && ClockOnly(run) && After(s, run).clock.started > s.clock.started
  }

  /** In every reachable state in which the server runs and no connection thread holds the mutex, an
      alarm makes the timestamp thread begin another record if and only if that thread is neither at a
      record nor about to clear the flag after it: then the alarm is lost. */
  lemma {:induction false} AlarmIsAnswered(file: seq<byte>, run: seq<Action>)
    requires IsRun(Initial(file), run) && After(Initial(file), run).flags.run
    requires var mutex := After(Initial(file), run).disk.mutex; mutex.Free? || mutex == HeldBy(Clock)
    ensures var s := After(Initial(file), run);
            Enabled(s, Alarm) && (CanRecord(Next(s, Alarm)) <==> !s.clock.pc.Printing? && !s.clock.pc.ClearDue?)
  {
    var s := After(Initial(file), run);
    RunKeepsLife(file, run);
    RunKeepsFileInv(file, run);
    var t := Next(s, Alarm);
    if s.clock.pc.Printing? || s.clock.pc.ClearDue? {
      forall more | IsRun(t, more) && ClockOnly(more) ensures After(t, more).clock.started == t.clock.started {
        ClockLeavesRunFlag(t, more);
        NoRecordWithoutAlarm(t, more);
      }
    } else {
      var more := FlagIsAnswered(t, []);
    }
  }
}
