/** Nothing is lost and no echo is cut short but by the failures that occur in the run. */
module Accounting {
  import opened Bytes
  import opened WriteLoop
  import opened AtomicSpec
  import opened Protocol
  import opened Sections

  // ---------------------------------------------------------------- failures that occur

  /** The `write_all` of a packet or of its newline has just given up. */
  predicate DiskGaveUp(pc: Pc) {
    pc.Inside? && (pc.phase.Body? || pc.phase.Newline?) && GaveUp(pc.phase.w)
  }

  /** The `write_all` of a piece of the echo has just given up. */
  predicate SendGaveUp(pc: Pc) {
    pc.Inside? && pc.phase.Send? && GaveUp(pc.phase.w)
  }

  /** The step is a `read` of the file by this thread, and it fails. */
  predicate IsFailedRead(s: State, a: Action, id: nat) {
    && a.ByClient? && a.id == id && a.move.Io? && a.move.result < 0
    && ConnAt(s, id).pc.Inside? && ConnAt(s, id).pc.phase.Read?
  }

  /** In no state of the run has a disk write of this thread given up. */
  predicate DiskTakesAll(s: State, run: seq<Action>, id: nat)
    requires IsRun(s, run)
    decreases |run|
  {
    !DiskGaveUp(ConnAt(After(s, run), id).pc) && (run != [] ==> DiskTakesAll(s, run[..|run| - 1], id))
  }

  /** In the run no `read` of this thread fails and no write to its socket gives up. */
  predicate EchoesGoThrough(s: State, run: seq<Action>, id: nat)
    requires IsRun(s, run)
    decreases |run|
  {
    && !SendGaveUp(ConnAt(After(s, run), id).pc)
    && (run != [] ==>
          var before, last := run[..|run| - 1], run[|run| - 1];
          EchoesGoThrough(s, before, id) && !IsFailedRead(After(s, before), last, id))
  }

  /** No write of a timestamp fails. */
  predicate PrintsGoThrough(run: seq<Action>) {
    ByClock(PrintFails) !in run
  }

  // ---------------------------------------------------------------- failures that show

  /** No failure of the disk shows in the operations of this thread, finished or not. */
  predicate DiskTookAll(s: State, id: nat) {
    var pc := ConnAt(s, id).pc;
    NothingLost(Of(s.disk.log, Client(id))) && !DiskGaveUp(pc) && !(pc.Inside? && pc.lost)
  }

  predicate EchoesWentThrough(s: State, id: nat) {
    var pc := ConnAt(s, id).pc;
    NothingCut(Of(s.disk.log, Client(id))) && !SendGaveUp(pc) && !(pc.Inside? && pc.cut)
  }

  predicate PrintsWentThrough(s: State) {
    NothingLost(Of(s.disk.log, Clock)) && !(s.clock.pc.Printing? && s.clock.pc.failed)
  }

  lemma {:induction false} CommitShows(ops: seq<Op>, op: Op, actor: Actor)
    ensures NothingLost(Of(ops + [op], actor)) <==> NothingLost(Of(ops, actor)) && (op.actor == actor ==> !op.lost)
    ensures NothingCut(Of(ops + [op], actor)) <==> NothingCut(Of(ops, actor)) && (op.actor == actor ==> !op.cut)
  {
    OfSnoc(ops, op, actor);
  }

  /** Steps after which the log holds nothing new of this thread, which has not moved. */
  lemma {:induction false} OtherStepShows(s: State, a: Action, id: nat)
    requires Enabled(s, a) && !(a.ByClient? && a.id == id)
    ensures Of(Next(s, a).disk.log, Client(id)) == Of(s.disk.log, Client(id))
    ensures ConnAt(Next(s, a), id) == ConnAt(s, id)
  {
    match a
    case ByClient(other, move) =>
      ClientLog(s, other, move);
      ConnUpdated(s, other, move);
      if s.conns[other].pc.Inside? {
        OfSnoc(s.disk.log, ReleaseOp(other, s.conns[other].pc), Client(id));
      }
    case ByClock(tick) =>
      ClockLeavesConns(s, tick);
      if s.clock.pc.Printing? {
        var pc := s.clock.pc;
        OfSnoc(s.disk.log, Op(Clock, pc.text, pc.wrote, pc.failed, [], false), Client(id));
      }
    case _ => OthersLeaveConns(s, a);
  }

  /** A failure of the disk shows from the step in which it occurs, and nothing else does. */
  lemma {:induction false} DiskFailureShows(s: State, a: Action, id: nat)
    requires Enabled(s, a)
    ensures DiskTookAll(Next(s, a), id) <==> DiskTookAll(s, id) && !DiskGaveUp(ConnAt(Next(s, a), id).pc)
  {
    if a.ByClient? && a.id == id {
      ConnUpdated(s, id, a.move);
      if s.conns[id].pc.Inside? && s.conns[id].pc.phase.Release? {
        CommitShows(s.disk.log, ReleaseOp(id, s.conns[id].pc), Client(id));
      }
    } else {
      OtherStepShows(s, a, id);
    }
  }

  lemma {:induction false} EchoFailureShows(s: State, a: Action, id: nat)
    requires Enabled(s, a)
    ensures EchoesWentThrough(Next(s, a), id) <==>
            EchoesWentThrough(s, id) && !SendGaveUp(ConnAt(Next(s, a), id).pc) && !IsFailedRead(s, a, id)
  {
    if a.ByClient? && a.id == id {
      ConnUpdated(s, id, a.move);
      if s.conns[id].pc.Inside? && s.conns[id].pc.phase.Release? {
        CommitShows(s.disk.log, ReleaseOp(id, s.conns[id].pc), Client(id));
      }
    } else {
      OtherStepShows(s, a, id);
    }
  }

  lemma {:induction false} ClientsDoNotPrint(s: State, id: nat, move: Move)
    requires Enabled(s, ByClient(id, move))
    ensures Of(Next(s, ByClient(id, move)).disk.log, Clock) == Of(s.disk.log, Clock)
    ensures Next(s, ByClient(id, move)).clock == s.clock
  {
    ClientLog(s, id, move);
    ConnUpdated(s, id, move);
    if s.conns[id].pc.Inside? {
      OfSnoc(s.disk.log, ReleaseOp(id, s.conns[id].pc), Clock);
    }
  }

  lemma {:induction false} ClockPrints(s: State, tick: ClockMove)
    requires Enabled(s, ByClock(tick))
    ensures PrintsWentThrough(Next(s, ByClock(tick))) <==> PrintsWentThrough(s) && tick != PrintFails
  {
    var pc := s.clock.pc;
    if tick.Unlock? && pc.Printing? {
      CommitShows(s.disk.log, Op(Clock, pc.text, pc.wrote, pc.failed, [], false), Clock);
    }
  }

  lemma {:induction false} PrintFailureShows(s: State, a: Action)
    requires Enabled(s, a)
    ensures PrintsWentThrough(Next(s, a)) <==> PrintsWentThrough(s) && a != ByClock(PrintFails)
  {
    match a
    case ByClient(id, move) => ClientsDoNotPrint(s, id, move);
    case ByClock(tick) => ClockPrints(s, tick);
    case _ => OthersLeaveConns(s, a);
  }

  // ---------------------------------------------------------------- over whole runs

  /** No record of a client is or will be incomplete exactly if no disk write of its thread has given
      up in the run. */
  lemma {:induction false} LossesAreDiskFailures(file: seq<byte>, run: seq<Action>, id: nat)
    requires IsRun(Initial(file), run)
    ensures DiskTakesAll(Initial(file), run, id) <==> DiskTookAll(After(Initial(file), run), id)
    decreases |run|
  {
    if run == [] {
      assert Of([], Client(id)) == [];
    } else {
      var before, last := run[..|run| - 1], run[|run| - 1];
      LossesAreDiskFailures(file, before, id);
      DiskFailureShows(After(Initial(file), before), last, id);
    }
  }

  /** No echo to a client is or will be cut short exactly if in the run no read of its thread failed
      and no write to its socket gave up. */
  lemma {:induction false} CutsAreEchoFailures(file: seq<byte>, run: seq<Action>, id: nat)
    requires IsRun(Initial(file), run)
    ensures EchoesGoThrough(Initial(file), run, id) <==> EchoesWentThrough(After(Initial(file), run), id)
    decreases |run|
  {
    if run == [] {
      assert Of([], Client(id)) == [];
    } else {
      var before, last := run[..|run| - 1], run[|run| - 1];
      CutsAreEchoFailures(file, before, id);
      EchoFailureShows(After(Initial(file), before), last, id);
    }
  }

  /** No timestamp is or will be incomplete exactly if no write of one has failed in the run. */
  lemma {:induction false} LossesArePrintFailures(file: seq<byte>, run: seq<Action>)
    requires IsRun(Initial(file), run)
    ensures PrintsGoThrough(run) <==> PrintsWentThrough(After(Initial(file), run))
    decreases |run|
  {
    if run == [] {
      assert Of([], Clock) == [];
    } else {
      var before, last := run[..|run| - 1], run[|run| - 1];
      LossesArePrintFailures(file, before);
      PrintFailureShows(After(Initial(file), before), last);
      SplitLast(run);
    }
  }
}
