/** From the bytes that clients send to the bytes in the file. */
module EndToEnd {
  import opened Bytes
  import opened Splitting
  import opened Splitter
  import opened Stopping
  import opened Receiving
  import opened Handling
  import opened AtomicSpec
  import opened Protocol
  import opened Sections
  import opened Accounting
  import opened Lifecycle

  /** The packets that a finished connection thread has handled. */
  lemma {:induction false} PacketsOfExited(file: seq<byte>, run: seq<Action>, id: nat)
    requires IsRun(Initial(file), run) && ExitedAt(After(Initial(file), run), id)
    ensures var s := After(Initial(file), run);
            var conn := s.conns[id];
            if |conn.received| % CHUNK == 0 then Mine(s.disk, id) == []
            else
              && Stops(Final(conn.received), conn.taken)
              && Mine(s.disk, id) == Drain(Final(conn.received), conn.taken).packets
  {
    RunKeepsFileInv(file, run);
    var s := After(Initial(file), run);
    assert ConnInv(file, s.disk, id, ConnAt(s, id));
  }

  /** A finished connection thread has handled exactly the newline-terminated lines that it has
      received, in order and each once, if and only if they are what the server handles. */
  lemma {:induction false} HandlesExactlyTheLines(file: seq<byte>, run: seq<Action>, id: nat)
    requires IsRun(Initial(file), run) && ExitedAt(After(Initial(file), run), id)
    ensures var s := After(Initial(file), run);
            var received := s.conns[id].received;
            Mine(s.disk, id) == Lines(received) <==> HandledExactly(received)
  {
    PacketsOfExited(file, run, id);
    var s := After(Initial(file), run);
    var conn := s.conns[id];
    if |conn.received| % CHUNK != 0 {
      LinesOfFinal(conn.received);
      DrainOutcome(Final(conn.received), conn.taken);
    }
  }

  /** Whatever the client sends after the short read is never received: it has been handled all it
      sent if it sent no newline after that and the server handles what came before, and only if no
      newline came after that when the server does. */
  lemma {:induction false} HandlesEverythingSent(file: seq<byte>, run: seq<Action>, id: nat, unread: seq<byte>)
    requires IsRun(Initial(file), run) && ExitedAt(After(Initial(file), run), id)
    ensures var s := After(Initial(file), run);
            var received := s.conns[id].received;
            && (!HasNewline(unread) ==> (Mine(s.disk, id) == Lines(received + unread) <==> HandledExactly(received)))
            && (HandledExactly(received) ==> (Mine(s.disk, id) == Lines(received + unread) <==> !HasNewline(unread)))
  {
    HandlesExactlyTheLines(file, run, id);
    LinesOfAllSent(After(Initial(file), run).conns[id].received, unread);
  }

  /** In every reachable state a connection thread has cut off no more packets than its drain loop
      cuts off until it stops; with slack that is one for each line. */
  lemma {:induction false} TakenIsBounded(file: seq<byte>, run: seq<Action>, id: nat, n: nat)
    requires IsRun(Initial(file), run) && id < |After(Initial(file), run).conns|
    ensures var conn := After(Initial(file), run).conns[id];
            && (Stops(Final(conn.received), n) ==> conn.taken <= n)
            && (Slack(Lines(conn.received), |Final(conn.received)|) ==> conn.taken <= |Lines(conn.received)|)
  {
    RunKeepsFileInv(file, run);
    var s := After(Initial(file), run);
    var conn := s.conns[id];
    assert ConnInv(file, s.disk, id, ConnAt(s, id));
    LinesOfFinal(conn.received);
    if conn.ended {
      if Stops(Final(conn.received), n) {
        RoundsCut(Final(conn.received), conn.taken, n);
      }
      if Slack(Lines(conn.received), |Final(conn.received)|) {
        DrainWithSlack(Final(conn.received));
        RoundsCut(Final(conn.received), conn.taken, |Lines(conn.received)|);
      }
    }
  }

  /** A connection thread whose last `recv` was short and on whose buffer the drain loop does not stop
      never ends, and so the server never closes the file, frees the flags or removes the file. Two or
      more lines that are all too long are enough for that. */
  lemma {:induction false} EndlessThreadBlocksTeardown(file: seq<byte>, run: seq<Action>, id: nat)
    requires IsRun(Initial(file), run) && id < |After(Initial(file), run).conns|
    requires var received := After(Initial(file), run).conns[id].received;
             |received| % CHUNK != 0 && (!DrainStops(received) || TooLong(Lines(received), |Final(received)|))
    ensures !ExitedAt(After(Initial(file), run), id) && !TornDown(After(Initial(file), run))
  {
    var s := After(Initial(file), run);
    SomeDrainsNeverStop(s.conns[id].received);
    if ExitedAt(s, id) {
      PacketsOfExited(file, run, id);
    }
    if TornDown(s) {
      TeardownIsSafe(file, run);
    }
  }

  function Ended(lines: seq<seq<byte>>): (e: seq<seq<byte>>)
    ensures |e| == |lines| && forall k | 0 <= k < |lines| :: e[k] == lines[k] + [NEWLINE]
  {
    seq(|lines|, k requires 0 <= k < |lines| => lines[k] + [NEWLINE])
  }

  lemma {:induction false} LegalRunLoses(v: View, ops: seq<Op>, op: Op)
    requires LegalRun(v, ops) && op in ops
    ensures op.lost <==> op.record != FullRecord(op.packet)
    decreases |ops|
  {
    if op != ops[|ops| - 1] {
      assert ops == ops[..|ops| - 1] + [ops[|ops| - 1]];
      LegalRunLoses(v, ops[..|ops| - 1], op);
    }
  }

  /** The records of an actor from whom the disk took everything are its packets, each followed by
      a newline. */
  lemma {:induction false} RecordsAreFull(v: View, ops: seq<Op>, actor: Actor)
    requires LegalRun(v, ops) && NothingLost(Of(ops, actor))
    ensures Records(Of(ops, actor)) == Ended(Packets(Of(ops, actor)))
  {
    OfIsProjection(ops, actor);
    forall k | 0 <= k < |Of(ops, actor)|
      ensures Of(ops, actor)[k].record == FullRecord(Of(ops, actor)[k].packet)
    {
      LegalRunLoses(v, ops, Of(ops, actor)[k]);
    }
  }

  /** Only connections that exist and the timestamp thread appear in the log. */
  lemma {:induction false} ActorsExist(file: seq<byte>, s: State, k: nat)
    requires FileInv(file, s) && k < |s.disk.log| && s.disk.log[k].actor.Client?
    ensures s.disk.log[k].actor.id < |s.conns|
  {
    var id := s.disk.log[k].actor.id;
    OfIsProjection(s.disk.log, Client(id));
    assert s.disk.log[k] in Of(s.disk.log, Client(id));
    assert ConnInv(file, s.disk, id, ConnAt(s, id));
    assert |Mine(s.disk, id)| > 0;
  }

  /** End to end. When the server has closed the file, the file is what it was at the start
      followed by the records of the log, each in one piece; every record belongs to a connection
      or to the timestamp thread; those of a connection for which no disk write gave up are, in
      order and each once, the newline-terminated lines that it has received, exactly if these are
      what the server handles; and those of the timestamp thread are newline-terminated, if none of
      its writes failed. */
  lemma {:induction false} FileIsShuffleOfLines(file: seq<byte>, run: seq<Action>)
    requires IsRun(Initial(file), run) && !After(Initial(file), run).diskOpen
    ensures var s := After(Initial(file), run);
            && s.disk.file == file + Flatten(Records(s.disk.log))
            && forall k | 0 <= k < |s.disk.log| ::
                 s.disk.log[k].actor.Client? ==> s.disk.log[k].actor.id < |s.conns|
    ensures var s := After(Initial(file), run);
            forall id | 0 <= id < |s.conns| && DiskTakesAll(Initial(file), run, id) ::
              Records(Of(s.disk.log, Client(id))) == Ended(Lines(s.conns[id].received))
              <==> HandledExactly(s.conns[id].received)
    ensures var s := After(Initial(file), run);
            PrintsGoThrough(run) ==> Records(Of(s.disk.log, Clock)) == Ended(Packets(Of(s.disk.log, Clock)))
  {
    var s := After(Initial(file), run);
    RunKeepsFileInv(file, run);
    TeardownIsSafe(file, run);
    FileOfFinishedRun(file, s);
    forall k | 0 <= k < |s.disk.log| && s.disk.log[k].actor.Client?
      ensures s.disk.log[k].actor.id < |s.conns|
    {
      ActorsExist(file, s, k);
    }
    forall id | 0 <= id < |s.conns| && DiskTakesAll(Initial(file), run, id)
      ensures Records(Of(s.disk.log, Client(id))) == Ended(Lines(s.conns[id].received))
              <==> HandledExactly(s.conns[id].received)
    {
      RecordsOfClient(file, run, id);
    }
    if PrintsGoThrough(run) {
      LossesArePrintFailures(file, run);
      RecordsAreFull(View(file, map[]), s.disk.log, Clock);
    }
  }

  lemma {:induction false} NobodyInside(file: seq<byte>, s: State)
    requires MutexInv(file, s) && s.clock.pc.Stopped?
    requires forall id | 0 <= id < |s.conns| :: s.conns[id].pc.Exited?
    ensures s.disk.file == Committed(file, s.disk).file
  {
    match s.disk.mutex
    case Free =>
    case HeldBy(Client(id)) => assert false;
    case HeldBy(Clock) =>
  }

  lemma {:induction false} FileOfFinishedRun(file: seq<byte>, s: State)
    requires FileInv(file, s) && s.clock.pc.Stopped?
    requires forall id | 0 <= id < |s.conns| :: s.conns[id].pc.Exited?
    ensures s.disk.file == file + Flatten(Records(s.disk.log))
  {
    NobodyInside(file, s);
    FileIsRecords(View(file, map[]), s.disk.log);
  }

  lemma {:induction false} RecordsOfClient(file: seq<byte>, run: seq<Action>, id: nat)
    requires IsRun(Initial(file), run) && ExitedAt(After(Initial(file), run), id)
    requires DiskTakesAll(Initial(file), run, id)
    ensures var s := After(Initial(file), run);
            Records(Of(s.disk.log, Client(id))) == Ended(Lines(s.conns[id].received))
            <==> HandledExactly(s.conns[id].received)
  {
    var s := After(Initial(file), run);
    RunKeepsFileInv(file, run);
    LossesAreDiskFailures(file, run, id);
    RecordsAreFull(View(file, map[]), s.disk.log, Client(id));
    HandlesExactlyTheLines(file, run, id);
    EndedInjective(Mine(s.disk, id), Lines(s.conns[id].received));
  }

  lemma {:induction false} EndedInjective(a: seq<seq<byte>>, b: seq<seq<byte>>)
    ensures Ended(a) == Ended(b) <==> a == b
  {
    if Ended(a) == Ended(b) {
      forall k | 0 <= k < |a| ensures a[k] == b[k] {
        assert Ended(a)[k][..|a[k]|] == a[k] && Ended(b)[k][..|b[k]|] == b[k];
      }
    }
  }
}
