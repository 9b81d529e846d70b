/** Runs of the server from its start to its end. */
module WholeRuns {
  import opened Bytes
  import opened Splitting
  import opened Splitter
  import opened Receiving
  import opened Handling
  import opened Sessions
  import opened Protocol
  import opened Sections
  import opened SoloRuns
  import opened Lifecycle
  import opened EndToEnd
  import opened Shutdown

  // ---------------------------------------------------------------- what one client sends

  lemma {:induction false} FullChunks(bytes: seq<byte>) returns (pieces: seq<seq<byte>>)
    requires |bytes| % CHUNK == 0
    ensures FullPieces(pieces) && Flatten(pieces) == bytes
    decreases |bytes|
  {
    if bytes == [] {
      pieces := [];
    } else {
      var cut := |bytes| - CHUNK;
      var before := FullChunks(bytes[..cut]);
      pieces := before + [bytes[cut..]];
      FlattenSnoc(before, bytes[cut..]);
      TakeDrop(bytes, cut);
    }
  }

  /** Any bytes can arrive as full reads and then a short one, or the orderly shutdown. */
  lemma {:induction false} Chunks(bytes: seq<byte>) returns (pieces: seq<seq<byte>>, last: seq<byte>)
    ensures FullPieces(pieces) && |last| == |bytes| % CHUNK && Flatten(pieces + [last]) == bytes
  {
    var cut := |bytes| - |bytes| % CHUNK;
    pieces := FullChunks(bytes[..cut]);
    last := bytes[cut..];
    FlattenSnoc(pieces, last);
    TakeDrop(bytes, cut);
  }

  /** When the server handles these bytes, the loop stops after one round per line, with the lines. */
  lemma {:induction false} RoundsOfHandled(received: seq<byte>)
    requires HandledExactly(received) && |received| % CHUNK != 0
    ensures var n := |Lines(received)|;
            Stops(Final(received), n) && Drain(Final(received), n).packets == Lines(received)
  {
    LinesOfFinal(received);
    DrainWithSlack(Final(received));
    DrainOutcome(Final(received), |Lines(received)|);
  }

  const HEALTHY := Kernel(n => 1, n => 1, n => 1)

  /** What a healthy kernel makes of packets: each is in the file, followed by its newline. */
  lemma {:induction false} HealthyFile(session: Session, packets: seq<seq<byte>>)
    ensures HandleAll(HEALTHY, session, packets).file == session.file + Flatten(Ended(packets))
    decreases |packets|
  {
    if packets == [] {
      assert Flatten(Ended([])) == [] && session.file + [] == session.file;
    } else {
      var before, last := packets[..|packets| - 1], packets[|packets| - 1];
      HealthyFile(session, before);
      HealthyHandling(HEALTHY, session, before, last);
      SplitLast(packets);
      assert Ended(packets) == Ended(before) + [last + [NEWLINE]];
      FlattenSnoc(Ended(before), last + [NEWLINE]);
      var so := HandleAll(HEALTHY, session, before).file;
      Regroup(so, last, [NEWLINE]);
      Regroup(session.file, Flatten(Ended(before)), last + [NEWLINE]);
    }
  }

  // ---------------------------------------------------------------- one client after the other

  /** The server waits for connections, and has none that is not over. */
  predicate Serving(s: State) {
    && s.flags.run && s.listener.OuterCheck? && s.main.WaitForRun? && s.clock.pc.CheckRun? && s.disk.mutex.Free?
    && forall id | 0 <= id < |s.conns| :: s.conns[id].pc.Exited?
  }

  function AfterAccept(s: State): State {
    s.(conns := s.conns + [NEW_CONN], list := [|s.conns|] + s.list, listener := OuterCheck)
  }

  /** How many steps the listen thread is from creating a thread, if all goes well. */
  function StepsToCreate(pc: ListenPc): nat {
    match pc
    case OuterCheck => 6
    case ListenCheck => 5
    case ListenCall => 4
    case AcceptCheck => 3
    case AcceptCall => 2
    case Confirm(_) => 1
    case _ => 0
  }

  lemma {:induction false} ListenerGoesOn(s: State)
    requires s.flags.run && StepsToCreate(s.listener) > 0
    ensures var next := Next(s, ByListener(true)).listener;
            && Next(s, ByListener(true)) == s.(listener := next)
            && StepsToCreate(next) == StepsToCreate(s.listener) - 1
            && (next.Create? || StepsToCreate(next) > 0)
  {
    assert Next(s, ByListener(true)) == ListenerStep(s, true);
  }

  /** A `listen` or `accept` that fails with EAGAIN changes nothing but that the run flag is tested
      before the next try. */
  lemma {:induction false} RetryChangesNothing(s: State)
    requires s.flags.run && (s.listener.ListenCall? || s.listener.AcceptCall?)
    ensures var a := ByListener(false);
            && Enabled(s, a) && Enabled(Next(s, a), a) && Next(Next(s, a), a) == s
            && Next(s, a) == s.(listener := if s.listener.ListenCall? then ListenCheck else AcceptCheck)
  {
    assert Next(s, ByListener(false)) == ListenerStep(s, false);
  }

  /** So many of the calls still to come can fail before a thread is created. */
  predicate CanRefuse(pc: ListenPc, listens: nat, accepts: nat) {
    && (listens > 0 ==> StepsToCreate(pc) >= 4)
    && (accepts > 0 ==> StepsToCreate(pc) >= 2)
  }

  function Refused(run: seq<Action>): nat {
    multiset(run)[ByListener(false)]
  }

  /** The listen thread gets as far as creating a thread, however often `listen` and `accept` fail
      before. */
  lemma {:induction false} ReachesCreate(s: State, listens: nat, accepts: nat) returns (run: seq<Action>)
    requires s.flags.run && (s.listener.Create? || StepsToCreate(s.listener) > 0)
    requires CanRefuse(s.listener, listens, accepts)
    ensures IsRun(s, run) && After(s, run) == s.(listener := Create)
    ensures Refused(run) == listens + accepts
    decreases listens + accepts, StepsToCreate(s.listener)
  {
    if s.listener.Create? {
      run := [];
    } else if s.listener.ListenCall? && listens > 0 {
      run := RefusedOnce(s, listens - 1, accepts);
    } else if s.listener.AcceptCall? && accepts > 0 {
      run := RefusedOnce(s, listens, accepts - 1);
    } else {
      ListenerGoesOn(s);
      var rest := ReachesCreate(Next(s, ByListener(true)), listens, accepts);
      StepThenRun(s, ByListener(true), rest);
      run := [ByListener(true)] + rest;
    }
  }

  lemma {:induction false} RefusedOnce(s: State, listens: nat, accepts: nat) returns (run: seq<Action>)
    requires s.flags.run && (s.listener.ListenCall? || s.listener.AcceptCall?)
    requires CanRefuse(s.listener, listens, accepts)
    ensures IsRun(s, run) && After(s, run) == s.(listener := Create)
    ensures Refused(run) == listens + accepts + 1
    decreases listens + accepts, 7
  {
    var t := Next(s, ByListener(false));
    RetryChangesNothing(s);
    ListenerGoesOn(t);
    var rest := ReachesCreate(s, listens, accepts);
    StepThenRun(t, ByListener(true), rest);
    StepThenRun(s, ByListener(false), [ByListener(true)] + rest);
    run := [ByListener(false)] + ([ByListener(true)] + rest);
  }

  /** It accepts a connection, creates its thread and puts it on the list. */
  lemma {:induction false} AcceptIsARun(s: State, listens: nat, accepts: nat) returns (run: seq<Action>)
    requires s.flags.run && (s.listener.Create? || StepsToCreate(s.listener) > 0)
    requires CanRefuse(s.listener, listens, accepts)
    ensures IsRun(s, run) && After(s, run) == AfterAccept(s)
    ensures Refused(run) == listens + accepts
  {
    run := ReachesCreate(s, listens, accepts);
    AfterSnoc(s, run, ByListener(true));
    run := run + [ByListener(true)];
    assert After(s, run) == s.(listener := Insert(|s.conns|), conns := s.conns + [NEW_CONN]);
    AfterSnoc(s, run, ByListener(true));
    run := run + [ByListener(true)];
  }

  /** As long as the server has not been told to stop, from every reachable state the listen thread can
      get to a new connection and put it on the list, however often the calls still to come fail
      before; the file, the flags and all other connections stay as they are. */
  lemma {:induction false} AcceptsFromAnywhere(file: seq<byte>, run: seq<Action>, listens: nat, accepts: nat)
    returns (more: seq<Action>)
    requires IsRun(Initial(file), run) && After(Initial(file), run).flags.run
    requires var pc := After(Initial(file), run).listener;
             CanRefuse(if pc.Insert? then OuterCheck else pc, listens, accepts)
    ensures var s := After(Initial(file), run);
            && IsRun(s, more) && Refused(more) == listens + accepts
            && After(s, more) == AfterAccept(if s.listener.Insert? then Next(s, ByListener(true)) else s)
  {
    RunKeepsLife(file, run);
    var s := After(Initial(file), run);
    if s.listener.Insert? {
      var t := Next(s, ByListener(true));
      assert t == ListenerStep(s, true);
      var rest := AcceptIsARun(t, listens, accepts);
      StepThenRun(s, ByListener(true), rest);
      more := [ByListener(true)] + rest;
    } else {
      more := AcceptIsARun(s, listens, accepts);
    }
  }

  /** The connection handles exactly the lines it receives. */
  lemma {:induction false} HandledIsARun(s: State, id: nat, message: seq<byte>)
    returns (run: seq<Action>, d: Disk, c: Conn)
    requires id < |s.conns| && s.conns[id] == NEW_CONN && s.disk.mutex.Free? && HandledExactly(message)
    ensures IsRun(s, run) && After(s, run) == With(s, id, d, c)
    ensures c.pc.Exited? && d.mutex.Free? && c.received == message
    ensures d.file == s.disk.file + Flatten(Ended(Lines(message)))
  {
    var pieces, last := Chunks(message);
    var session := Session(s.disk.file, [], 0, 0, 0);
    if last != [] {
      RoundsOfHandled(message);
    }
    run, d, c := ConnectionIsARun(s, id, HEALTHY, session, pieces, last, |Lines(message)|);
    HealthyFile(session, Lines(message));
  }

  /** A whole connection, from being accepted to its end. */
  lemma {:induction false} ServesOne(s: State, message: seq<byte>) returns (run: seq<Action>, t: State)
    requires Serving(s) && HandledExactly(message)
    ensures IsRun(s, run) && After(s, run) == t && Serving(t)
    ensures |t.conns| == |s.conns| + 1 && t.conns[..|s.conns|] == s.conns
    ensures t.conns[|s.conns|].received == message
    ensures t.disk.file == s.disk.file + Flatten(Ended(Lines(message)))
  {
    var id := |s.conns|;
    var accept := AcceptIsARun(s, 0, 0);
    var handle, d, c := HandledIsARun(AfterAccept(s), id, message);
    RunsJoin(s, accept, AfterAccept(s), handle);
    run, t := accept + handle, With(AfterAccept(s), id, d, c);
    assert t.conns == s.conns + [c];
  }

  /** What these messages put into the file. */
  function Written(messages: seq<seq<byte>>): seq<byte> {
    if messages == [] then []
    else Written(messages[..|messages| - 1]) + Flatten(Ended(Lines(messages[|messages| - 1])))
  }

  /** These connections have received these messages, each its own. */
  predicate HaveReceived(conns: seq<Conn>, messages: seq<seq<byte>>) {
    |conns| == |messages| && forall id | 0 <= id < |messages| :: conns[id].received == messages[id]
  }

  lemma {:induction false} OneMoreReceived(conns: seq<Conn>, messages: seq<seq<byte>>, before: seq<Conn>, m: nat)
    requires |conns| == |messages| == m + 1 && conns[..m] == before
    requires HaveReceived(before, messages[..m]) && conns[m].received == messages[m]
    ensures HaveReceived(conns, messages)
  {
    forall id | 0 <= id < m ensures conns[id].received == messages[id] {
      assert conns[id] == before[id] && messages[id] == messages[..m][id];
    }
  }

  lemma {:induction false} ServesAll(file: seq<byte>, messages: seq<seq<byte>>)
    returns (run: seq<Action>, t: State)
    requires forall m | m in messages :: HandledExactly(m)
    ensures IsRun(Initial(file), run) && After(Initial(file), run) == t && Serving(t)
    ensures HaveReceived(t.conns, messages) && t.disk.file == file + Written(messages)
    decreases |messages|
  {
    if messages == [] {
      run, t := [], Initial(file);
      assert file + [] == file;
    } else {
      var m := |messages| - 1;
      var before, s := ServesAll(file, messages[..m]);
      var last;
      last, t := ServesOne(s, messages[m]);
      RunsJoin(Initial(file), before, s, last);
      run := before + last;
      OneMoreReceived(t.conns, messages, s.conns, m);
      Regroup(file, Written(messages[..m]), Flatten(Ended(Lines(messages[m]))));
    }
  }

  /** A server that waits for connections can be brought to its end, and leaves the file as it is. */
  lemma {:induction false} ServingCanEnd(file: seq<byte>, s: State) returns (run: seq<Action>)
    requires FileInv(file, s) && LifeInv(s) && Serving(s)
    ensures IsRun(s, run) && After(s, run).main.Gone?
    ensures After(s, run).disk == s.disk && After(s, run).conns == s.conns
  {
    var told := Next(s, Terminate);
    ExitedDrainsStop(file, s);
    StepKeepsFileInv(file, s, Terminate);
    StepKeepsLife(s, Terminate);
    var ending := CanEnd(file, told);
    StepThenRun(s, Terminate, ending);
    run := [Terminate] + ending;
  }

  /** From start to end: any number of clients can send anything that the server handles, and there is a
      run in which it serves them all, is told to stop, ends with everything torn down, and the file it
      has closed is its first content followed by all their lines. */
  lemma {:induction false} ServerServesAndEnds(file: seq<byte>, messages: seq<seq<byte>>) returns (run: seq<Action>)
    requires forall m | m in messages :: HandledExactly(m)
    ensures IsRun(Initial(file), run)
    ensures var s := After(Initial(file), run);
            && s.main.Gone? && !s.diskOpen && !s.flagsLive && !s.fileThere
            && HaveReceived(s.conns, messages) && s.disk.file == file + Written(messages)
  {
    var serving, s := ServesAll(file, messages);
    RunKeepsFileInv(file, serving);
    RunKeepsLife(file, serving);
    var ending := ServingCanEnd(file, s);
    RunsJoin(Initial(file), serving, s, ending);
    run := serving + ending;
    GoneIsTornDown(file, run);
  }
}
