/** What `handle_packet` does as one thread runs it is a run of the state machine. */
module SoloRuns {
  import opened Bytes
  import opened Splitter
  import opened WriteLoop
  import opened CopyLoop
  import opened Receiving
  import opened Sessions
  import opened Protocol

  /** With these results of its system calls, one after the other, a thread inside its critical
      section gets from here to there. */
  predicate Leads(id: nat, disk: Disk, conn: Conn, results: seq<int>, d: Disk, c: Conn)
    decreases |results|
  {
    if results == [] then (disk, conn) == (d, c)
    else
      && conn.pc.Inside? && CanReturn(disk, conn.pc.phase, results[0])
      && var (disk', conn') := AfterIo(id, disk, conn, results[0]);
         Leads(id, disk', conn', results[1..], d, c)
  }

  lemma {:induction false} LeadsOn(id: nat, disk: Disk, conn: Conn, first: seq<int>, d: Disk, c: Conn,
                                   second: seq<int>, d': Disk, c': Conn)
    requires Leads(id, disk, conn, first, d, c) && Leads(id, d, c, second, d', c')
    ensures Leads(id, disk, conn, first + second, d', c')
    decreases |first|
  {
    if first == [] {
      assert first + second == second;
    } else {
      var (disk', conn') := AfterIo(id, disk, conn, first[0]);
      LeadsOn(id, disk', conn', first[1..], d, c, second, d', c');
      assert (first + second)[1..] == first[1..] + second;
    }
  }

  lemma {:induction false} OneMore(id: nat, disk: Disk, conn: Conn, first: seq<int>, d: Disk, c: Conn, result: int)
    requires Leads(id, disk, conn, first, d, c) && c.pc.Inside? && CanReturn(d, c.pc.phase, result)
    ensures var (d', c') := AfterIo(id, d, c, result); Leads(id, disk, conn, first + [result], d', c')
  {
    var (d', c') := AfterIo(id, d, c, result);
    assert Leads(id, d', c', [], d', c');
    assert [result][1..] == [];
    LeadsOn(id, disk, conn, first, d, c, [result], d', c');
  }

  lemma {:induction false} OneFirst(id: nat, disk: Disk, conn: Conn, result: int, rest: seq<int>, d: Disk, c: Conn)
    requires conn.pc.Inside? && CanReturn(disk, conn.pc.phase, result)
    requires var (disk', conn') := AfterIo(id, disk, conn, result); Leads(id, disk', conn', rest, d, c)
    ensures Leads(id, disk, conn, [result] + rest, d, c)
  {
    assert ([result] + rest)[1..] == rest;
  }

  // ---------------------------------------------------------------- the loops

  function Writes(newline: bool, w: WriteState): Phase {
    if newline then Newline(w) else Body(w)
  }

  /** The thread after `tail` has gone to the file. */
  function Wrote(conn: Conn, newline: bool, w: WriteState, tail: seq<byte>): Conn
    requires conn.pc.Inside?
  {
    conn.(pc := conn.pc.(phase := Writes(newline, w), wrote := conn.pc.wrote + tail))
  }

  lemma {:induction false} AppendTwice(disk: Disk, a: seq<byte>, b: seq<byte>)
    ensures Append(Append(disk, a), b) == Append(disk, a + b)
  {
    Regroup(disk.file, a, b);
    if a == [] {
      assert a + b == b;
    } else if b == [] {
      assert a + b == a;
    }
  }

  /** A `write_all` to the file. */
  lemma {:induction false} WritesOut(id: nat, disk: Disk, conn: Conn, newline: bool, w: Writing, writes: Schedule)
    returns (results: seq<int>, tail: seq<byte>)
    requires conn.pc.Inside? && conn.pc.phase == Writes(newline, w.state)
    ensures w.written + tail == Finish(w, writes).written
    ensures Leads(id, disk, conn, results, Append(disk, tail), Wrote(conn, newline, Finish(w, writes).state, tail))
    decreases CallsLeft(w.state)
  {
    if !Active(w.state) {
      results, tail := [], [];
      assert conn.pc.wrote + [] == conn.pc.wrote && w.written + [] == w.written;
    } else {
      var reply := Reply(w.state, writes, w.calls);
      var out, next := Output(w.state, reply), AfterCall(w, writes);
      CallsLeftFalls(w.state, reply);
      var more, rest := WritesOut(id, Append(disk, out), Wrote(conn, newline, next.state, out), newline, next, writes);
      results, tail := [reply] + more, out + rest;
      Regroup(w.written, out, rest);
      Regroup(conn.pc.wrote, out, rest);
      AppendTwice(disk, out, rest);
      assert results[1..] == more;
    }
  }

  /** The thread after `tail` has gone to the socket. */
  function Sending(conn: Conn, phase: Phase, tail: seq<byte>): Conn
    requires conn.pc.Inside?
  {
    conn.(sent := conn.sent + tail, pc := conn.pc.(phase := phase, echoed := conn.pc.echoed + tail))
  }

  lemma {:induction false} SendingTwice(conn: Conn, p: Phase, a: seq<byte>, q: Phase, b: seq<byte>)
    requires conn.pc.Inside?
    ensures Sending(Sending(conn, p, a), q, b) == Sending(conn, q, a + b)
  {
    Regroup(conn.sent, a, b);
    Regroup(conn.pc.echoed, a, b);
  }

  lemma {:induction false} SendingNothing(conn: Conn, p: Phase)
    requires conn.pc.Inside?
    ensures Sending(conn, p, []) == conn.(pc := conn.pc.(phase := p))
  {
    assert conn.sent + [] == conn.sent && conn.pc.echoed + [] == conn.pc.echoed;
  }

  /** A `write_all` to the socket. */
  lemma {:induction false} SendsOut(id: nat, disk: Disk, conn: Conn, w: Writing, writes: Schedule)
    returns (results: seq<int>, tail: seq<byte>)
    requires conn.pc.Inside? && conn.pc.phase == Send(w.state)
    ensures w.written + tail == Finish(w, writes).written
    ensures Leads(id, disk, conn, results, disk, Sending(conn, Send(Finish(w, writes).state), tail))
    decreases CallsLeft(w.state)
  {
    if !Active(w.state) {
      results, tail := [], [];
      SendingNothing(conn, conn.pc.phase);
      assert w.written + [] == w.written;
    } else {
      var reply := Reply(w.state, writes, w.calls);
      var out, next := Output(w.state, reply), AfterCall(w, writes);
      CallsLeftFalls(w.state, reply);
      var more, rest := SendsOut(id, disk, Sending(conn, Send(next.state), out), next, writes);
      results, tail := [reply] + more, out + rest;
      Regroup(w.written, out, rest);
      SendingTwice(conn, Send(next.state), out, Send(Finish(w, writes).state), rest);
      assert results[1..] == more;
    }
  }

  /** The thread when the copying loop has ended like this, with `tail` sent. */
  function Echoed(conn: Conn, e: Copying, tail: seq<byte>): Conn
    requires conn.pc.Inside?
  {
    var c := Sending(conn, SeekEnd, tail);
    c.(pc := c.pc.(cut := Cut(e)))
  }

  /** One round of the copying loop that reads something: the `read`, the `write_all`, and the step
      after it. */
  lemma {:induction false} PieceOut(id: nat, disk: Disk, conn: Conn, c: Copying, onRead: Schedule, onSend: Schedule)
    returns (results: seq<int>, tail: seq<byte>)
    requires conn.pc.Inside? && conn.pc.phase.Read? && !conn.pc.cut && !Cut(c)
    requires disk.offset == c.offset <= |disk.file| && ReadReply(disk.file, c.offset, onRead, c.nextRead) > 0
    ensures var e := Round(disk.file, c, onRead, onSend);
            && c.sent + tail == e.sent
            && Leads(id, disk, conn, results, disk.(offset := e.offset),
                     if e.refused then Echoed(conn, e, tail) else Sending(conn, Read, tail))
  {
    var n := ReadReply(disk.file, c.offset, onRead, c.nextRead);
    var piece := disk.file[c.offset..c.offset + n];
    var (disk', conn') := AfterIo(id, disk, conn, n);
    var sends;
    sends, tail := SendsOut(id, disk', conn', Writing(Start(piece), c.nextSend, []), onSend);
    var e, w := Round(disk.file, c, onRead, onSend), WriteOut(piece, onSend, c.nextSend);
    assert [] + tail == tail;
    OneMore(id, disk', conn', sends, disk', Sending(conn', Send(w.state), tail), 0);
    var end := if e.refused then Echoed(conn, e, tail) else Sending(conn, Read, tail);
    assert AfterIo(id, disk', Sending(conn', Send(w.state), tail), 0) == (disk', end);
    results := [n] + (sends + [0]);
    OneFirst(id, disk, conn, n, sends + [0], disk', end);
  }

  /** The whole copying loop. */
  lemma {:induction false} EchoOut(id: nat, disk: Disk, conn: Conn, c: Copying, onRead: Schedule, onSend: Schedule)
    returns (results: seq<int>, tail: seq<byte>)
    requires conn.pc.Inside? && conn.pc.phase.Read? && !conn.pc.cut && !Cut(c)
    requires disk.offset == c.offset <= |disk.file|
    ensures var e := Copy(disk.file, c, onRead, onSend);
            && c.sent + tail == e.sent
            && Leads(id, disk, conn, results, disk.(offset := e.offset), Echoed(conn, e, tail))
    decreases |disk.file| - c.offset
  {
    var n := ReadReply(disk.file, c.offset, onRead, c.nextRead);
    if n <= 0 {
      results, tail := [n], [];
      CopyEnds(disk.file, c, onRead, onSend);
      SendingNothing(conn, SeekEnd);
      assert c.sent + [] == c.sent && results[1..] == [];
    } else {
      var d := Round(disk.file, c, onRead, onSend);
      CopyGoesOn(disk.file, c, n, onRead, onSend);
      results, tail := PieceOut(id, disk, conn, c, onRead, onSend);
      if !d.refused {
        var e := Copy(disk.file, d, onRead, onSend);
        var sending, further := disk.(offset := d.offset), Sending(conn, Read, tail);
        var more, rest := EchoOut(id, sending, further, d, onRead, onSend);
        LeadsOn(id, disk, conn, results, sending, further, more, disk.(offset := e.offset), Echoed(further, e, rest));
        SendingTwice(conn, Read, tail, SeekEnd, rest);
        Regroup(c.sent, tail, rest);
        results, tail := results + more, tail + rest;
      }
    }
  }

  // ---------------------------------------------------------------- the critical section

  /** The record: the packet and the newline, up to the step that starts the echo. */
  lemma {:induction false} RecordOut(id: nat, disk: Disk, conn: Conn, k: Kernel, s: Session, packet: seq<byte>)
    returns (results: seq<int>)
    requires conn.pc == Inside(packet, Body(Start(packet)), [], false, [], false)
    ensures var (sec, op) := (RunSection(k, s, packet), OpOf(k, s, id, packet));
            Leads(id, disk, conn, results, Append(disk, Record(sec)).(offset := 0),
                  conn.(pc := Inside(packet, Read, Record(sec), op.lost, [], false)))
  {
    var sec := RunSection(k, s, packet);
    var body, tail := WritesOut(id, disk, conn, false, Writing(Start(packet), s.diskWrites, []), k.diskWrites);
    assert [] + tail == tail;
    var d, c := Append(disk, tail), Wrote(conn, false, sec.body.state, tail);
    OneMore(id, disk, conn, body, d, c, 0);
    results := body + [0];
    var c1 := conn.(pc := Inside(packet, Newline(Start([NEWLINE])), tail, GaveUp(sec.body.state), [], false));
    var line, end := WritesOut(id, d, c1, true, Writing(Start([NEWLINE]), sec.body.calls, []), k.diskWrites);
    assert [] + end == end;
    AppendTwice(disk, tail, end);
    var d2, c2 := Append(disk, tail + end), Wrote(c1, true, sec.newline.state, end);
    LeadsOn(id, disk, conn, results, d, c1, line, d2, c2);
    OneMore(id, disk, conn, results + line, d2, c2, 0);
    results := results + line + [0];
    var c3 := conn.(pc := Inside(packet, Rewind, tail + end, OpOf(k, s, id, packet).lost, [], false));
    OneMore(id, disk, conn, results, d2, c3, 0);
    results := results + [0];
  }

  /** The state of a thread that is about to release the mutex after handling the packet. */
  lemma {:induction false} SectionOut(id: nat, disk: Disk, conn: Conn, k: Kernel, s: Session, packet: seq<byte>)
    returns (results: seq<int>)
    requires conn.pc == Inside(packet, Body(Start(packet)), [], false, [], false)
    requires disk.file == s.file && conn.sent == s.sent
    ensures var (op, t) := (OpOf(k, s, id, packet), Handle(k, s, packet));
            Leads(id, disk, conn, results, Disk(t.file, |t.file|, Free, disk.log + [op]),
                  conn.(sent := t.sent, pc := Draining))
  {
    var (sec, op, t) := (RunSection(k, s, packet), OpOf(k, s, id, packet), Handle(k, s, packet));
    results := RecordOut(id, disk, conn, k, s, packet);
    var d1 := Append(disk, Record(sec)).(offset := 0);
    var c1 := conn.(pc := Inside(packet, Read, Record(sec), op.lost, [], false));
    assert d1.file == t.file by {
      assert disk.file + [] == disk.file;
    }
    var more, tail := EchoOut(id, d1, c1, CopyStart(0, s.diskReads, s.sends), k.diskReads, k.sends);
    assert [] + tail == tail;
    var d2, c2 := d1.(offset := sec.echo.offset), Echoed(c1, sec.echo, tail);
    LeadsOn(id, disk, conn, results, d1, c1, more, d2, c2);
    results := results + more;
    OneMore(id, disk, conn, results, d2, c2, 0);
    results := results + [0];
    var d3, c3 := d2.(offset := |d2.file|), c2.(pc := c2.pc.(phase := Release));
    OneMore(id, disk, conn, results, d3, c3, 0);
    results := results + [0];
  }

  // ---------------------------------------------------------------- runs of the server

  function IoRun(id: nat, results: seq<int>): (run: seq<Action>)
    ensures IsSolo(run, id)
  {
    if results == [] then [] else [ByClient(id, Io(results[0]))] + IoRun(id, results[1..])
  }

  /** The state with this file and this connection. */
  function With(s: State, id: nat, d: Disk, c: Conn): State
    requires id < |s.conns|
  {
    s.(disk := d, conns := s.conns[id := c])
  }

  lemma {:induction false} WithAgain(s: State, id: nat, d: Disk, c: Conn, d': Disk, c': Conn)
    requires id < |s.conns|
    ensures With(With(s, id, d, c), id, d', c') == With(s, id, d', c')
    ensures With(s, id, s.disk, s.conns[id]) == s
  {
    assert s.conns[id := c][id := c'] == s.conns[id := c'];
    assert s.conns[id := s.conns[id]] == s.conns;
  }

  lemma {:induction false} LeadsIsARun(s: State, id: nat, results: seq<int>, d: Disk, c: Conn)
    requires id < |s.conns| && Leads(id, s.disk, s.conns[id], results, d, c)
    ensures IsRun(s, IoRun(id, results))
    ensures After(s, IoRun(id, results)) == With(s, id, d, c)
    decreases |results|
  {
    if results == [] {
      WithAgain(s, id, d, c, d, c);
    } else {
      var a := ByClient(id, Io(results[0]));
      var t := Next(s, a);
      LeadsIsARun(t, id, results[1..], d, c);
      StepThenRun(s, a, IoRun(id, results[1..]));
      WithAgain(s, id, t.disk, t.conns[id], d, c);
    }
  }

  /** The shared file after handling a packet alone, and the connection. */
  function HandledDisk(disk: Disk, id: nat, k: Kernel, session: Session, packet: seq<byte>): Disk {
    var t := Handle(k, session, packet);
    Disk(t.file, |t.file|, Free, disk.log + [OpOf(k, session, id, packet)])
  }

  function HandledConn(conn: Conn, k: Kernel, session: Session, packet: seq<byte>): Conn {
    conn.(sent := Handle(k, session, packet).sent, pc := Draining)
  }

  /** The steps are all made by this connection thread. */
  predicate IsSolo(run: seq<Action>, id: nat) {
    forall a | a in run :: a.ByClient? && a.id == id
  }

  /** Whatever the kernel answers, what `handle_packet` does to the file, the offset, the mutex and
      the socket when it runs alone is what some steps of that one thread do in the state machine,
      and they commit the operation that it amounts to. */
  lemma {:induction false} HandlingIsARun(s: State, id: nat, k: Kernel, session: Session, packet: seq<byte>)
    returns (run: seq<Action>)
    requires id < |s.conns| && s.conns[id].pc == Waiting(packet) && s.disk.mutex.Free?
    requires session.file == s.disk.file && session.sent == s.conns[id].sent
    ensures IsRun(s, run) && IsSolo(run, id)
    ensures After(s, run)
         == With(s, id, HandledDisk(s.disk, id, k, session, packet), HandledConn(s.conns[id], k, session, packet))
  {
    var a := ByClient(id, Acquire);
    var t := Next(s, a);
    var d, c := HandledDisk(s.disk, id, k, session, packet), HandledConn(s.conns[id], k, session, packet);
    var results := SectionOut(id, t.disk, t.conns[id], k, session, packet);
    LeadsIsARun(t, id, results, d, c);
    StepThenRun(s, a, IoRun(id, results));
    WithAgain(s, id, t.disk, t.conns[id], d, c);
    run := [a] + IoRun(id, results);
  }

  // ---------------------------------------------------------------- the drain loop

  /** The shared file after `n` rounds of the drain loop of one thread alone, and the connection. */
  function DrainedDisk(disk: Disk, b: seq<byte>, id: nat, k: Kernel, session: Session, n: nat): Disk {
    var packets := Drain(b, n).packets;
    var t := HandleAll(k, session, packets);
    var offset := if n == 0 then disk.offset else |t.file|;
    Disk(t.file, offset, Free, disk.log + OpsOf(k, session, id, packets))
  }

  function DrainedConn(conn: Conn, k: Kernel, session: Session, n: nat): Conn {
    var d := Drain(conn.buffer.bytes, n);
    var sent := HandleAll(k, session, d.packets).sent;
    conn.(buffer := conn.buffer.(bytes := d.buf), taken := conn.taken + n, sent := sent)
  }

  lemma {:induction false} OpsOfSnoc(k: Kernel, session: Session, id: nat, packets: seq<seq<byte>>, packet: seq<byte>)
    ensures OpsOf(k, session, id, packets + [packet])
         == OpsOf(k, session, id, packets) + [OpOf(k, HandleAll(k, session, packets), id, packet)]
  {
    assert (packets + [packet])[..|packets|] == packets;
  }

  /** One round more of the file and of the connection. */
  lemma {:induction false} DiskRound(disk: Disk, b: seq<byte>, id: nat, k: Kernel, session: Session, n: nat)
    requires HasNewline(Drain(b, n).buf)
    ensures var d := Drain(b, n);
            HandledDisk(DrainedDisk(disk, b, id, k, session, n), id, k, HandleAll(k, session, d.packets), Token(d.buf))
            == DrainedDisk(disk, b, id, k, session, n + 1)
  {
    var d := Drain(b, n);
    DrainLast(b, n, d);
    HandleAllSnoc(k, session, d.packets, Token(d.buf));
    OpsOfSnoc(k, session, id, d.packets, Token(d.buf));
  }

  lemma {:induction false} ConnRound(conn: Conn, k: Kernel, session: Session, n: nat)
    requires conn.pc.Draining? && HasNewline(Drain(conn.buffer.bytes, n).buf)
    ensures var d := Drain(conn.buffer.bytes, n);
            HandledConn(AfterLoop(DrainedConn(conn, k, session, n)), k, HandleAll(k, session, d.packets), Token(d.buf))
            == DrainedConn(conn, k, session, n + 1)
  {
    var d := Drain(conn.buffer.bytes, n);
    DrainLast(conn.buffer.bytes, n, d);
    HandleAllSnoc(k, session, d.packets, Token(d.buf));
  }

  lemma {:induction false} AllRoundsCut(b: seq<byte>, n: nat)
    requires |Drain(b, n + 1).packets| == n + 1
    ensures |Drain(b, n).packets| == n && HasNewline(Drain(b, n).buf)
  {
    assert Drain(b, n + 1) == DrainRound(Drain(b, n));
  }

  /** One round: a test of the guard that finds a newline, and the critical section. */
  lemma {:induction false} RoundIsARun(s: State, id: nat, k: Kernel, session: Session) returns (run: seq<Action>)
    requires id < |s.conns| && s.conns[id].pc.Draining? && HasNewline(s.conns[id].buffer.bytes) && s.disk.mutex.Free?
    requires session.file == s.disk.file && session.sent == s.conns[id].sent
    ensures IsRun(s, run) && IsSolo(run, id)
    ensures var token := Token(s.conns[id].buffer.bytes);
            After(s, run) == With(s, id, HandledDisk(s.disk, id, k, session, token),
                                  HandledConn(AfterLoop(s.conns[id]), k, session, token))
  {
    var a, token := ByClient(id, Loop), Token(s.conns[id].buffer.bytes);
    var t := Next(s, a);
    var more := HandlingIsARun(t, id, k, session, token);
    StepThenRun(s, a, more);
    WithAgain(s, id, t.disk, t.conns[id], HandledDisk(s.disk, id, k, session, token),
              HandledConn(AfterLoop(s.conns[id]), k, session, token));
    run := [a] + more;
  }

  /** The server after `n` rounds. */
  function Rounds(s: State, id: nat, k: Kernel, session: Session, n: nat): State
    requires id < |s.conns|
  {
    var conn := s.conns[id];
    With(s, id, DrainedDisk(s.disk, conn.buffer.bytes, id, k, session, n), DrainedConn(conn, k, session, n))
  }

  lemma {:induction false} NoRounds(s: State, id: nat, k: Kernel, session: Session)
    requires id < |s.conns| && s.disk.mutex.Free? && session.file == s.disk.file && session.sent == s.conns[id].sent
    ensures Rounds(s, id, k, session, 0) == s
  {
    assert s.disk.log + [] == s.disk.log;
    assert DrainedDisk(s.disk, s.conns[id].buffer.bytes, id, k, session, 0) == s.disk;
    WithAgain(s, id, s.disk, s.conns[id], s.disk, s.conns[id]);
  }

  lemma {:induction false} NextRoundIsARun(s: State, id: nat, k: Kernel, session: Session, n: nat)
    returns (run: seq<Action>)
    requires id < |s.conns| && s.conns[id].pc.Draining? && HasNewline(Drain(s.conns[id].buffer.bytes, n).buf)
    ensures IsRun(Rounds(s, id, k, session, n), run) && IsSolo(run, id)
    ensures After(Rounds(s, id, k, session, n), run) == Rounds(s, id, k, session, n + 1)
  {
    var conn := s.conns[id];
    var b := conn.buffer.bytes;
    var d, c := DrainedDisk(s.disk, b, id, k, session, n), DrainedConn(conn, k, session, n);
    run := RoundIsARun(Rounds(s, id, k, session, n), id, k, HandleAll(k, session, Drain(b, n).packets));
    DiskRound(s.disk, b, id, k, session, n);
    ConnRound(conn, k, session, n);
    WithAgain(s, id, d, c, DrainedDisk(s.disk, b, id, k, session, n + 1), DrainedConn(conn, k, session, n + 1));
  }

  /** Whatever the kernel answers, handling the packets that the drain loop cuts off, as one thread does
      alone, is a run of the state machine. */
  lemma {:induction false} DrainingIsARun(s: State, id: nat, k: Kernel, session: Session, n: nat)
    returns (run: seq<Action>)
    requires id < |s.conns| && s.conns[id].pc.Draining? && s.disk.mutex.Free?
    requires session.file == s.disk.file && session.sent == s.conns[id].sent
    requires |Drain(s.conns[id].buffer.bytes, n).packets| == n
    ensures IsRun(s, run) && IsSolo(run, id)
    ensures After(s, run) == Rounds(s, id, k, session, n)
    decreases n
  {
    if n == 0 {
      run := [];
      NoRounds(s, id, k, session);
    } else {
      var m := n - 1;
      AllRoundsCut(s.conns[id].buffer.bytes, m);
      var before := DrainingIsARun(s, id, k, session, m);
      var last := NextRoundIsARun(s, id, k, session, m);
      var t := Rounds(s, id, k, session, m);
      RunsJoin(s, before, t, last);
      run := before + last;
    }
  }

  // ---------------------------------------------------------------- the whole connection

  /** The connection while only full pieces have come in. */
  predicate HasTaken(conn: Conn, pieces: seq<seq<byte>>) {
    && conn.pc.Reading? && !conn.ended && conn.taken == 0 && conn.sent == []
    && conn.received == Flatten(pieces) && Holds(conn.buffer, conn.received)
  }

  lemma {:induction false} FullReadsAreARun(s: State, id: nat, pieces: seq<seq<byte>>)
    returns (run: seq<Action>, c: Conn)
    requires id < |s.conns| && s.conns[id] == NEW_CONN && FullPieces(pieces)
    ensures IsRun(s, run) && IsSolo(run, id)
    ensures After(s, run) == With(s, id, s.disk, c) && HasTaken(c, pieces)
    decreases |pieces|
  {
    if pieces == [] {
      run, c := [], s.conns[id];
      WithAgain(s, id, s.disk, c, s.disk, c);
    } else {
      var before, last := pieces[..|pieces| - 1], pieces[|pieces| - 1];
      assert last in pieces;
      var d;
      run, d := FullReadsAreARun(s, id, before);
      var a := ByClient(id, Recv(last));
      FullKeepsShape(d.buffer, d.received, last);
      AfterSnoc(s, run, a);
      c := AfterRecv(d, last);
      WithAgain(s, id, s.disk, d, s.disk, c);
      run := run + [a];
    }
  }

  /** Receiving up to a short read. */
  lemma {:induction false} ReceivingIsARun(s: State, id: nat, pieces: seq<seq<byte>>, last: seq<byte>)
    returns (run: seq<Action>, c: Conn)
    requires id < |s.conns| && s.conns[id] == NEW_CONN && FullPieces(pieces) && 0 < |last| < CHUNK
    ensures IsRun(s, run) && IsSolo(run, id)
    ensures After(s, run) == With(s, id, s.disk, c)
    ensures c.pc.Draining? && c.received == Flatten(pieces + [last]) && c.buffer.bytes == Final(c.received)
    ensures c.sent == [] && c.taken == 0
  {
    var before, d := FullReadsAreARun(s, id, pieces);
    var a := ByClient(id, Recv(last));
    ShortEndsReceiving(d.buffer, d.received, last);
    AfterSnoc(s, before, a);
    FlattenSnoc(pieces, last);
    c := AfterRecv(d, last);
    WithAgain(s, id, s.disk, d, s.disk, c);
    run := before + [a];
  }

  /** The whole drain loop, up to the test of its guard that fails. */
  lemma {:induction false} WholeDrainIsARun(s: State, id: nat, k: Kernel, session: Session, n: nat)
    returns (run: seq<Action>)
    requires id < |s.conns| && s.conns[id].pc.Draining? && s.disk.mutex.Free?
    requires session.file == s.disk.file && session.sent == s.conns[id].sent
    requires |Drain(s.conns[id].buffer.bytes, n).packets| == n && Stops(s.conns[id].buffer.bytes, n)
    ensures IsRun(s, run) && IsSolo(run, id)
    ensures var b := s.conns[id].buffer.bytes;
            After(s, run) == With(s, id, DrainedDisk(s.disk, b, id, k, session, n),
                                  DrainedConn(s.conns[id], k, session, n).(pc := Exited))
  {
    var conn, a := s.conns[id], ByClient(id, Loop);
    var d, c := DrainedDisk(s.disk, conn.buffer.bytes, id, k, session, n), DrainedConn(conn, k, session, n);
    run := DrainingIsARun(s, id, k, session, n);
    AfterSnoc(s, run, a);
    WithAgain(s, id, d, c, d, c.(pc := Exited));
    run := run + [a];
  }

  /** The packets that a connection handles that receives these full pieces and then this one: none
      if that is the orderly shutdown, and those of `n` rounds of its drain loop if it is a short read. */
  function PacketsOf(pieces: seq<seq<byte>>, last: seq<byte>, n: nat): seq<seq<byte>> {
    if last == [] then [] else Drain(Final(Flatten(pieces + [last])), n).packets
  }

  /** The connection ends in an orderly shutdown. */
  lemma {:induction false} ClosingIsARun(s: State, id: nat, pieces: seq<seq<byte>>)
    returns (run: seq<Action>, c: Conn)
    requires id < |s.conns| && s.conns[id] == NEW_CONN && FullPieces(pieces)
    ensures IsRun(s, run) && IsSolo(run, id)
    ensures After(s, run) == With(s, id, s.disk, c)
    ensures c.pc.Exited? && c.received == Flatten(pieces) && c.sent == []
  {
    var before, d := FullReadsAreARun(s, id, pieces);
    var a := ByClient(id, Recv([]));
    assert HasRoom(d.buffer, CHUNK);
    AfterSnoc(s, before, a);
    c := d.(pc := Exited);
    WithAgain(s, id, s.disk, d, s.disk, c);
    run := before + [a];
  }

  /** The connection ends in a short read, and its drain loop stops after `n` rounds. */
  lemma {:induction false} ShortReadIsARun(s: State, id: nat, k: Kernel, session: Session,
                                           pieces: seq<seq<byte>>, last: seq<byte>, n: nat)
    returns (run: seq<Action>, d: Disk, c: Conn)
    requires id < |s.conns| && s.conns[id] == NEW_CONN && s.disk.mutex.Free?
    requires FullPieces(pieces) && 0 < |last| < CHUNK
    requires session.file == s.disk.file && session.sent == []
    requires |PacketsOf(pieces, last, n)| == n && Stops(Final(Flatten(pieces + [last])), n)
    ensures IsRun(s, run) && IsSolo(run, id) && After(s, run) == With(s, id, d, c)
    ensures c.pc.Exited? && c.received == Flatten(pieces + [last])
    ensures c.sent == HandleAll(k, session, PacketsOf(pieces, last, n)).sent
    ensures d == DrainedDisk(s.disk, Final(c.received), id, k, session, n)
  {
    var reading, e := ReceivingIsARun(s, id, pieces, last);
    var t := With(s, id, s.disk, e);
    var draining := WholeDrainIsARun(t, id, k, session, n);
    RunsJoin(s, reading, t, draining);
    d, c := DrainedDisk(s.disk, Final(e.received), id, k, session, n), DrainedConn(e, k, session, n).(pc := Exited);
    WithAgain(s, id, s.disk, e, d, c);
    run := reading + draining;
  }

  /** Whatever arrives up to a short read or an orderly shutdown and whatever the kernel answers, what
      `handle_connection` does alone is a run of the state machine: it leaves the same file, sends the
      same bytes and commits the same operations. */
  lemma {:induction false} ConnectionIsARun(s: State, id: nat, k: Kernel, session: Session,
                                            pieces: seq<seq<byte>>, last: seq<byte>, n: nat)
    returns (run: seq<Action>, d: Disk, c: Conn)
    requires id < |s.conns| && s.conns[id] == NEW_CONN && s.disk.mutex.Free?
    requires (forall p | p in pieces :: |p| == 1024) && |last| < 1024
    requires session.file == s.disk.file && session.sent == []
    requires last != [] ==> |PacketsOf(pieces, last, n)| == n && Stops(Final(Flatten(pieces + [last])), n)
    ensures IsRun(s, run) && IsSolo(run, id) && After(s, run) == With(s, id, d, c)
    ensures c.pc.Exited? && d.mutex.Free? && c.received == Flatten(pieces + [last])
    ensures var packets := PacketsOf(pieces, last, n);
            && d.file == HandleAll(k, session, packets).file
            && c.sent == HandleAll(k, session, packets).sent
            && d.log == s.disk.log + OpsOf(k, session, id, packets)
  {
    if last == [] {
      d := s.disk;
      run, c := ClosingIsARun(s, id, pieces);
      FlattenSnoc(pieces, last);
      assert Flatten(pieces) + [] == Flatten(pieces) && d.log + [] == d.log;
    } else {
      run, d, c := ShortReadIsARun(s, id, k, session, pieces, last, n);
    }
  }
}
