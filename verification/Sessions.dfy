/** What `handle_packet` does to the file and the socket, as a function of how the kernel answers. */
module Sessions {
  import opened Bytes
  import opened WriteLoop
  import opened CopyLoop
  import opened AtomicSpec

  /** The answers to every `write` and `read` on the file and every `write` on the socket. */
  datatype Kernel = Kernel(diskWrites: Schedule, diskReads: Schedule, sends: Schedule)

  /** The file, what has been sent, and the number of the next call of each kind. */
  datatype Session = Session(file: seq<byte>, sent: seq<byte>, diskWrites: nat, diskReads: nat, sends: nat)

  /** The three loops of one critical section. */
  datatype Section = Section(body: Writing, newline: Writing, echo: Copying)

  function Record(sec: Section): seq<byte> {
    sec.body.written + sec.newline.written
  }

  function RunSection(k: Kernel, s: Session, packet: seq<byte>): Section {
    var body := WriteOut(packet, k.diskWrites, s.diskWrites);
    var newline := WriteOut([NEWLINE], k.diskWrites, body.calls);
    var file := s.file + (body.written + newline.written);
    Section(body, newline, Copy(file, CopyStart(0, s.diskReads, s.sends), k.diskReads, k.sends))
  }

  function Handle(k: Kernel, s: Session, packet: seq<byte>): Session {
    var sec := RunSection(k, s, packet);
    Session(s.file + Record(sec), s.sent + sec.echo.sent, sec.newline.calls, sec.echo.nextRead, sec.echo.nextSend)
  }

  function OpOf(k: Kernel, s: Session, id: nat, packet: seq<byte>): Op {
    var sec := RunSection(k, s, packet);
    var lost := GaveUp(sec.body.state) || GaveUp(sec.newline.state);
    Op(Client(id), packet, Record(sec), lost, sec.echo.sent, Cut(sec.echo))
  }

  lemma {:induction false} RecordOfParts(packet: seq<byte>, body: seq<byte>, newline: seq<byte>)
    requires body <= packet && newline <= [NEWLINE]
    ensures PartialRecord(packet, body + newline)
    ensures body + newline == FullRecord(packet) <==> body == packet && newline == [NEWLINE]
  {
    if newline == [] {
      assert body + newline == body;
    } else {
      assert newline == [NEWLINE];
      assert (body + newline)[..|body|] == body;
    }
  }

  /** The record is lost exactly when 21 writes of the packet or 21 writes of the newline failed. */
  lemma {:induction false} LostExactly(k: Kernel, s: Session, id: nat, packet: seq<byte>)
    ensures var (sec, op) := (RunSection(k, s, packet), OpOf(k, s, id, packet));
            && s.diskWrites <= sec.body.calls <= sec.newline.calls
            && PartialRecord(packet, op.record)
            && (op.lost <==> op.record != FullRecord(packet))
            && (op.lost <==> Failures(k.diskWrites, s.diskWrites, sec.body.calls) > 20
                             || Failures(k.diskWrites, sec.body.calls, sec.newline.calls) > 20)
  {
    var sec := RunSection(k, s, packet);
    WriteAllOutcome(packet, k.diskWrites, s.diskWrites);
    WriteAllOutcome([NEWLINE], k.diskWrites, sec.body.calls);
    RecordOfParts(packet, sec.body.written, sec.newline.written);
  }

  /** Whatever became of the packet, the newline is tried: with 21 calls of its own, and it is in the
      record exactly when one of them succeeds. */
  lemma {:induction false} NewlineIsTried(k: Kernel, s: Session, packet: seq<byte>)
    ensures var sec := RunSection(k, s, packet);
            && (Record(sec) == sec.body.written + [NEWLINE] <==> !FailAtFirst(k.diskWrites, sec.body.calls, 21))
            && (Record(sec) == sec.body.written <==> FailAtFirst(k.diskWrites, sec.body.calls, 21))
  {
    var sec := RunSection(k, s, packet);
    OneByte(NEWLINE, k.diskWrites, sec.body.calls);
    assert sec.body.written + [] == sec.body.written && |sec.body.written + [NEWLINE]| > |sec.body.written|;
  }

  lemma {:induction false} OneByte(b: byte, writes: Schedule, at: nat)
    ensures WriteOut([b], writes, at).written == if FailAtFirst(writes, at, 21) then [] else [b]
  {
    if FailAtFirst(writes, at, 21) {
      FailuresExhaust([b], writes, at);
    } else {
      var k := FirstSuccess(writes, at, 21);
      FailuresAreRetried([b], writes, at, k);
    }
  }

  lemma {:induction false} FirstSuccess(writes: Schedule, at: nat, n: nat) returns (k: nat)
    requires !FailAtFirst(writes, at, n)
    ensures k < n && FailAtFirst(writes, at, k) && writes(at + k) > 0
    decreases n
  {
    if FailAtFirst(writes, at, n - 1) {
      k := n - 1;
    } else {
      k := FirstSuccess(writes, at, n - 1);
    }
  }

  /** The echo is a prefix of the file after the record, and all of it unless a read of the file
      failed or 21 writes to the socket did. */
  lemma {:induction false} CutExactly(k: Kernel, s: Session, id: nat, packet: seq<byte>)
    ensures var (sec, op, t) := (RunSection(k, s, packet), OpOf(k, s, id, packet), Handle(k, s, packet));
            && op.echo <= t.file && (!op.cut ==> op.echo == t.file)
            && s.diskReads < t.diskReads && s.sends <= t.sends
            && (op.cut ==> ReadFails(k.diskReads, s.diskReads, t.diskReads)
                           || Failures(k.sends, s.sends, t.sends) > 20)
            && (ReadFails(k.diskReads, s.diskReads, t.diskReads) ==> op.cut)
  {
    var file := Handle(k, s, packet).file;
    CopySendsPrefix(file, 0, CopyStart(0, s.diskReads, s.sends), k.diskReads, k.sends);
    CopyIsCutByFailures(file, CopyStart(0, s.diskReads, s.sends), k.diskReads, k.sends);
    assert file[0..] == file;
  }

  /** Handling a packet is one legal operation of the atomic specification. */
  lemma {:induction false} HandleIsAtomic(k: Kernel, s: Session, id: nat, packet: seq<byte>)
    ensures var (op, t) := (OpOf(k, s, id, packet), Handle(k, s, packet));
            && Legal(View(s.file, map[]), op) && op.actor == Client(id) && op.packet == packet
            && t.file == s.file + op.record && t.sent == s.sent + op.echo
  {
    LostExactly(k, s, id, packet);
    CutExactly(k, s, id, packet);
  }

  // ---------------------------------------------------------------- packets in a row

  function HandleAll(k: Kernel, s: Session, packets: seq<seq<byte>>): Session {
    if packets == [] then s
    else Handle(k, HandleAll(k, s, packets[..|packets| - 1]), packets[|packets| - 1])
  }

  function OpsOf(k: Kernel, s: Session, id: nat, packets: seq<seq<byte>>): seq<Op> {
    if packets == [] then []
    else
      var before := packets[..|packets| - 1];
      OpsOf(k, s, id, before) + [OpOf(k, HandleAll(k, s, before), id, packets[|packets| - 1])]
  }

  lemma {:induction false} HandleAllSnoc(k: Kernel, s: Session, packets: seq<seq<byte>>, packet: seq<byte>)
    ensures HandleAll(k, s, packets + [packet]) == Handle(k, HandleAll(k, s, packets), packet)
  {
    assert (packets + [packet])[..|packets|] == packets;
  }

  /** These operations are a legal run for these packets, and this is where it leads. */
  predicate RunsAs(start: Session, ops: seq<Op>, id: nat, packets: seq<seq<byte>>, t: Session) {
    var v := View(start.file, map[]);
    && LegalRun(v, ops) && Packets(ops) == packets
    && t.file == RunOps(v, ops).file && t.sent == start.sent + Sent(RunOps(v, ops), id)
  }

  lemma {:induction false} RunsAsNext(start: Session, ops: seq<Op>, id: nat, packets: seq<seq<byte>>, t: Session,
                                      op: Op, next: Session)
    requires RunsAs(start, ops, id, packets, t) && op.actor == Client(id) && Legal(View(t.file, map[]), op)
    requires next.file == t.file + op.record && next.sent == t.sent + op.echo
    ensures RunsAs(start, ops + [op], id, packets + [op.packet], next)
  {
    var v := View(start.file, map[]);
    RunOpsSnoc(v, ops, op);
    PacketsSnoc(ops, op);
    assert (start.sent + Sent(RunOps(v, ops), id)) + op.echo == start.sent + (Sent(RunOps(v, ops), id) + op.echo);
  }

  /** Handling packets in a row is a legal run of atomic operations, one per packet. */
  lemma {:induction false} HandleAllIsAtomic(k: Kernel, s: Session, id: nat, packets: seq<seq<byte>>)
    ensures RunsAs(s, OpsOf(k, s, id, packets), id, packets, HandleAll(k, s, packets))
    decreases |packets|
  {
    if packets == [] {
      assert Packets([]) == [];
    } else {
      var before, last := packets[..|packets| - 1], packets[|packets| - 1];
      HandleAllIsAtomic(k, s, id, before);
      var t := HandleAll(k, s, before);
      HandleIsAtomic(k, t, id, last);
      RunsAsNext(s, OpsOf(k, s, id, before), id, before, t, OpOf(k, t, id, last), Handle(k, t, last));
      SplitLast(packets);
    }
  }

  /** The kernel never fails. */
  ghost predicate Healthy(k: Kernel) {
    forall n: nat :: k.diskWrites(n) > 0 && k.diskReads(n) >= 0 && k.sends(n) > 0
  }

  lemma {:induction false} NoFailures(writes: Schedule, from: nat, to: nat)
    requires from <= to && forall n: nat :: writes(n) > 0
    ensures Failures(writes, from, to) == 0
    decreases if from <= to then to - from else 0
  {
    if from < to {
      NoFailures(writes, from + 1, to);
    }
  }

  lemma {:induction false} HealthyOp(k: Kernel, s: Session, id: nat, packet: seq<byte>)
    requires Healthy(k)
    ensures !OpOf(k, s, id, packet).lost && !OpOf(k, s, id, packet).cut
  {
    var sec, t := RunSection(k, s, packet), Handle(k, s, packet);
    LostExactly(k, s, id, packet);
    CutExactly(k, s, id, packet);
    NoFailures(k.diskWrites, s.diskWrites, sec.body.calls);
    NoFailures(k.diskWrites, sec.body.calls, sec.newline.calls);
    NoFailures(k.sends, s.sends, t.sends);
  }

  /** When no call fails, every packet and its newline are in the file, and after each the client
      is sent the whole file. */
  lemma {:induction false} HealthyHandling(k: Kernel, s: Session, packets: seq<seq<byte>>, packet: seq<byte>)
    requires Healthy(k)
    ensures var t := HandleAll(k, s, packets + [packet]);
            && t.file == HandleAll(k, s, packets).file + packet + [NEWLINE]
            && t.sent == HandleAll(k, s, packets).sent + t.file
  {
    var before := HandleAll(k, s, packets);
    HandleAllSnoc(k, s, packets, packet);
    HealthyOp(k, before, 0, packet);
    LostExactly(k, before, 0, packet);
    CutExactly(k, before, 0, packet);
    assert before.file + FullRecord(packet) == before.file + packet + [NEWLINE];
  }
}
