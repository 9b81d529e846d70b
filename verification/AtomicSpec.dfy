/** What the shared file promises: records are appended one at a time, and a client that appends
    one is sent the whole file as it stands right after. */
module AtomicSpec {
  import opened Bytes

  /** Who runs a critical section: a connection thread or the timestamp thread. */
  datatype Actor = Client(id: nat) | Clock

  /** One critical section, as if it happened in a single step. `lost` says that the disk would not
      take all of the record, `cut` that the echo ended early, on a failed read or a socket that
      would not take the bytes. */
  datatype Op = Op(actor: Actor, packet: seq<byte>, record: seq<byte>, lost: bool, echo: seq<byte>, cut: bool)

  /** The file, and what each client has been sent. */
  datatype View = View(file: seq<byte>, sent: map<nat, seq<byte>>)

  function Sent(v: View, id: nat): seq<byte> {
    if id in v.sent then v.sent[id] else []
  }

  function FullRecord(packet: seq<byte>): seq<byte> {
    packet + [NEWLINE]
  }

  /** What can reach the file of a packet and its newline: a prefix of the packet, and the newline
      or not, when the disk refuses to take all of it. */
  predicate PartialRecord(packet: seq<byte>, record: seq<byte>) {
    || record <= packet
    || (record != [] && record[|record| - 1] == NEWLINE && record[..|record| - 1] <= packet)
  }

  /** The operation may happen in this view. */
  predicate Legal(v: View, op: Op) {
    && PartialRecord(op.packet, op.record)
    && (op.lost <==> op.record != FullRecord(op.packet))
    && (op.actor.Client? ==> op.echo <= v.file + op.record)
    && (op.actor.Client? && !op.cut ==> op.echo == v.file + op.record)
    && (op.actor.Clock? ==> op.echo == [])
  }

  function Apply(v: View, op: Op): View {
    View(v.file + op.record,
         if op.actor.Client? then v.sent[op.actor.id := Sent(v, op.actor.id) + op.echo] else v.sent)
  }

  function RunOps(v: View, ops: seq<Op>): View {
    if ops == [] then v else Apply(RunOps(v, ops[..|ops| - 1]), ops[|ops| - 1])
  }

  predicate LegalRun(v: View, ops: seq<Op>) {
    ops == [] || (LegalRun(v, ops[..|ops| - 1]) && Legal(RunOps(v, ops[..|ops| - 1]), ops[|ops| - 1]))
  }

  /** The packets, the records and the echoes of one actor, in order. */
  function Of(ops: seq<Op>, actor: Actor): seq<Op> {
    if ops == [] then []
    else
      var before, last := Of(ops[..|ops| - 1], actor), ops[|ops| - 1];
      if last.actor == actor then before + [last] else before
  }

  function Packets(ops: seq<Op>): (p: seq<seq<byte>>)
    ensures |p| == |ops| && forall k | 0 <= k < |ops| :: p[k] == ops[k].packet
  {
    seq(|ops|, k requires 0 <= k < |ops| => ops[k].packet)
  }

  function Records(ops: seq<Op>): (r: seq<seq<byte>>)
    ensures |r| == |ops| && forall k | 0 <= k < |ops| :: r[k] == ops[k].record
  {
    seq(|ops|, k requires 0 <= k < |ops| => ops[k].record)
  }

  /** The disk took every record. */
  predicate NothingLost(ops: seq<Op>) {
    forall op | op in ops :: !op.lost
  }

  /** No echo was cut short. */
  predicate NothingCut(ops: seq<Op>) {
    forall op | op in ops :: !op.cut
  }

  lemma {:induction false} RunOpsSnoc(v: View, ops: seq<Op>, op: Op)
    ensures RunOps(v, ops + [op]) == Apply(RunOps(v, ops), op)
    ensures LegalRun(v, ops + [op]) <==> LegalRun(v, ops) && Legal(RunOps(v, ops), op)
  {
    assert (ops + [op])[..|ops|] == ops;
  }

  lemma {:induction false} OfSnoc(ops: seq<Op>, op: Op, actor: Actor)
    ensures Of(ops + [op], actor) == if op.actor == actor then Of(ops, actor) + [op] else Of(ops, actor)
  {
    assert (ops + [op])[..|ops|] == ops;
  }

  /** The operations of one actor keep their order and come from the log. */
  lemma {:induction false} OfIsProjection(ops: seq<Op>, actor: Actor)
    ensures forall op :: op in Of(ops, actor) <==> op in ops && op.actor == actor
    ensures multiset(Of(ops, actor)) <= multiset(ops)
  {
    if ops != [] {
      var before, last := ops[..|ops| - 1], ops[|ops| - 1];
      OfIsProjection(before, actor);
      assert ops == before + [last];
    }
  }

  lemma {:induction false} PacketsSnoc(ops: seq<Op>, op: Op)
    ensures Packets(ops + [op]) == Packets(ops) + [op.packet]
  {
  }

  // ---------------------------------------------------------------- what atomic runs give

  /** The file is its first content followed by the records, each once, in the order of the run. */
  lemma {:induction false} FileIsRecords(v: View, ops: seq<Op>)
    ensures RunOps(v, ops).file == v.file + Flatten(Records(ops))
  {
    if ops == [] {
      assert Flatten(Records(ops)) == [];
    } else {
      var before := ops[..|ops| - 1];
      FileIsRecords(v, before);
      assert Records(ops) == Records(before) + [ops[|ops| - 1].record];
      FlattenSnoc(Records(before), ops[|ops| - 1].record);
    }
  }

  /** The file only grows. */
  lemma {:induction false} FileGrows(v: View, ops: seq<Op>, i: nat, j: nat)
    requires i <= j <= |ops|
    ensures RunOps(v, ops[..i]).file <= RunOps(v, ops[..j]).file
    decreases j - i
  {
    if i < j {
      FileGrows(v, ops, i, j - 1);
      assert ops[..j][..j - 1] == ops[..j - 1];
    }
  }

  lemma {:induction false} LegalAt(v: View, ops: seq<Op>, i: nat)
    requires LegalRun(v, ops) && i < |ops|
    ensures Legal(RunOps(v, ops[..i]), ops[i])
    ensures RunOps(v, ops[..i + 1]) == Apply(RunOps(v, ops[..i]), ops[i])
    decreases |ops|
  {
    var before := ops[..|ops| - 1];
    if i == |ops| - 1 {
      assert ops[..i + 1] == ops;
    } else {
      assert before[..i] == ops[..i] && before[..i + 1] == ops[..i + 1] && before[i] == ops[i];
      LegalAt(v, before, i);
    }
  }

  /** Every echo is a prefix of the file right after that client's own record, and all of it when
      the echo was not cut short. */
  lemma {:induction false} EchoIsSnapshot(v: View, ops: seq<Op>, i: nat)
    requires LegalRun(v, ops) && i < |ops| && ops[i].actor.Client?
    ensures ops[i].echo <= RunOps(v, ops[..i + 1]).file
    ensures !ops[i].cut ==> ops[i].echo == RunOps(v, ops[..i + 1]).file
  {
    LegalAt(v, ops, i);
  }

  /** Complete echoes form a chain of prefixes in the order of the run, whoever they were sent to;
      and any two echoes, complete or not, agree as far as both go. */
  lemma {:induction false} EchoesChain(v: View, ops: seq<Op>, i: nat, j: nat)
    requires LegalRun(v, ops) && i <= j < |ops| && ops[i].actor.Client? && ops[j].actor.Client?
    ensures !ops[j].cut ==> ops[i].echo <= ops[j].echo
    ensures ops[i].echo <= ops[j].echo || ops[j].echo <= ops[i].echo
  {
    EchoIsSnapshot(v, ops, i);
    EchoIsSnapshot(v, ops, j);
    FileGrows(v, ops, i + 1, j + 1);
    PrefixesOfOne(ops[i].echo, ops[j].echo, RunOps(v, ops[..j + 1]).file);
  }

  lemma {:induction false} PrefixesOfOne(a: seq<byte>, b: seq<byte>, c: seq<byte>)
    requires a <= c && b <= c
    ensures a <= b || b <= a
  {
  }
}
