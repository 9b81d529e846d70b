/** The retry loop of `write_all`, one `write` call at a time. */
module WriteLoop {
  import opened Bytes

  const MAX_FAIL_COUNT := 20

  /** What the loop still has to write and how many calls have failed so far. */
  datatype WriteState = WriteState(left: seq<byte>, fails: nat)

  function Start(buf: seq<byte>): WriteState {
    WriteState(buf, 0)
  }

  /** The loop goes round again: bytes are left and the failures have not run out. */
  predicate Active(w: WriteState) {
    w.left != [] && w.fails <= MAX_FAIL_COUNT
  }

  /** The loop returned 0. */
  predicate Finished(w: WriteState) {
    w.left == []
  }

  /** The loop returned -1. */
  predicate GaveUp(w: WriteState) {
    w.left != [] && w.fails > MAX_FAIL_COUNT
  }

  /** `write` takes a nonempty part of the bytes offered, or returns 0 or less. */
  predicate Answers(w: WriteState, reply: int) {
    reply <= |w.left|
  }

  function Step(w: WriteState, reply: int): WriteState
    requires Active(w) && Answers(w, reply)
  {
    if reply <= 0 then w.(fails := w.fails + 1) else w.(left := w.left[reply..])
  }

  /** What one call hands to the descriptor. */
  function Output(w: WriteState, reply: int): seq<byte>
    requires Answers(w, reply)
  {
    if reply <= 0 then [] else w.left[..reply]
  }

  /** Calls that the loop can still make. */
  function CallsLeft(w: WriteState): nat {
    if Active(w) then |w.left| + MAX_FAIL_COUNT + 1 - w.fails else 0
  }

  lemma {:induction false} CallsLeftFalls(w: WriteState, reply: int)
    requires Active(w) && Answers(w, reply)
    ensures CallsLeft(Step(w, reply)) < CallsLeft(w)
  {
  }

  // ---------------------------------------------------------------- the whole loop

  /** What the kernel does with each call on a descriptor, by the number of the call: it moves so
      many bytes, or as many as there are, or it fails. */
  type Schedule = nat -> int

  function Reply(w: WriteState, writes: Schedule, at: nat): (reply: int)
    ensures Answers(w, reply)
  {
    if writes(at) <= |w.left| then writes(at) else |w.left|
  }

  /** Where the loop is, which call is next, and everything it has handed to the descriptor. */
  datatype Writing = Writing(state: WriteState, calls: nat, written: seq<byte>)

  function AfterCall(w: Writing, writes: Schedule): Writing
    requires Active(w.state)
  {
    var reply := Reply(w.state, writes, w.calls);
    Writing(Step(w.state, reply), w.calls + 1, w.written + Output(w.state, reply))
  }

  /** The loop from here to its end. */
  function Finish(w: Writing, writes: Schedule): (e: Writing)
    ensures !Active(e.state)
    decreases CallsLeft(w.state)
  {
    if !Active(w.state) then w
    else
      CallsLeftFalls(w.state, Reply(w.state, writes, w.calls));
      Finish(AfterCall(w, writes), writes)
  }

  /** The whole loop, whose first call has this number. */
  function WriteOut(buf: seq<byte>, writes: Schedule, at: nat): Writing {
    Finish(Writing(Start(buf), at, []), writes)
  }

  /** How many of the calls from one number to another fail. */
  function Failures(writes: Schedule, from: nat, to: nat): nat
    requires from <= to
    decreases if from <= to then to - from else 0
  {
    if from == to then 0 else (if writes(from) <= 0 then 1 else 0) + Failures(writes, from + 1, to)
  }

  /** One call moves bytes from what is left to what is written. */
  lemma {:induction false} CallConserves(w: Writing, writes: Schedule)
    requires Active(w.state)
    ensures AfterCall(w, writes).written + AfterCall(w, writes).state.left == w.written + w.state.left
  {
    var reply := Reply(w.state, writes, w.calls);
    Regroup(w.written, Output(w.state, reply), Step(w.state, reply).left);
    assert Output(w.state, reply) + Step(w.state, reply).left == w.state.left;
  }

  /** Bytes are neither lost nor repeated nor reordered. */
  lemma {:induction false} WriteConserves(w: Writing, writes: Schedule)
    ensures Finish(w, writes).written + Finish(w, writes).state.left == w.written + w.state.left
    decreases CallsLeft(w.state)
  {
    if Active(w.state) {
      CallsLeftFalls(w.state, Reply(w.state, writes, w.calls));
      WriteConserves(AfterCall(w, writes), writes);
      CallConserves(w, writes);
    }
  }

  /** Failures are counted over the whole loop, not between successes, and every other call makes
      progress. */
  lemma {:induction false} WriteCounts(w: Writing, writes: Schedule)
    requires w.state.fails <= MAX_FAIL_COUNT
    ensures var e := Finish(w, writes);
            && w.calls <= e.calls
            && e.state.fails == w.state.fails + Failures(writes, w.calls, e.calls) <= MAX_FAIL_COUNT + 1
            && e.calls - w.calls + |e.state.left| <= |w.state.left| + Failures(writes, w.calls, e.calls)
            && (Finished(e.state) ==> e.state.fails <= MAX_FAIL_COUNT)
    decreases CallsLeft(w.state)
  {
    if Active(w.state) {
      CallsLeftFalls(w.state, Reply(w.state, writes, w.calls));
      if AfterCall(w, writes).state.fails <= MAX_FAIL_COUNT {
        WriteCounts(AfterCall(w, writes), writes);
      }
    }
  }

  lemma {:induction false} PrefixFacts(a: seq<byte>, b: seq<byte>, c: seq<byte>)
    requires a + b == c
    ensures a <= c && (b == [] <==> a == c) && (b != [] <==> a < c)
  {
  }

  /** `write_all` ends within `len + 20` calls. It returns 0 exactly when the descriptor received
      the whole buffer, which is exactly when at most 20 of its calls failed; and -1 exactly when
      it received a strict prefix, which is exactly when 21 of its calls failed. */
  lemma {:induction false} WriteAllOutcome(buf: seq<byte>, writes: Schedule, at: nat)
    ensures var e := WriteOut(buf, writes, at);
            && at <= e.calls <= at + |buf| + 20
            && (Finished(e.state) <==> e.written == buf)
            && (Finished(e.state) <==> Failures(writes, at, e.calls) <= 20)
            && (GaveUp(e.state) <==> e.written < buf)
            && (GaveUp(e.state) <==> Failures(writes, at, e.calls) == 21)
  {
    var w := Writing(Start(buf), at, []);
    WriteConserves(w, writes);
    WriteCounts(w, writes);
    assert [] + buf == buf;
    PrefixFacts(Finish(w, writes).written, Finish(w, writes).state.left, buf);
  }

  /** So many calls fail from this one on. */
  ghost predicate FailAtFirst(writes: Schedule, at: nat, k: nat) {
    forall call: nat | at <= call < at + k :: writes(call) <= 0
  }

  lemma {:induction false} FailuresOnly(w: Writing, writes: Schedule, k: nat)
    requires w.state.left != [] && w.state.fails + k <= 21 && FailAtFirst(writes, w.calls, k)
    ensures Finish(w, writes)
         == Finish(Writing(WriteState(w.state.left, w.state.fails + k), w.calls + k, w.written), writes)
    decreases k
  {
    if k > 0 {
      var next := Writing(WriteState(w.state.left, w.state.fails + 1), w.calls + 1, w.written);
      assert writes(w.calls) <= 0;
      assert AfterCall(w, writes) == next by {
        assert w.written + [] == w.written;
      }
      FailuresOnly(next, writes, k - 1);
    }
  }

  /** Up to 20 failed calls are retried: when the next one takes everything, `write_all` returns 0. */
  lemma {:induction false} FailuresAreRetried(buf: seq<byte>, writes: Schedule, at: nat, k: nat)
    requires buf != [] && k <= 20 && FailAtFirst(writes, at, k) && writes(at + k) >= |buf|
    ensures WriteOut(buf, writes, at) == Writing(WriteState([], k), at + k + 1, buf)
  {
    FailuresOnly(Writing(Start(buf), at, []), writes, k);
    var w := Writing(WriteState(buf, k), at + k, []);
    assert AfterCall(w, writes) == Writing(WriteState([], k), at + k + 1, buf);
  }

  /** And 21 in a row are not: nothing is written, and no further call is made. */
  lemma {:induction false} FailuresExhaust(buf: seq<byte>, writes: Schedule, at: nat)
    requires buf != [] && FailAtFirst(writes, at, 21)
    ensures WriteOut(buf, writes, at) == Writing(WriteState(buf, 21), at + 21, [])
  {
    FailuresOnly(Writing(Start(buf), at, []), writes, 21);
  }

  /** A call can take any part of what is left, or fail. */
  lemma {:induction false} AnyPartIsTaken(w: WriteState, writes: Schedule, at: nat)
    ensures writes(at) <= |w.left| ==> Reply(w, writes, at) == writes(at)
    ensures writes(at) > |w.left| ==> Reply(w, writes, at) == |w.left|
  {
  }
}
