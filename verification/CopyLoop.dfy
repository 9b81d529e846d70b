/** The loop of `duplicate_data_across_fds`: read a piece, write it out, until nothing is left. */
module CopyLoop {
  import opened Bytes
  import opened WriteLoop

  const MAX_BUF_SIZE := 1024

  /** `read` fails, is at the end, or copies a nonempty part of what follows the offset. */
  function ReadReply(file: seq<byte>, offset: nat, onRead: Schedule, r: nat): (n: int)
    requires offset <= |file|
    ensures n <= MAX_BUF_SIZE && n <= |file| - offset
    ensures n == 0 ==> offset == |file|
  {
    var room := if |file| - offset < MAX_BUF_SIZE then |file| - offset else MAX_BUF_SIZE;
    var answer := onRead(r);
    if answer < 0 then -1
    else if answer == 0 && room > 0 then 1
    else if answer < room then answer else room
  }

  /** A call can read any part of what follows, up to 1024 bytes, or fail. */
  lemma {:induction false} AnyPieceIsRead(file: seq<byte>, offset: nat, onRead: Schedule, r: nat)
    requires offset <= |file|
    ensures onRead(r) < 0 ==> ReadReply(file, offset, onRead, r) == -1
    ensures 0 < onRead(r) <= 1024 && offset + onRead(r) <= |file| ==> ReadReply(file, offset, onRead, r) == onRead(r)
    ensures ReadReply(file, offset, onRead, r) <= 1024
  {
  }

  /** Where the loop is: the offset, the next calls, everything sent, and why it has stopped early,
      if it has: a `read` failed, or the `write_all` of a piece gave up. */
  datatype Copying = Copying(
    offset: nat, nextRead: nat, nextSend: nat, sent: seq<byte>, readFailed: bool, refused: bool)

  predicate Cut(c: Copying) {
    c.readFailed || c.refused
  }

  /** One round: a `read`, and the `write_all` of what it has read. */
  function Round(file: seq<byte>, c: Copying, onRead: Schedule, onSend: Schedule): (d: Copying)
    requires c.offset <= |file|
    ensures c.offset <= d.offset <= |file|
  {
    var n := ReadReply(file, c.offset, onRead, c.nextRead);
    if n <= 0 then c.(nextRead := c.nextRead + 1, readFailed := n < 0)
    else
      var piece := WriteOut(file[c.offset..c.offset + n], onSend, c.nextSend);
      Copying(c.offset + n, c.nextRead + 1, piece.calls, c.sent + piece.written, false, GaveUp(piece.state))
  }

  /** The loop from its next `read` to its end. */
  function Copy(file: seq<byte>, c: Copying, onRead: Schedule, onSend: Schedule): Copying
    requires c.offset <= |file|
    decreases |file| - c.offset
  {
    var d := Round(file, c, onRead, onSend);
    if d.offset == c.offset || d.refused then d else Copy(file, d, onRead, onSend)
  }

  lemma {:induction false} CopyEnds(file: seq<byte>, c: Copying, onRead: Schedule, onSend: Schedule)
    requires c.offset <= |file| && ReadReply(file, c.offset, onRead, c.nextRead) <= 0
    ensures var n := ReadReply(file, c.offset, onRead, c.nextRead);
            Copy(file, c, onRead, onSend) == c.(nextRead := c.nextRead + 1, readFailed := n < 0)
  {
  }

  lemma {:induction false} CopyGoesOn(file: seq<byte>, c: Copying, n: nat, onRead: Schedule, onSend: Schedule)
    requires c.offset <= |file| && 0 < n == ReadReply(file, c.offset, onRead, c.nextRead)
    ensures var piece := WriteOut(file[c.offset..c.offset + n], onSend, c.nextSend);
            var d := Round(file, c, onRead, onSend);
            && d == Copying(c.offset + n, c.nextRead + 1, piece.calls, c.sent + piece.written, false,
                            GaveUp(piece.state))
            && Copy(file, c, onRead, onSend) == if d.refused then d else Copy(file, d, onRead, onSend)
  {
  }

  /** The loop at its start. */
  function CopyStart(offset: nat, r: nat, s: nat): Copying {
    Copying(offset, r, s, [], false, false)
  }

  /** So far the loop has sent what lies between these two offsets. */
  predicate SentSince(file: seq<byte>, start: nat, c: Copying) {
    start <= c.offset <= |file| && c.sent == file[start..c.offset]
  }

  lemma {:induction false} PrefixOfConcat(a: seq<byte>, b: seq<byte>, c: seq<byte>)
    requires b <= c
    ensures a + b <= a + c
  {
  }

  /** One round: nothing happens at the end or when the `read` fails; otherwise a piece is sent in
      full, or part of it is and the loop ends. */
  lemma {:induction false} RoundSends(file: seq<byte>, start: nat, c: Copying, onRead: Schedule, onSend: Schedule)
    requires SentSince(file, start, c) && !Cut(c)
    ensures var d := Round(file, c, onRead, onSend);
            && (d.refused ==> d.sent <= file[start..])
            && (!d.refused ==> SentSince(file, start, d))
            && (d.offset == c.offset && !d.readFailed ==> d.offset == |file|)
  {
    var n := ReadReply(file, c.offset, onRead, c.nextRead);
    if n > 0 {
      var piece := file[c.offset..c.offset + n];
      WriteAllOutcome(piece, onSend, c.nextSend);
      PrefixOfConcat(c.sent, WriteOut(piece, onSend, c.nextSend).written, piece);
      assert c.sent + piece == file[start..c.offset + n] <= file[start..];
    }
  }

  /** What is sent is a prefix of what follows the first offset, and all of it unless the loop was
      cut short. */
  lemma {:induction false} CopySendsPrefix(file: seq<byte>, start: nat, c: Copying, onRead: Schedule, onSend: Schedule)
    requires SentSince(file, start, c) && !Cut(c)
    ensures var e := Copy(file, c, onRead, onSend);
            e.sent <= file[start..] && (!Cut(e) ==> e.sent == file[start..])
    decreases |file| - c.offset
  {
    RoundSends(file, start, c, onRead, onSend);
    var d := Round(file, c, onRead, onSend);
    if d.offset > c.offset && !d.refused {
      CopySendsPrefix(file, start, d, onRead, onSend);
    }
  }

  /** Whether a call from one number to another is a failed `read`. */
  predicate ReadFails(onRead: Schedule, from: nat, to: nat) {
    exists k: nat :: from <= k < to && onRead(k) < 0
  }

  lemma {:induction false} FailuresAdd(writes: Schedule, from: nat, mid: nat, to: nat)
    requires from <= mid <= to
    ensures Failures(writes, from, to) == Failures(writes, from, mid) + Failures(writes, mid, to)
    decreases if from <= mid then mid - from else 0
  {
    if from < mid {
      FailuresAdd(writes, from + 1, mid, to);
    }
  }

  lemma {:induction false} RoundFails(file: seq<byte>, c: Copying, onRead: Schedule, onSend: Schedule)
    requires c.offset <= |file| && !Cut(c)
    ensures var d := Round(file, c, onRead, onSend);
            && d.nextRead == c.nextRead + 1 && c.nextSend <= d.nextSend
            && (d.readFailed <==> onRead(c.nextRead) < 0) && (d.readFailed ==> d.offset == c.offset)
            && (d.refused ==> Failures(onSend, c.nextSend, d.nextSend) > 20)
  {
    var n := ReadReply(file, c.offset, onRead, c.nextRead);
    if n > 0 {
      WriteAllOutcome(file[c.offset..c.offset + n], onSend, c.nextSend);
    }
  }

  /** The loop is cut short only by a failed `read` or by 21 failed writes to the socket: it stops
      at the first failed `read`, and it gives up only after that many failures. */
  lemma {:induction false} CopyIsCutByFailures(file: seq<byte>, c: Copying, onRead: Schedule, onSend: Schedule)
    requires c.offset <= |file| && !Cut(c)
    ensures var e := Copy(file, c, onRead, onSend);
            && c.nextRead < e.nextRead && c.nextSend <= e.nextSend
            && (e.readFailed <==> ReadFails(onRead, c.nextRead, e.nextRead))
            && (e.refused ==> Failures(onSend, c.nextSend, e.nextSend) > 20)
    decreases |file| - c.offset
  {
    RoundFails(file, c, onRead, onSend);
    var d := Round(file, c, onRead, onSend);
    if d.offset > c.offset && !d.refused {
      CopyIsCutByFailures(file, d, onRead, onSend);
      FailuresAdd(onSend, c.nextSend, d.nextSend, Copy(file, d, onRead, onSend).nextSend);
    }
  }
}
