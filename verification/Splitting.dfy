/** The simple specification of splitting: cut a byte string at its newlines. */
module Splitting {
  import opened Bytes

  /** Index of the first newline, or the length when there is none. */
  function FirstNewline(b: seq<byte>): (i: nat)
    ensures i <= |b|
    ensures NEWLINE !in b[..i]
    ensures i < |b| ==> b[i] == NEWLINE
    ensures i < |b| <==> HasNewline(b)
  {
    if b == [] || b[0] == NEWLINE then 0
    else
      var i := 1 + FirstNewline(b[1..]);
      assert b[..i] == [b[0]] + b[1..][..i - 1];
      i
  }

  /** The newline-terminated lines, without their newlines. */
  function Lines(b: seq<byte>): seq<seq<byte>> {
    var i := FirstNewline(b);
    if i == |b| then [] else [b[..i]] + Lines(b[i + 1..])
  }

  /** What follows the last newline. */
  function Rest(b: seq<byte>): seq<byte> {
    var i := FirstNewline(b);
    if i == |b| then b else Rest(b[i + 1..])
  }

  /** Every line followed by its newline. */
  function Terminated(lines: seq<seq<byte>>): seq<byte> {
    if lines == [] then [] else lines[0] + [NEWLINE] + Terminated(lines[1..])
  }

  predicate NewlineFree(lines: seq<seq<byte>>) {
    forall l | l in lines :: !HasNewline(l)
  }

  lemma {:induction false} FirstNewlineAt(b: seq<byte>, i: nat)
    requires i < |b| && b[i] == NEWLINE && !HasNewline(b[..i])
    ensures FirstNewline(b) == i
  {
    var f := FirstNewline(b);
    assert forall k | 0 <= k < i :: b[..i][k] == b[k] != NEWLINE;
    assert forall k | 0 <= k < f :: b[..f][k] == b[k] != NEWLINE;
  }

  /** One step of the definitions. */
  lemma {:induction false} SplitStep(b: seq<byte>)
    requires HasNewline(b)
    ensures var i := FirstNewline(b);
            && b == b[..i] + [NEWLINE] + b[i + 1..]
            && Lines(b) == [b[..i]] + Lines(b[i + 1..]) && Rest(b) == Rest(b[i + 1..])
  {
  }

  lemma {:induction false} TerminatedCons(line: seq<byte>, lines: seq<seq<byte>>, rest: seq<byte>)
    ensures Terminated([line] + lines) + rest == line + [NEWLINE] + (Terminated(lines) + rest)
  {
    assert ([line] + lines)[1..] == lines;
  }

  /** Splitting loses nothing and leaves no newline behind. */
  lemma {:induction false} SplitJoins(b: seq<byte>)
    ensures Terminated(Lines(b)) + Rest(b) == b
    ensures NewlineFree(Lines(b)) && !HasNewline(Rest(b))
    decreases |b|
  {
    if HasNewline(b) {
      var i := FirstNewline(b);
      SplitJoins(b[i + 1..]);
      SplitStep(b);
      TerminatedCons(b[..i], Lines(b[i + 1..]), Rest(b[i + 1..]));
    } else {
      SplitNone(b);
    }
  }

  /** Splitting a string that starts with a terminated line. */
  lemma {:induction false} SplitCons(line: seq<byte>, tail: seq<byte>)
    requires !HasNewline(line)
    ensures Lines(line + [NEWLINE] + tail) == [line] + Lines(tail)
    ensures Rest(line + [NEWLINE] + tail) == Rest(tail)
  {
    var b := line + [NEWLINE] + tail;
    assert b[..|line|] == line && b[|line| + 1..] == tail;
    FirstNewlineAt(b, |line|);
  }

  lemma {:induction false} SplitNone(b: seq<byte>)
    requires !HasNewline(b)
    ensures Lines(b) == [] && Rest(b) == b
  {
  }

  /** Only one way of cutting a byte string into newline-free lines and a newline-free rest. */
  lemma {:induction false} SplitUnique(lines: seq<seq<byte>>, rest: seq<byte>)
    requires NewlineFree(lines) && !HasNewline(rest)
    ensures Lines(Terminated(lines) + rest) == lines
    ensures Rest(Terminated(lines) + rest) == rest
    decreases |lines|
  {
    if lines == [] {
      assert Terminated(lines) + rest == rest;
      SplitNone(rest);
    } else {
      var line, later := lines[0], lines[1..];
      assert lines == [line] + later && line in lines;
      SplitUnique(later, rest);
      TerminatedCons(line, later, rest);
      SplitCons(line, Terminated(later) + rest);
    }
  }

  /** Newline-free bytes at the end only lengthen the rest. */
  lemma {:induction false} LinesAppend(b: seq<byte>, tail: seq<byte>)
    requires !HasNewline(tail)
    ensures Lines(b + tail) == Lines(b) && Rest(b + tail) == Rest(b) + tail
  {
    SplitJoins(b);
    var t, r := Terminated(Lines(b)), Rest(b);
    assert (t + r) + tail == t + (r + tail);
    SplitUnique(Lines(b), r + tail);
  }

  /** The lines of a string are as many as its newlines. */
  lemma {:induction false} LineCount(b: seq<byte>)
    ensures |Lines(b)| == multiset(b)[NEWLINE]
    decreases |b|
  {
    if HasNewline(b) {
      var i := FirstNewline(b);
      LineCount(b[i + 1..]);
      SplitStep(b);
      assert multiset(b) == multiset(b[..i]) + multiset{NEWLINE} + multiset(b[i + 1..]);
      assert multiset(b[..i])[NEWLINE] == 0;
    } else {
      SplitNone(b);
    }
  }
}
