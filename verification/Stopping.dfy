/** Which buffers the drain loop stops on. */
module Stopping {
  import opened Bytes
  import opened Splitting
  import opened Splitter

  // ---------------------------------------------------------------- lines of a shifted buffer

  lemma {:induction false} TerminatedJoin(a: seq<seq<byte>>, b: seq<seq<byte>>)
    ensures Terminated(a + b) == Terminated(a) + Terminated(b)
  {
    if a == [] {
      assert a + b == b;
    } else {
      TerminatedJoin(a[1..], b);
      assert (a + b)[1..] == a[1..] + b;
      Regroup(a[0] + [NEWLINE], Terminated(a[1..]), Terminated(b));
    }
  }

  /** Splitting a concatenation: the rest of the first part and the first line of the second make one
      line. */
  lemma {:induction false} LinesJoin(a: seq<byte>, b: seq<byte>)
    requires HasNewline(b)
    ensures |Lines(b)| >= 1
    ensures Lines(a + b) == Lines(a) + ([Rest(a) + Lines(b)[0]] + Lines(b)[1..])
    ensures Rest(a + b) == Rest(b)
  {
    var i := FirstNewline(b);
    var later := b[i + 1..];
    SplitStep(b);
    SplitJoins(a);
    SplitJoins(later);
    var middle := Rest(a) + b[..i];
    var lines := Lines(a) + ([middle] + Lines(later));
    JoinedBytes(a, b, Lines(a), Rest(a), b[..i], later);
    TerminatedJoin(Lines(a), [middle] + Lines(later));
    TerminatedCons(middle, Lines(later), Rest(later));
    Regroup(Terminated(Lines(a)), Terminated([middle] + Lines(later)), Rest(later));
    SplitUnique(lines, Rest(b));
  }

  lemma {:induction false} JoinedBytes(a: seq<byte>, b: seq<byte>, lines: seq<seq<byte>>, rest: seq<byte>,
                                       first: seq<byte>, later: seq<byte>)
    requires a == Terminated(lines) + rest && b == first + [NEWLINE] + later
    ensures a + b == Terminated(lines) + ((rest + first) + [NEWLINE] + later)
  {
  }

  /** The bytes behind the last newline. */
  lemma {:induction false} RestLength(b: seq<byte>)
    ensures |b| == |Terminated(Lines(b))| + |Rest(b)|
  {
    SplitJoins(b);
  }

  lemma {:induction false} LinesMeanNewline(b: seq<byte>)
    ensures HasNewline(b) <==> Lines(b) != []
    ensures HasNewline(b) ==>
              Lines(b)[0] == b[..FirstNewline(b)] && Lines(b)[1..] == Lines(b[FirstNewline(b) + 1..])
              && Rest(b) == Rest(b[FirstNewline(b) + 1..])
  {
    if HasNewline(b) {
      SplitStep(b);
    } else {
      SplitNone(b);
    }
  }

  lemma {:induction false} FrontJoins(front: seq<byte>, later: seq<byte>)
    requires !HasNewline(front) && HasNewline(later)
    ensures |Lines(later)| >= 1
    ensures Lines(front + later) == [front + Lines(later)[0]] + Lines(later)[1..] && Rest(front + later) == Rest(later)
  {
    LinesJoin(front, later);
    SplitNone(front);
  }

  /** The buffer once the first newline has been overwritten: its first two lines have become one. */
  lemma {:induction false} CutLines(b: seq<byte>)
    requires |Lines(b)| >= 2
    ensures HasNewline(b)
    ensures var c := b[FirstNewline(b) := NUL];
            && Lines(c) == [Lines(b)[0] + [NUL] + Lines(b)[1]] + Lines(b)[2..] && Rest(c) == Rest(b)
  {
    LinesMeanNewline(b);
    var i := FirstNewline(b);
    var front, later := b[..i] + [NUL], b[i + 1..];
    LinesMeanNewline(later);
    FrontJoins(front, later);
    Overwritten(b, i, NUL);
    assert Lines(b)[1..][1..] == Lines(b)[2..];
  }

  /** What an extraction leaves behind ends like the buffer, and all its lines but the first are lines
      of the buffer, or the first two of them with what lies between. */
  lemma {:induction false} StaleLines(b: seq<byte>)
    requires HasNewline(b) && HasNewline(Stale(b))
    ensures 1 <= |Lines(Stale(b))| < |Lines(b)| && Rest(Stale(b)) == Rest(b)
    ensures forall l | l in Lines(Stale(b))[1..] ::
              l in Lines(b) || l == Lines(b)[0] + [NUL] + Lines(b)[1]
  {
    StaleNewline(b);
    CutLines(b);
    var i := FirstNewline(b);
    var c := b[i := NUL];
    var m := |b| - i - 1;
    LinesJoin(c[..m], Stale(b));
    TakeDrop(c, m);
    assert forall l | l in Lines(Stale(b))[1..] :: l in Lines(c);
  }

  /** The lines after an extraction that leaves a newline behind: the first line goes, and those of
      the bytes left behind are added. */
  lemma {:induction false} ShiftedLines(b: seq<byte>)
    requires HasNewline(b) && HasNewline(Stale(b))
    ensures |Lines(b)| >= 2 && |Lines(Stale(b))| >= 1 && Rest(Shifted(b)) == Rest(b)
    ensures var (lines, stale) := (Lines(b), Lines(Stale(b)));
            Lines(Shifted(b)) == lines[1..] + ([Rest(b) + stale[0]] + stale[1..])
  {
    var later := b[FirstNewline(b) + 1..];
    StaleLines(b);
    LinesMeanNewline(b);
    LinesJoin(later, Stale(b));
    assert Shifted(b) == later + Stale(b);
  }

  /** Such an extraction leaves the last newline in its place. */
  lemma {:induction false} LastStays(b: seq<byte>)
    requires HasNewline(b) && HasNewline(Stale(b))
    ensures |Lines(b)| >= 2 && Lines(b)[1..] <= Lines(Shifted(b)) && |Lines(b)| <= |Lines(Shifted(b))|
    ensures |Terminated(Lines(Shifted(b)))| == |Terminated(Lines(b))|
  {
    ShiftedLines(b);
    RestLength(b);
    RestLength(Shifted(b));
  }

  /** And no line gets shorter than the shortest of the lines and the rest were. */
  lemma {:induction false} LengthStays(b: seq<byte>, min: nat)
    requires HasNewline(b) && HasNewline(Stale(b))
    requires |Rest(b)| >= min && forall l | l in Lines(b) :: |l| >= min
    ensures forall l | l in Lines(Shifted(b)) :: |l| >= min
  {
    ShiftedLines(b);
    StaleLines(b);
    assert Lines(b)[0] in Lines(b);
  }

  // ---------------------------------------------------------------- lines that are too long

  /** Two lines or more, and each with its newline is longer than what is behind the last newline. */
  predicate TooLong(lines: seq<seq<byte>>, len: nat) {
    |lines| >= 2 && forall l | l in lines :: |l| + 1 + |Terminated(lines)| > len
  }

  lemma {:induction false} TooLongStays(b: seq<byte>)
    requires TooLong(Lines(b), |b|)
    ensures HasNewline(b) && TooLong(Lines(Shifted(b)), |b|)
  {
    if !HasNewline(b) {
      SplitNone(b);
    }
    var first := Lines(b)[0];
    assert first in Lines(b);
    StaleNewline(b);
    LastStays(b);
    RestLength(b);
    LengthStays(b, |Rest(b)|);
  }

  lemma {:induction false} AfterFirst(b: seq<byte>, m: nat, n: nat)
    requires HasNewline(b) && n == m + 1
    ensures Drain(b, n).buf == Drain(Shifted(b), m).buf
    ensures Stops(b, n) <==> Stops(Shifted(b), m)
  {
    DrainFirst(b, m);
  }

  /** On such a buffer the drain loop never stops, however many lines there are. */
  lemma {:induction false} DrainDiverges(b: seq<byte>, steps: nat)
    requires TooLong(Lines(b), |b|)
    ensures !Stops(b, steps)
    decreases steps
  {
    TooLongStays(b);
    if steps > 0 {
      var m := steps - 1;
      DrainDiverges(Shifted(b), m);
      AfterFirst(b, m, steps);
    }
  }

  // ---------------------------------------------------------------- and otherwise it gets there or stops

  lemma {:induction false} DrainUnfolds(b: seq<byte>, steps: nat, next: nat)
    requires next == steps + 1
    ensures Drain(b, next) == DrainRound(Drain(b, steps))
  {
  }

  lemma {:induction false} DrainFrom(b: seq<byte>, first: nat, more: nat, all: nat)
    requires all == first + more
    ensures Drain(b, all).buf == Drain(Drain(b, first).buf, more).buf
    decreases more
  {
    if more > 0 {
      var m, n := more - 1, all - 1;
      DrainFrom(b, first, m, n);
      DrainUnfolds(b, n, all);
      DrainUnfolds(Drain(b, first).buf, m, more);
    }
  }

  /** The line with its newline is no longer than what is behind the last newline. */
  predicate Fits(lines: seq<seq<byte>>, j: nat, len: nat)
    requires j < |lines|
  {
    |lines[j]| + 1 + |Terminated(lines)| <= len
  }

  /** The next extraction takes off the first line and leaves no newline behind. */
  predicate IsClean(b: seq<byte>) {
    HasNewline(b) && !HasNewline(Stale(b))
  }

  lemma {:induction false} LineMovesUp(lines: seq<seq<byte>>, next: seq<seq<byte>>, j: nat)
    requires 0 < j < |lines| && lines[1..] <= next
    ensures j - 1 < |next| && next[j - 1] == lines[j]
  {
    assert next[j - 1] == lines[1..][j - 1];
  }

  /** An extraction that is not clean brings a line that fits one place nearer to the front. */
  lemma {:induction false} FitMovesUp(b: seq<byte>, j: nat)
    requires j < |Lines(b)| && Fits(Lines(b), j, |b|) && HasNewline(b) && HasNewline(Stale(b))
    ensures 0 < j <= |Lines(Shifted(b))| && Fits(Lines(Shifted(b)), j - 1, |b|)
    ensures |Terminated(Lines(Shifted(b)))| == |Terminated(Lines(b))|
  {
    StaleNewline(b);
    LastStays(b);
    LineMovesUp(Lines(b), Lines(Shifted(b)), j);
  }

  /** A line that fits comes to the front within as many rounds as there are lines before it, unless
      another clean extraction comes first; until then the last newline stays in its place. */
  lemma {:induction false} GetsClean(b: seq<byte>, j: nat) returns (n: nat)
    requires j < |Lines(b)| && Fits(Lines(b), j, |b|)
    ensures n <= j && IsClean(Drain(b, n).buf)
    ensures |Terminated(Lines(Drain(b, n).buf))| == |Terminated(Lines(b))|
    decreases j
  {
    LinesMeanNewline(b);
    if HasNewline(Stale(b)) {
      FitMovesUp(b, j);
      var m := GetsClean(Shifted(b), j - 1);
      n := m + 1;
      AfterFirst(b, m, n);
    } else {
      n := 0;
      assert Drain(b, 0).buf == b;
    }
  }

  lemma {:induction false} CleanShortens(b: seq<byte>)
    requires IsClean(b)
    ensures |Terminated(Lines(Shifted(b)))| < |Terminated(Lines(b))|
  {
    LinesMeanNewline(b);
    CleanExtraction(b);
    TerminatedCons(Lines(b)[0], Lines(b)[1..], []);
    assert [Lines(b)[0]] + Lines(b)[1..] == Lines(b);
  }

  lemma {:induction false} FewLines(lines: seq<seq<byte>>)
    ensures |lines| <= |Terminated(lines)|
  {
    if lines != [] {
      FewLines(lines[1..]);
    }
  }

  /** A single line fits, or is at least extracted cleanly; of more, one fits unless all are too long. */
  lemma {:induction false} NextClean(b: seq<byte>) returns (n: nat)
    requires HasNewline(b) && !TooLong(Lines(b), |b|)
    ensures n < |Lines(b)| && IsClean(Drain(b, n).buf)
    ensures |Terminated(Lines(Drain(b, n).buf))| == |Terminated(Lines(b))|
  {
    LinesMeanNewline(b);
    if |Lines(b)| == 1 {
      StaleNewline(b);
      n := 0;
    } else {
      var j :| 0 <= j < |Lines(b)| && |Lines(b)[j]| + 1 + |Terminated(Lines(b))| <= |b|;
      n := GetsClean(b, j);
    }
  }

  /** Rounds after which it is decided whether the loop stops. */
  function Patience(b: seq<byte>): nat {
    |Terminated(Lines(b))| * |Terminated(Lines(b))|
  }

  lemma {:induction false} SquareBound(n: nat, lines: nat, t: nat, u: nat)
    requires n < lines <= t && u < t
    ensures n + 1 + u * u <= t * t
  {
    assert u * u <= (t - 1) * (t - 1) by {
      assert u * u <= u * (t - 1) <= (t - 1) * (t - 1);
    }
    assert (t - 1) * (t - 1) + t <= t * t;
  }

  lemma {:induction false} RoundsInAll(b: seq<byte>, m: nat, c: seq<byte>, k: nat, n: nat)
    requires c == Drain(b, m).buf && HasNewline(c) && n == m + 1 + k
    ensures Drain(b, n).buf == Drain(Shifted(c), k).buf
  {
    var next := m + 1;
    DrainUnfolds(b, m, next);
    DrainFrom(b, next, k, n);
  }

  /** Within that many rounds the loop stops, or reaches lines that are all too long. */
  lemma {:induction false} StopsOrGetsTooLong(b: seq<byte>) returns (n: nat)
    ensures n <= Patience(b)
    ensures Stops(b, n) || TooLong(Lines(Drain(b, n).buf), |b|)
    decreases |Terminated(Lines(b))|
  {
    n := 0;
    if HasNewline(b) && !TooLong(Lines(b), |b|) {
      var m := NextClean(b);
      var c := Drain(b, m).buf;
      CleanShortens(c);
      var k := StopsOrGetsTooLong(Shifted(c));
      n := m + 1 + k;
      RoundsInAll(b, m, c, k, n);
      FewLines(Lines(b));
      SquareBound(m, |Lines(b)|, |Terminated(Lines(b))|, |Terminated(Lines(Shifted(c)))|);
    }
  }

  lemma {:induction false} TooLongNeverStops(b: seq<byte>, n: nat, steps: nat)
    ensures TooLong(Lines(Drain(b, n).buf), |b|) ==> !Stops(b, steps)
  {
    var c := Drain(b, n).buf;
    if TooLong(Lines(c), |b|) {
      if steps < n {
        DrainDiverges(c, 0);
        assert Drain(c, 0).buf == c;
        if Stops(b, steps) {
          DrainStable(b, steps, n);
        }
      } else {
        var more := steps - n;
        DrainDiverges(c, more);
        DrainFrom(b, n, more, steps);
      }
    }
  }

  /** The drain loop stops on a buffer if and only if it never reaches lines that are all too long;
      this is decided after as many rounds as the square of the place of the last newline, and if the
      loop has not stopped by then it never does. */
  lemma {:induction false} StoppingIsDecided(b: seq<byte>)
    ensures (exists n: nat :: Stops(b, n)) <==>
            forall n: nat | n <= Patience(b) :: !TooLong(Lines(Drain(b, n).buf), |b|)
    ensures (exists n: nat :: Stops(b, n)) <==> Stops(b, Patience(b))
  {
    var m := StopsOrGetsTooLong(b);
    if Stops(b, m) {
      DrainStable(b, m, Patience(b));
      forall n: nat | n <= Patience(b) ensures !TooLong(Lines(Drain(b, n).buf), |b|) {
        TooLongNeverStops(b, n, Patience(b));
      }
    } else {
      forall n: nat ensures !Stops(b, n) {
        TooLongNeverStops(b, m, n);
      }
    }
  }

  // ---------------------------------------------------------------- two lines

  lemma {:induction false} FirstOfTwoFits(b: seq<byte>)
    requires |Lines(b)| == 2 && Fits(Lines(b), 0, |b|)
    ensures Stops(b, 2)
  {
    assert Lines(b)[0..] == Lines(b);
    DrainWithSlack(b);
  }

  /** With two lines the condition is clear from the start: the loop stops after two packets if the
      first fits, after three if only the second does, and never if neither does. */
  lemma {:induction false} TwoLines(b: seq<byte>)
    requires |Lines(b)| == 2
    ensures (exists n: nat :: Stops(b, n)) <==> Fits(Lines(b), 0, |b|) || Fits(Lines(b), 1, |b|)
    ensures Fits(Lines(b), 0, |b|) ==> Stops(b, 2)
    ensures !Fits(Lines(b), 0, |b|) && Fits(Lines(b), 1, |b|) ==> Stops(b, 3)
  {
    if Fits(Lines(b), 0, |b|) {
      FirstOfTwoFits(b);
    } else if Fits(Lines(b), 1, |b|) {
      LinesMeanNewline(b);
      StaleNewline(b);
      ShiftedLines(b);
      LastStays(b);
      StaleLines(b);
      FirstOfTwoFits(Shifted(b));
      StopsLater(b, 2);
    } else {
      forall n: nat ensures !Stops(b, n) {
        DrainDiverges(b, n);
      }
    }
  }

  /** The newlines of the buffer are exactly at `p` and `q`. */
  predicate NewlinesAt(b: seq<byte>, p: nat, q: nat) {
    p < q < |b| && forall k | 0 <= k < |b| :: b[k] == NEWLINE <==> k == p || k == q
  }

  lemma {:induction false} LinesOfOne(b: seq<byte>, q: nat)
    requires q < |b| && forall k | 0 <= k < |b| :: b[k] == NEWLINE <==> k == q
    ensures Lines(b) == [b[..q]] && |Rest(b)| == |b| - q - 1
  {
    assert b[q] == NEWLINE;
    FirstNewlineAt(b, q);
    SplitNone(b[q + 1..]);
    SplitStep(b);
  }

  lemma {:induction false} LinesOfTwo(b: seq<byte>, p: nat, q: nat)
    requires NewlinesAt(b, p, q)
    ensures |Lines(b)| == 2 && |Lines(b)[0]| == p && |Lines(b)[1]| == q - p - 1
    ensures |Terminated(Lines(b))| == q + 1
  {
    assert b[p] == NEWLINE;
    FirstNewlineAt(b, p);
    LinesOfOne(b[p + 1..], q - p - 1);
    SplitStep(b);
    RestLength(b);
  }

  /** The same by the places of two newlines. */
  lemma {:induction false} TwoNewlines(b: seq<byte>, p: nat, q: nat)
    requires NewlinesAt(b, p, q)
    ensures (exists n: nat :: Stops(b, n)) <==> p + q + 1 < |b| || 2 * q < |b| + p
  {
    LinesOfTwo(b, p, q);
    TwoLines(b);
  }
}
