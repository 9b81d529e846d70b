/** From the bytes one client sends to the packets handled for it. */
module Handling {
  import opened Bytes
  import opened Splitting
  import opened Splitter
  import opened Stopping
  import opened Receiving

  /** The zeros behind the received bytes add no line. */
  lemma {:induction false} LinesOfFinal(received: seq<byte>)
    ensures Lines(Final(received)) == Lines(received)
  {
    LinesAppend(received, Zeros(CHUNK - |received| % CHUNK));
  }

  /** What a client may send for the server to handle exactly its lines: a last read that is short,
      lines with slack, and no NUL in a line; or no line at all. */
  predicate HandledExactly(received: seq<byte>) {
    || Lines(received) == []
    || (|received| % CHUNK != 0 && Slack(Lines(received), |Final(received)|) && NulFree(Lines(received)))
  }

  /** The lines of the bytes read are those of everything sent exactly if nothing that comes after
      them holds a newline. */
  lemma {:induction false} LinesOfAllSent(received: seq<byte>, unread: seq<byte>)
    ensures Lines(received) == Lines(received + unread) <==> !HasNewline(unread)
  {
    if HasNewline(unread) {
      LineCount(received);
      LineCount(received + unread);
      assert NEWLINE in multiset(unread);
    } else {
      LinesAppend(received, unread);
    }
  }

  /** Whenever the drain loop stops, it has cut off the same packets. */
  lemma {:induction false} DrainOutcome(b: seq<byte>, steps: nat)
    requires Stops(b, steps)
    ensures Drain(b, steps).packets == Lines(b) <==> Slack(Lines(b), |b|) && NulFree(Lines(b))
  {
    DrainEqualsSplit(b);
    forall more: nat | Stops(b, more) ensures Drain(b, more) == Drain(b, steps) {
      if more <= steps {
        DrainStable(b, more, steps);
      } else {
        DrainStable(b, steps, more);
      }
    }
  }

  /** The drain loop stops on the buffer with these bytes. */
  predicate DrainStops(received: seq<byte>) {
    Stops(Final(received), Patience(Final(received)))
  }

  /** What can be received includes buffers on which the drain loop never stops: all with two or more
      lines that are all too long. Whether it stops is decided after as many rounds as the square of
      the length of all lines. */
  lemma {:induction false} SomeDrainsNeverStop(received: seq<byte>)
    ensures Patience(Final(received)) == |Terminated(Lines(received))| * |Terminated(Lines(received))|
    ensures (exists n: nat :: Stops(Final(received), n)) <==> DrainStops(received)
    ensures TooLong(Lines(received), |Final(received)|) ==> !DrainStops(received)
    ensures |Lines(received)| == 2 ==> (TooLong(Lines(received), |Final(received)|) <==> !DrainStops(received))
  {
    var b := Final(received);
    LinesOfFinal(received);
    StoppingIsDecided(b);
    if TooLong(Lines(b), |b|) {
      DrainDiverges(b, Patience(b));
    }
    if |Lines(b)| == 2 {
      TwoLines(b);
    }
  }

  lemma {:induction false} SuffixIsShorter(lines: seq<seq<byte>>, j: nat)
    requires j < |lines|
    ensures |lines[j]| + 1 <= |Terminated(lines[j..])| <= |Terminated(lines)|
  {
    if j == 0 {
      assert lines[0..] == lines;
    } else {
      assert lines[1..][j - 1..] == lines[j..];
      SuffixIsShorter(lines[1..], j - 1);
    }
  }

  /** Two simple ways to be handled exactly: to send a single line, or to end with a read that
      leaves at least half of the whole buffer unused. */
  lemma {:induction false} SimpleClientsAreHandled(received: seq<byte>)
    requires |received| % CHUNK != 0 && NulFree(Lines(received))
    requires |Lines(received)| <= 1 || 2 * |received| <= |Final(received)|
    ensures HandledExactly(received)
  {
    var lines := Lines(received);
    SplitJoins(received);
    forall j | 0 <= j < |lines| - 1 ensures HasSlack(lines, j, |Final(received)|) {
      SuffixIsShorter(lines, j);
    }
  }

  lemma {:induction false} OneLine(line: seq<byte>)
    requires !HasNewline(line)
    ensures Lines(line + [NEWLINE]) == [line]
  {
    SplitCons(line, []);
    assert line + [NEWLINE] + [] == line + [NEWLINE];
    SplitNone([]);
  }

  lemma {:induction false} OneLineDrain(line: seq<byte>, b: seq<byte>)
    requires NUL !in line && Lines(b) == [line]
    ensures Stops(b, 1) && Drain(b, 1).packets == [line]
  {
    DrainWithSlack(b);
    CStringIsPrefix(line);
    assert CStrings([line]) == [line];
  }

  lemma {:induction false} OneLineIsHandled(line: seq<byte>)
    requires !HasNewline(line) && NUL !in line && |line| + 1 < CHUNK
    ensures HandledExactly(line + [NEWLINE])
  {
    OneLine(line);
    LastChunk(0, |line| + 1);
    SimpleClientsAreHandled(line + [NEWLINE]);
  }

  /** Two lines that arrive in two short reads: the first is handled exactly as it should be, and the
      second never is. */
  lemma {:induction false} SecondShortReadIsLost(first: seq<byte>, second: seq<byte>)
    requires !HasNewline(first) && !HasNewline(second) && NUL !in first && |first| + 1 < CHUNK
    ensures var received, unread := first + [NEWLINE], second + [NEWLINE];
            && HandledExactly(received) && Lines(received + unread) == [first, second]
            && Stops(Final(received), 1) && Drain(Final(received), 1).packets == [first]
  {
    OneLine(first);
    OneLine(second);
    SplitCons(first, second + [NEWLINE]);
    LinesOfFinal(first + [NEWLINE]);
    OneLineDrain(first, Final(first + [NEWLINE]));
    OneLineIsHandled(first);
  }
}
