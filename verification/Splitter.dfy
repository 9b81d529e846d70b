/** `extract_token_and_consolidate_buffer` and the loop that drains a buffer with it. */
module Splitter {
  import opened Bytes
  import opened Splitting

  /** What `strlen` and `strncpy` see of a string: the bytes before its first NUL. */
  function CString(b: seq<byte>): seq<byte> {
    if b == [] || b[0] == NUL then [] else [b[0]] + CString(b[1..])
  }

  /** The string cut off by one extraction. */
  function Token(b: seq<byte>): seq<byte>
    requires HasNewline(b)
  {
    CString(b[..FirstNewline(b)])
  }

  /** The buffer after one extraction: everything moves down over the token, and the places it
      moved from, the last bytes of the buffer, keep what they held. */
  function Shifted(b: seq<byte>): (s: seq<byte>)
    requires HasNewline(b)
    ensures |s| == |b|
  {
    var i := FirstNewline(b);
    b[i + 1..] + b[i := NUL][|b| - i - 1..]
  }

  /** The bytes of the buffer that one extraction leaves behind unmoved. */
  function Stale(b: seq<byte>): seq<byte>
    requires HasNewline(b)
  {
    var i := FirstNewline(b);
    b[i := NUL][|b| - i - 1..]
  }

  /** The state of the drain loop after at most `steps` extractions. */
  datatype Drained = Drained(packets: seq<seq<byte>>, buf: seq<byte>)

  /** One round of the drain loop, if its guard holds. */
  function DrainRound(d: Drained): (r: Drained)
    ensures |r.buf| == |d.buf| && |r.packets| <= |d.packets| + 1
  {
    if HasNewline(d.buf) then Drained(d.packets + [Token(d.buf)], Shifted(d.buf)) else d
  }

  function Drain(b: seq<byte>, steps: nat): (d: Drained)
    ensures |d.buf| == |b| && |d.packets| <= steps
  {
    if steps == 0 then Drained([], b) else DrainRound(Drain(b, steps - 1))
  }

  /** The loop guard fails: no newline is left. */
  predicate Stops(b: seq<byte>, steps: nat) {
    !HasNewline(Drain(b, steps).buf)
  }

  /** A line's length, counted twice, and the lengths of the lines after it fit the buffer. */
  predicate HasSlack(lines: seq<seq<byte>>, j: nat, len: nat)
    requires j < |lines|
  {
    |lines[j]| + 1 + |Terminated(lines[j..])| <= len
  }

  /** Every line but the last has slack. */
  predicate Slack(lines: seq<seq<byte>>, len: nat) {
    forall j | 0 <= j < |lines| - 1 :: HasSlack(lines, j, len)
  }

  predicate NulFree(lines: seq<seq<byte>>) {
    forall l | l in lines :: NUL !in l
  }

  function CStrings(lines: seq<seq<byte>>): (c: seq<seq<byte>>)
    ensures |c| == |lines|
    ensures forall k | 0 <= k < |lines| :: c[k] == CString(lines[k])
  {
    seq(|lines|, k requires 0 <= k < |lines| => CString(lines[k]))
  }

  // ---------------------------------------------------------------- one extraction

  lemma {:induction false} CStringIsPrefix(b: seq<byte>)
    ensures CString(b) <= b && NUL !in CString(b)
    ensures CString(b) == b <==> NUL !in b
    ensures |CString(b)| < |b| ==> b[|CString(b)|] == NUL
  {
    if b != [] && b[0] != NUL {
      CStringIsPrefix(b[1..]);
      assert b == [b[0]] + b[1..];
    }
  }

  /** Bytes from the first NUL on do not matter. */
  lemma {:induction false} CStringOfPrefix(b: seq<byte>, c: seq<byte>)
    requires CString(b) <= c && (|c| > |CString(b)| ==> c[|CString(b)|] == NUL)
    ensures CString(c) == CString(b)
  {
    if b == [] || b[0] == NUL {
    } else {
      assert c[0] == b[0];
      assert CString(b)[1..] == CString(b[1..]);
      CStringOfPrefix(b[1..], c[1..]);
    }
  }

  lemma {:induction false} CStringLength(b: seq<byte>, n: nat)
    requires n <= |b| && NUL !in b[..n] && (n < |b| ==> b[n] == NUL)
    ensures CString(b) == b[..n]
  {
    if n > 0 {
      assert b[..n][0] == b[0];
      assert b[1..][..n - 1] == b[..n][1..];
      CStringLength(b[1..], n - 1);
    }
  }

  /** The newline count falls by one, plus what the stale bytes bring back. */
  lemma {:induction false} ExtractionCount(b: seq<byte>)
    requires HasNewline(b)
    ensures multiset(Shifted(b))[NEWLINE] == multiset(b)[NEWLINE] - 1 + multiset(Stale(b))[NEWLINE]
  {
    var i := FirstNewline(b);
    assert b == b[..i] + [NEWLINE] + b[i + 1..];
    assert multiset(b[..i])[NEWLINE] == 0;
    assert Shifted(b) == b[i + 1..] + Stale(b);
  }

  lemma {:induction false} NewlineInTail(b: seq<byte>, from: nat)
    requires from <= |b|
    ensures HasNewline(b[from..]) <==> exists k :: from <= k < |b| && b[k] == NEWLINE
  {
    if HasNewline(b[from..]) {
      var m :| 0 <= m < |b[from..]| && b[from..][m] == NEWLINE;
      assert b[from + m] == NEWLINE;
    }
    forall k | from <= k < |b| && b[k] == NEWLINE ensures HasNewline(b[from..]) {
      assert b[from..][k - from] == NEWLINE;
    }
  }

  /** The newlines among the stale bytes are those of the last bytes of the buffer, except the one
      just cut. */
  lemma {:induction false} StaleBytes(b: seq<byte>)
    requires HasNewline(b)
    ensures HasNewline(Stale(b)) <==>
            exists k :: |b| - FirstNewline(b) - 1 <= k < |b| && k != FirstNewline(b) && b[k] == NEWLINE
  {
    var i := FirstNewline(b);
    var cut, from := b[i := NUL], |b| - i - 1;
    NewlineInTail(cut, from);
    assert forall k | 0 <= k < |b| :: cut[k] == NEWLINE <==> k != i && b[k] == NEWLINE;
  }

  /** One extraction removes exactly one newline precisely when no other newline lies among the
      last bytes of the buffer, as many as the token and its newline take. */
  lemma {:induction false} ExtractionProgress(b: seq<byte>)
    requires HasNewline(b)
    ensures multiset(Shifted(b))[NEWLINE] == multiset(b)[NEWLINE] - 1 <==>
            forall k | |b| - FirstNewline(b) - 1 <= k < |b| && k != FirstNewline(b) :: b[k] != NEWLINE
  {
    ExtractionCount(b);
    StaleBytes(b);
    assert HasNewline(Stale(b)) <==> multiset(Stale(b))[NEWLINE] > 0;
  }

  // ---------------------------------------------------------------- the drain loop

  lemma {:induction false} RoundCons(first: seq<byte>, d: Drained)
    ensures DrainRound(Drained([first] + d.packets, d.buf))
         == Drained([first] + DrainRound(d).packets, DrainRound(d).buf)
  {
    if HasNewline(d.buf) {
      assert [first] + d.packets + [Token(d.buf)] == [first] + (d.packets + [Token(d.buf)]);
    }
  }

  /** The loop state after one extraction and `steps` more, seen from the first extraction. */
  lemma {:induction false} DrainFirst(b: seq<byte>, steps: nat)
    requires HasNewline(b)
    ensures Drain(b, steps + 1) == Drained([Token(b)] + Drain(Shifted(b), steps).packets, Drain(Shifted(b), steps).buf)
  {
    if steps == 0 {
      assert Drain(b, 0) == Drained([], b);
      assert Drain(b, 1) == DrainRound(Drain(b, 0));
    } else {
      DrainFirst(b, steps - 1);
      RoundCons(Token(b), Drain(Shifted(b), steps - 1));
      assert Drain(b, steps + 1) == DrainRound(Drain(b, steps));
    }
  }

  /** The guard after one extraction more is the guard of the loop on the shifted buffer. */
  lemma {:induction false} StopsLater(b: seq<byte>, steps: nat)
    requires HasNewline(b)
    ensures Stops(b, steps + 1) <==> Stops(Shifted(b), steps)
  {
    DrainFirst(b, steps);
  }

  /** One more extraction, seen from the last. */
  lemma {:induction false} DrainLast(b: seq<byte>, steps: nat, d: Drained)
    requires Drain(b, steps) == d && HasNewline(d.buf)
    ensures Drain(b, steps + 1) == Drained(d.packets + [Token(d.buf)], Shifted(d.buf))
  {
    assert Drain(b, steps + 1) == DrainRound(Drain(b, steps));
  }

  lemma {:induction false} DrainStopped(b: seq<byte>, steps: nat)
    requires !HasNewline(b)
    ensures Drain(b, steps) == Drained([], b)
  {
    if steps > 0 {
      DrainStopped(b, steps - 1);
    }
  }

  /** Running the guard longer than needed changes nothing. */
  lemma {:induction false} DrainStable(b: seq<byte>, steps: nat, more: nat)
    requires Stops(b, steps) && steps <= more
    ensures Drain(b, more) == Drain(b, steps)
    decreases more
  {
    if steps < more {
      DrainStable(b, steps, more - 1);
    }
  }

  /** A loop that has cut off a packet in every round has not stopped before. */
  lemma {:induction false} RoundsCut(b: seq<byte>, rounds: nat, n: nat)
    requires |Drain(b, rounds).packets| == rounds && Stops(b, n)
    ensures rounds <= n
  {
    if n < rounds {
      DrainStable(b, n, rounds);
    }
  }

  /** A line other than the last leaves no newline behind exactly when it has slack. */
  lemma {:induction false} StaleNewline(b: seq<byte>)
    requires HasNewline(b)
    ensures |Lines(b)| >= 1
    ensures HasNewline(Stale(b)) <==>
            |Lines(b)| >= 2 && |Lines(b)[0]| + 1 + |Terminated(Lines(b))| > |b|
  {
    var i, last := FirstNewline(b), |Terminated(Lines(b))| - 1;
    LastPlace(b);
    StaleBytes(b);
    assert forall k | 0 <= k < i :: b[..i][k] == b[k] != NEWLINE;
    if |Lines(b)| == 1 {
      assert Lines(b) == [b[..i]] + Lines(b[i + 1..]);
      assert Terminated(Lines(b)[1..]) == [];
      assert last == i;
    } else {
      SingleLineLength(Lines(b));
    }
  }

  lemma {:induction false} LastOfConcat(t: seq<byte>, rest: seq<byte>, b: seq<byte>)
    requires t + rest == b && |t| > 0 && t[|t| - 1] == NEWLINE && !HasNewline(rest)
    ensures |t| <= |b| && b[|t| - 1] == NEWLINE
    ensures forall k | |t| <= k < |b| :: b[k] != NEWLINE
  {
    forall k | |t| <= k < |b| ensures b[k] != NEWLINE {
      assert b[k] == rest[k - |t|];
    }
  }

  /** The last newline of a string ends its last line. */
  lemma {:induction false} LastPlace(b: seq<byte>)
    requires HasNewline(b)
    ensures |Lines(b)| >= 1
    ensures 0 < |Terminated(Lines(b))| <= |b| && b[|Terminated(Lines(b))| - 1] == NEWLINE
    ensures forall k | |Terminated(Lines(b))| <= k < |b| :: b[k] != NEWLINE
  {
    SplitJoins(b);
    LastNewline(Lines(b));
    LastOfConcat(Terminated(Lines(b)), Rest(b), b);
  }

  lemma {:induction false} LastNewline(lines: seq<seq<byte>>)
    requires lines != []
    ensures |Terminated(lines)| > 0 && Terminated(lines)[|Terminated(lines)| - 1] == NEWLINE
  {
    if |lines| > 1 {
      LastNewline(lines[1..]);
    }
  }

  lemma {:induction false} SingleLineLength(lines: seq<seq<byte>>)
    requires |lines| >= 2
    ensures |Terminated(lines)| > |lines[0]| + 1
  {
    LastNewline(lines[1..]);
  }

  lemma {:induction false} SlackTail(lines: seq<seq<byte>>, len: nat)
    requires lines != []
    ensures Slack(lines, len) <==>
            (|lines| >= 2 ==> |lines[0]| + 1 + |Terminated(lines)| <= len) && Slack(lines[1..], len)
  {
    assert lines[0..] == lines;
    forall j | 0 <= j < |lines| - 2 ensures HasSlack(lines[1..], j, len) <==> HasSlack(lines, j + 1, len) {
      assert lines[1..][j..] == lines[j + 1..];
    }
    if |lines| >= 2 {
      assert HasSlack(lines, 0, len) <==> |lines[0]| + 1 + |Terminated(lines)| <= len;
    }
    if Slack(lines[1..], len) {
      forall j | 1 <= j < |lines| - 1 ensures HasSlack(lines, j, len) {
        assert HasSlack(lines[1..], j - 1, len);
      }
    }
  }

  /** An extraction that leaves no newline behind takes off exactly the first line. */
  lemma {:induction false} CleanExtraction(b: seq<byte>)
    requires HasNewline(b) && !HasNewline(Stale(b))
    ensures Lines(Shifted(b)) == Lines(b)[1..] && Rest(b) <= Rest(Shifted(b))
  {
    var i := FirstNewline(b);
    assert Shifted(b) == b[i + 1..] + Stale(b);
    LinesAppend(b[i + 1..], Stale(b));
  }

  /** An extraction that leaves a newline behind does not lower the number of lines. */
  lemma {:induction false} DirtyExtraction(b: seq<byte>)
    requires HasNewline(b) && HasNewline(Stale(b))
    ensures |Lines(Shifted(b))| >= |Lines(b)|
  {
    ExtractionCount(b);
    LineCount(b);
    LineCount(Shifted(b));
    assert NEWLINE in multiset(Stale(b));
  }

  /** With slack, the loop stops after one extraction per line, having cut off exactly the lines,
      and the unterminated remainder is at the front of a buffer without newlines. */
  lemma {:induction false} DrainWithSlack(b: seq<byte>)
    requires Slack(Lines(b), |b|)
    ensures Stops(b, |Lines(b)|)
    ensures Drain(b, |Lines(b)|).packets == CStrings(Lines(b))
    ensures Rest(b) <= Drain(b, |Lines(b)|).buf
    decreases |Lines(b)|
  {
    var lines := Lines(b);
    if HasNewline(b) {
      SlackTail(lines, |b|);
      StaleNewline(b);
      CleanExtraction(b);
      DrainWithSlack(Shifted(b));
      DrainFirst(b, |lines| - 1);
      CStringsCons(lines);
    } else {
      SplitNone(b);
    }
  }

  lemma {:induction false} CStringsCons(lines: seq<seq<byte>>)
    requires lines != []
    ensures CStrings(lines) == [CString(lines[0])] + CStrings(lines[1..])
  {
  }

  /** One extraction of a loop that needs so many packets for the rest: with slack none is added to
      one packet per line, and without slack at least one is. */
  lemma {:induction false} ExtractionCosts(b: seq<byte>, packets: nat)
    requires HasNewline(b) && packets >= |Lines(Shifted(b))|
    requires !Slack(Lines(Shifted(b)), |b|) ==> packets > |Lines(Shifted(b))|
    ensures packets + 1 >= |Lines(b)|
    ensures !Slack(Lines(b), |b|) ==> packets + 1 > |Lines(b)|
  {
    StaleNewline(b);
    if HasNewline(Stale(b)) {
      DirtyExtraction(b);
    } else {
      SlackTail(Lines(b), |b|);
      CleanExtraction(b);
    }
  }

  /** The loop never stops before one extraction per newline, and without slack it needs more. */
  lemma {:induction false} DrainPacketCount(b: seq<byte>, steps: nat)
    requires Stops(b, steps)
    ensures |Drain(b, steps).packets| >= |Lines(b)|
    ensures !Slack(Lines(b), |b|) ==> |Drain(b, steps).packets| > |Lines(b)|
    decreases steps
  {
    if !HasNewline(b) {
      SplitNone(b);
    } else if steps > 0 {
      var rest, m := Shifted(b), steps - 1;
      DrainFirst(b, m);
      StopsLater(b, m);
      DrainPacketCount(rest, m);
      ExtractionCosts(b, |Drain(rest, m).packets|);
    }
  }

  /** The drain loop equals splitting on newlines exactly for the buffers whose lines have slack
      and hold no NUL. */
  lemma {:induction false} DrainEqualsSplit(b: seq<byte>)
    ensures (exists steps: nat :: Stops(b, steps) && Drain(b, steps).packets == Lines(b)) <==>
            Slack(Lines(b), |b|) && NulFree(Lines(b))
  {
    var lines := Lines(b);
    if Slack(lines, |b|) {
      DrainWithSlack(b);
      forall l | l in lines ensures CString(l) == l <==> NUL !in l {
        CStringIsPrefix(l);
      }
      if NulFree(lines) {
        assert CStrings(lines) == lines;
      } else {
        var k :| 0 <= k < |lines| && NUL in lines[k];
        assert CStrings(lines)[k] != lines[k];
      }
      forall steps: nat | Stops(b, steps) ensures Drain(b, steps).packets == CStrings(lines) {
        if steps <= |lines| {
          DrainStable(b, steps, |lines|);
        } else {
          DrainStable(b, |lines|, steps);
        }
      }
      assert Stops(b, |lines|);
    } else {
      forall steps: nat | Stops(b, steps) ensures Drain(b, steps).packets != lines {
        DrainPacketCount(b, steps);
      }
    }
  }

  // ---------------------------------------------------------------- the code

  /** `strncpy`: copy up to the first NUL, then pad with NULs. */
  method CopyString(dst: array<byte>, src: array<byte>)
    requires dst != src && dst.Length <= src.Length
    modifies dst
    ensures CString(dst[..]) == CString(src[..dst.Length])
    ensures forall k | |CString(dst[..])| <= k < dst.Length :: dst[k] == NUL
  {
    var n := 0;
    ghost var s := src[..dst.Length];
    while n < dst.Length && src[n] != NUL
      invariant n <= dst.Length
      invariant forall k | 0 <= k < n :: dst[k] == s[k] != NUL
    {
      dst[n] := src[n];
      n := n + 1;
    }
    CStringLength(s, n);
    var m := n;
    while m < dst.Length
      invariant n <= m <= dst.Length
      invariant forall k | 0 <= k < n :: dst[k] == s[k] != NUL
      invariant forall k | n <= k < m :: dst[k] == NUL
    {
      dst[m] := NUL;
      m := m + 1;
    }
    CStringLength(dst[..], n);
    assert dst[..][..n] == s[..n];
  }

  /** The shifted buffer byte by byte. */
  lemma {:induction false} ShiftedAt(was: seq<byte>, now: seq<byte>)
    requires HasNewline(was) && now == Shifted(was)
    ensures var n := FirstNewline(was) + 1;
            && (forall k | 0 <= k < |was| - n :: now[k] == was[k + n])
            && (forall k | |was| - n <= k < |was| :: now[k] == if k == n - 1 then NUL else was[k])
  {
  }

  /** The token byte by byte: it ends before the first NUL or newline. */
  lemma {:induction false} TokenAt(was: seq<byte>)
    requires HasNewline(was)
    ensures var (i, t) := (FirstNewline(was), Token(was));
            && |t| <= i && t == was[..|t|] && NUL !in t
            && was[|t|] == (if |t| == i then NEWLINE else NUL)
  {
    var i := FirstNewline(was);
    CStringIsPrefix(was[..i]);
    assert was[..i][..|Token(was)|] == was[..|Token(was)|];
  }

  /** One extraction byte by byte. The allocation of the token has `n` bytes; the string in it ends
      before the first NUL or newline of the buffer; the bytes behind the newline have moved to the
      front, and the last ones are as they were, but for a NUL in the place of the newline. */
  predicate Extracted(was: seq<byte>, now: seq<byte>, token: seq<byte>) {
    var (n, t) := (|token|, CString(token));
    && |now| == |was| && |t| < n <= |was|
    && (forall k | 0 <= k < |was| - n :: now[k] == was[k + n])
    && (forall k | |was| - n <= k < |was| :: now[k] == if k == n - 1 then 0 else was[k])
    && t == was[..|t|] && 0 !in t && 10 !in t
    && was[|t|] == (if |t| == n - 1 then 10 else 0)
  }

  lemma {:induction false} ExtractedBytes(was: seq<byte>, now: seq<byte>, token: seq<byte>)
    requires HasNewline(was) && now == Shifted(was)
    requires |token| == FirstNewline(was) + 1 && CString(token) == Token(was)
    ensures Extracted(was, now, token)
  {
    ShiftedAt(was, now);
    TokenAt(was);
  }

  /** The loop that moves the unused data to the front of the buffer. */
  method MoveToFront(buf: array<byte>, from: nat)
    requires 0 < from <= buf.Length
    modifies buf
    ensures buf[..] == old(buf[..])[from..] + old(buf[..])[buf.Length - from..]
  {
    var i, j := from, 0;
    while i < buf.Length
      invariant from <= i <= buf.Length && i == from + j
      invariant forall k | 0 <= k < j :: buf[k] == old(buf[k + from])
      invariant forall k | j <= k < buf.Length :: buf[k] == old(buf[k])
    {
      buf[j] := buf[i];
      i, j := i + 1, j + 1;
    }
  }

  /** `extract_token_and_consolidate_buffer`, over the whole allocation. */
  method ExtractToken(buf: array<byte>) returns (token: array?<byte>)
    modifies buf
    ensures token == null <==> 10 !in old(buf[..])
    ensures token == null <==> !HasNewline(old(buf[..]))
    ensures token == null ==> buf[..] == old(buf[..])
    ensures token != null ==>
              && fresh(token)
              && token.Length == FirstNewline(old(buf[..])) + 1 && token[token.Length - 1] == NUL
              && CString(token[..]) == Token(old(buf[..]))
              && buf[..] == Shifted(old(buf[..]))
    ensures token != null ==> Extracted(old(buf[..]), buf[..], token[..])
  {
    ghost var was := buf[..];
    var i := 0;
    while i < buf.Length
      invariant 0 <= i <= buf.Length
      invariant buf[..] == was
      invariant !HasNewline(was[..i])
    {
      if buf[i] == NEWLINE {
        FirstNewlineAt(was, i);
        token := CutAndMove(buf, i);
        ExtractedBytes(was, buf[..], token[..]);
        return;
      }
      assert was[..i + 1] == was[..i] + [was[i]];
      i := i + 1;
    }
    assert was[..i] == was;
    token := null;
  }

  /** The body of the scanning loop once it has found the newline. */
  method CutAndMove(buf: array<byte>, i: nat) returns (token: array<byte>)
    requires i < buf.Length && HasNewline(buf[..]) && i == FirstNewline(buf[..])
    modifies buf
    ensures fresh(token) && token.Length == i + 1 && token[i] == NUL
    ensures CString(token[..]) == Token(old(buf[..]))
    ensures buf[..] == Shifted(old(buf[..]))
  {
    TokenOfCut(buf[..]);
    buf[i] := NUL;
    assert buf[..] == old(buf[..])[i := NUL];
    token := new byte[i + 1](_ => NUL);
    CopyString(token, buf);
    assert buf[..i + 1] == old(buf[..])[i := NUL][..i + 1];
    MoveToFront(buf, i + 1);
  }

  lemma {:induction false} TokenOfCut(b: seq<byte>)
    requires HasNewline(b)
    ensures CString(b[FirstNewline(b) := NUL][..FirstNewline(b) + 1]) == Token(b)
    ensures |Token(b)| <= FirstNewline(b)
  {
    var i := FirstNewline(b);
    CStringIsPrefix(b[..i]);
    CStringOfPrefix(b[..i], b[i := NUL][..i + 1]);
  }
}
