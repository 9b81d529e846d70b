/** `read_until_stop_condition` and the loop in it that handles packets, as one thread runs them. */
module Receiver {
  import opened Bytes
  import opened Splitting
  import opened Splitter
  import opened Stopping
  import opened Receiving
  import opened Handling
  import opened Sessions
  import opened Files

  /** The receiving side of a connection: what each coming `recv` will deliver. An empty piece is
      the orderly shutdown. After the last piece `recv` blocks, or fails if the connection is broken. */
  class Peer {
    const broken: bool
    var pieces: seq<seq<byte>>

    constructor (pieces: seq<seq<byte>>, broken: bool)
      ensures this.pieces == pieces && this.broken == broken
    {
      this.pieces, this.broken := pieces, broken;
    }

    method Recv(buf: array<byte>, index: nat) returns (n: int)
      requires (pieces == [] ==> broken) && (pieces != [] ==> |pieces[0]| <= CHUNK) && index + CHUNK <= buf.Length
      modifies this, buf
      ensures old(pieces) == [] ==> n == -1 && pieces == [] && buf[..] == old(buf[..])
      ensures old(pieces) != [] ==>
                && pieces == old(pieces)[1..] && n == |old(pieces)[0]|
                && buf[..] == Stored(RecvBuffer(old(buf[..]), index), old(pieces)[0])
    {
      if pieces == [] {
        return -1;
      }
      var piece := pieces[0];
      n := |piece|;
      for k := 0 to n
        modifies buf
        invariant forall m | 0 <= m < buf.Length ::
                    buf[m] == if index <= m < index + k then piece[m - index] else old(buf[m])
      {
        buf[index + k] := piece[k];
      }
      pieces := pieces[1..];
    }
  }

  /** `realloc` followed by `memset` of one chunk from `index` on. */
  method GrowAndClear(buf: array<byte>, index: nat) returns (bigger: array<byte>)
    requires index <= buf.Length
    ensures fresh(bigger)
    ensures bigger[..] == var grown := buf[..] + Zeros(CHUNK);
                          grown[..index] + Zeros(CHUNK) + grown[index + CHUNK..]
  {
    bigger := new byte[buf.Length + CHUNK](_ => NUL);
    for k := 0 to buf.Length
      invariant forall m | 0 <= m < k :: bigger[m] == buf[m]
      invariant forall m | k <= m < bigger.Length :: bigger[m] == NUL
    {
      bigger[k] := buf[k];
    }
    for k := index to index + CHUNK
      invariant forall m | 0 <= m < index && m < buf.Length :: bigger[m] == buf[m]
      invariant forall m | index <= m < k :: bigger[m] == NUL
      invariant forall m | k <= m < bigger.Length :: bigger[m] == if m < buf.Length then buf[m] else NUL
    {
      bigger[k] := NUL;
    }
  }

  method StringLength(s: array<byte>) returns (n: nat)
    requires s.Length > 0 && s[s.Length - 1] == NUL
    ensures n < s.Length && s[..n] == CString(s[..])
  {
    n := 0;
    while s[n] != NUL
      invariant n < s.Length && NUL !in s[..n]
      decreases s.Length - n
    {
      assert s[..n + 1] == s[..n] + [s[n]];
      n := n + 1;
    }
    CStringLength(s[..], n);
    assert s[..][..n] == s[..n];
  }

  /** One round of the loop over the packets: cut one off and handle it. */
  method HandleNext(buf: array<byte>, mutex: FileMutex, sock: Descriptor, disk: Descriptor) returns (found: bool)
    requires sock != disk && !mutex.held
    modifies buf, mutex, sock, disk
    ensures !mutex.held && (found <==> HasNewline(old(buf[..])))
    ensures !found ==> buf[..] == old(buf[..]) && SessionOf(disk, sock) == old(SessionOf(disk, sock))
    ensures found ==>
              && buf[..] == Shifted(old(buf[..]))
              && SessionOf(disk, sock)
                 == Handle(KernelOf(disk, sock), old(SessionOf(disk, sock)), Token(old(buf[..])))
  {
    var packet := ExtractToken(buf);
    found := packet != null;
    if packet != null {
      var len := StringLength(packet);
      HandlePacket(mutex, sock, disk, packet, len);
    }
  }

  /** The loop over the packets, stopped after `rounds` packets since it may go on for ever. */
  method DrainBuffer(buf: array<byte>, mutex: FileMutex, sock: Descriptor, disk: Descriptor, rounds: nat)
    returns (stopped: bool, ghost packets: seq<seq<byte>>)
    requires sock != disk && !mutex.held
    modifies buf, mutex, sock, disk
    ensures !mutex.held && (if stopped then !HasNewline(buf[..]) else |packets| == rounds)
    ensures Drain(old(buf[..]), |packets|) == Drained(packets, buf[..])
    ensures SessionOf(disk, sock) == HandleAll(KernelOf(disk, sock), old(SessionOf(disk, sock)), packets)
  {
    ghost var k, start, s := KernelOf(disk, sock), buf[..], SessionOf(disk, sock);
    var round := 0;
    stopped, packets := false, [];
    while round < rounds && !stopped
      invariant round == |packets| <= rounds && !mutex.held
      invariant Drain(start, |packets|) == Drained(packets, buf[..])
      invariant stopped ==> !HasNewline(buf[..])
      invariant SessionOf(disk, sock) == HandleAll(k, s, packets)
      decreases rounds - round, !stopped
    {
      ghost var before := buf[..];
      var found := HandleNext(buf, mutex, sock, disk);
      if found {
        DrainLast(start, |packets|, Drained(packets, before));
        HandleAllSnoc(k, s, packets, Token(before));
        packets := packets + [Token(before)];
        round := round + 1;
      } else {
        stopped := true;
      }
    }
  }

  datatype Outcome =
    | Handled        // a short read, and the drain loop has stopped
    | StillDraining  // a short read, and the drain loop has not stopped after the given rounds
    | PeerClosed     // an orderly shutdown before any short read
    | RecvFailed     // a failed `recv` before any short read; no buffer is returned
    | StillWaiting   // nothing more has come

  /** The branch after a full read. */
  method GrowAfterFull(buf: array<byte>, index: nat, ghost was: seq<byte>, ghost received: seq<byte>,
                       ghost piece: seq<byte>)
    returns (bigger: array<byte>, next: nat)
    requires Holds(RecvBuffer(was, index), received) && |piece| == CHUNK
    requires HasRoom(RecvBuffer(was, index), CHUNK) && buf[..] == Stored(RecvBuffer(was, index), piece)
    ensures fresh(bigger) && Holds(RecvBuffer(bigger[..], next), received + piece)
  {
    FullKeepsShape(RecvBuffer(was, index), received, piece);
    next := index + CHUNK;
    bigger := GrowAndClear(buf, next);
  }

  /** The branch after a short read. The buffer never has to grow here. */
  method GrowAfterShort(buf: array<byte>, index: nat, n: nat, ghost was: seq<byte>, ghost received: seq<byte>,
                        ghost piece: seq<byte>)
    returns (bigger: array<byte>)
    requires Holds(RecvBuffer(was, index), received) && 0 < |piece| < CHUNK && n == |piece|
    requires HasRoom(RecvBuffer(was, index), CHUNK) && buf[..] == Stored(RecvBuffer(was, index), piece)
    ensures bigger == buf && bigger[..] == Final(received + piece)
  {
    ShortEndsReceiving(RecvBuffer(was, index), received, piece);
    bigger := buf;
    if n + index >= buf.Length {
      assert false;  // the source would grow the buffer here
    }
  }

  /** How the pieces taken so far end: full ones, then maybe one that is not. */
  ghost predicate Taken(pieces: seq<seq<byte>>, taken: nat) {
    0 < taken <= |pieces| && |pieces[taken - 1]| < CHUNK && FullPieces(pieces[..taken - 1])
  }

  /** What the receive loop has done when it ends. */
  ghost predicate Received(outcome: Outcome, pieces: seq<seq<byte>>, broken: bool, taken: nat) {
    && taken <= |pieces|
    && match outcome
       case Handled => Taken(pieces, taken) && pieces[taken - 1] != []
       case StillDraining => Taken(pieces, taken) && pieces[taken - 1] != []
       case PeerClosed => Taken(pieces, taken) && pieces[taken - 1] == []
       case RecvFailed => taken == |pieces| && FullPieces(pieces) && broken
       case StillWaiting => taken == |pieces| && FullPieces(pieces) && !broken
  }

  /** The receive loop, up to the read that ends it. */
  method ReceivePieces(peer: Peer) returns (outcome: Outcome, buf: array<byte>, taken: nat)
    requires forall p | p in peer.pieces :: |p| <= CHUNK
    modifies peer
    ensures fresh(buf) && Received(outcome, old(peer.pieces), peer.broken, taken) && !outcome.Handled?
    ensures peer.pieces == old(peer.pieces)[taken..]
    ensures outcome.StillDraining? ==> buf[..] == Final(Flatten(old(peer.pieces)[..taken]))
    ensures outcome.PeerClosed? ==> buf[..] == Flatten(old(peer.pieces)[..taken]) + Zeros(1024)
  {
    buf := new byte[CHUNK](_ => NUL);
    var index: nat := 0;
    taken := 0;
    ghost var all := peer.pieces;
    assert buf[..] == Zeros(CHUNK);
    while peer.pieces != []
      invariant fresh(buf) && taken <= |all| && peer.pieces == all[taken..] && FullPieces(all[..taken])
      invariant Holds(RecvBuffer(buf[..], index), Flatten(all[..taken]))
      decreases |peer.pieces|
    {
      ghost var was, piece, received := buf[..], peer.pieces[0], Flatten(all[..taken]);
      assert piece == all[taken] && piece in all;
      TakeOne(all, taken);
      var n := peer.Recv(buf, index);
      taken := taken + 1;
      if n == CHUNK {
        buf, index := GrowAfterFull(buf, index, was, received, piece);
      } else if n == 0 {
        return PeerClosed, buf, taken;
      } else {
        buf := GrowAfterShort(buf, index, n, was, received, piece);
        return StillDraining, buf, taken;
      }
    }
    assert all[..taken] == all;
    if peer.broken {
      var n := peer.Recv(buf, index);
      return RecvFailed, buf, taken;
    }
    outcome := StillWaiting;
  }

  /** `read_until_stop_condition`. `taken` counts the pieces received, `packets` is what the drain
      loop has cut off and handled. */
  method ReadUntilStopCondition(peer: Peer, mutex: FileMutex, sock: Descriptor, disk: Descriptor, rounds: nat)
    returns (outcome: Outcome, buf: array?<byte>, taken: nat, ghost packets: seq<seq<byte>>)
    requires sock != disk && !mutex.held && forall p | p in peer.pieces :: |p| <= CHUNK
    modifies peer, mutex, sock, disk
    ensures !mutex.held && Received(outcome, old(peer.pieces), peer.broken, taken)
    ensures peer.pieces == old(peer.pieces)[taken..]
    ensures buf == null <==> outcome.RecvFailed?
    ensures buf != null ==> fresh(buf)
    ensures SessionOf(disk, sock) == HandleAll(KernelOf(disk, sock), old(SessionOf(disk, sock)), packets)
    ensures match outcome
            case Handled =>
              && Drain(Final(Flatten(old(peer.pieces)[..taken])), |packets|) == Drained(packets, buf[..])
              && !HasNewline(buf[..])
            case StillDraining =>
              && Drain(Final(Flatten(old(peer.pieces)[..taken])), |packets|) == Drained(packets, buf[..])
              && |packets| == rounds
            case PeerClosed => packets == [] && buf[..] == Flatten(old(peer.pieces)[..taken]) + Zeros(1024)
            case _ => packets == []
  {
    packets := [];
    outcome, buf, taken := ReceivePieces(peer);
    if outcome.StillDraining? {
      var stopped;
      stopped, packets := DrainBuffer(buf, mutex, sock, disk, rounds);
      outcome := if stopped then Handled else StillDraining;
    } else if outcome.RecvFailed? {
      buf := null;
    }
  }

  /** `handle_connection`: read until the stop condition, then cut once more from the buffer and drop
      what that cuts off. The packets handled are those of the drain loop. When it has stopped, they are
      the lines of the bytes read if and only if those bytes are of the kind that the server handles;
      they are then the lines of everything the client sends if and only if no newline comes after the
      short read; and the last cut finds nothing. Bytes of that kind need no more rounds than they have
      lines; and if the loop has not stopped after a number of rounds that the bytes tell, it never
      does. After an orderly shutdown nothing is handled, and the last cut drops the first line, if
      there is one. After a failed `recv` the source goes on with a NULL buffer; nothing is said
      beyond. */
  method HandleConnection(peer: Peer, mutex: FileMutex, sock: Descriptor, disk: Descriptor, rounds: nat)
    returns (outcome: Outcome, taken: nat, dropped: array?<byte>, ghost packets: seq<seq<byte>>)
    requires sock != disk && !mutex.held && forall p | p in peer.pieces :: |p| <= CHUNK
    modifies peer, mutex, sock, disk
    ensures !mutex.held && Received(outcome, old(peer.pieces), peer.broken, taken)
    ensures SessionOf(disk, sock) == HandleAll(KernelOf(disk, sock), old(SessionOf(disk, sock)), packets)
    ensures if outcome.Handled? || outcome.StillDraining?
            then Drain(Final(Flatten(old(peer.pieces)[..taken])), |packets|).packets == packets else packets == []
    ensures outcome.Handled? ==>
              var received := Flatten(old(peer.pieces)[..taken]);
              var unread := Flatten(old(peer.pieces)[taken..]);
              && dropped == null
              && (packets == Lines(received) <==> HandledExactly(received))
              && (HandledExactly(received) ==> (packets == Lines(received + unread) <==> !HasNewline(unread)))
    ensures outcome.StillDraining? ==>
              var received := Flatten(old(peer.pieces)[..taken]);
              && (HandledExactly(received) ==> rounds <= |Lines(received)|)
              && (rounds > Patience(Final(received)) ==> forall n: nat :: !Stops(Final(received), n))
    ensures outcome.PeerClosed? ==>
              var lines := Lines(Flatten(old(peer.pieces)[..taken]));
              && (dropped == null <==> lines == [])
              && (dropped != null ==> CString(dropped[..]) == CString(lines[0]))
  {
    var buf;
    outcome, buf, taken, packets := ReadUntilStopCondition(peer, mutex, sock, disk, rounds);
    ghost var received := Flatten(old(peer.pieces)[..taken]);
    dropped := null;
    match outcome {
      case StillDraining =>
        ShortPieceLast(old(peer.pieces)[..taken], old(peer.pieces), taken);
        RoundsOfUnstopped(received, rounds);
      case Handled =>
        ShortPieceLast(old(peer.pieces)[..taken], old(peer.pieces), taken);
        PacketsOfStopped(received, |packets|, packets);
        LinesOfAllSent(received, Flatten(old(peer.pieces)[taken..]));
        dropped := ExtractToken(buf);
      case PeerClosed =>
        FirstLineOf(received, buf[..]);
        dropped := ExtractToken(buf);
      case _ =>
    }
  }

  lemma {:induction false} FirstLineOf(received: seq<byte>, buf: seq<byte>)
    requires buf == received + Zeros(1024)
    ensures HasNewline(buf) <==> Lines(received) != []
    ensures HasNewline(buf) ==> Token(buf) == CString(Lines(received)[0])
  {
    LinesAppend(received, Zeros(1024));
    if HasNewline(buf) {
      SplitStep(buf);
    } else {
      SplitNone(buf);
    }
  }

  lemma {:induction false} ShortPieceLast(taken: seq<seq<byte>>, pieces: seq<seq<byte>>, n: nat)
    requires Taken(pieces, n) && pieces[n - 1] != [] && taken == pieces[..n]
    ensures |Flatten(taken)| % CHUNK != 0
  {
    TakeOne(pieces, n - 1);
    FlattenFull(pieces[..n - 1]);
    LastChunk(|Flatten(pieces[..n - 1])|, |pieces[n - 1]|);
  }

  lemma {:induction false} PacketsOfStopped(received: seq<byte>, steps: nat, packets: seq<seq<byte>>)
    requires |received| % CHUNK != 0 && Stops(Final(received), steps)
    requires Drain(Final(received), steps).packets == packets
    ensures packets == Lines(received) <==> HandledExactly(received)
  {
    LinesOfFinal(received);
    DrainOutcome(Final(received), steps);
  }

  lemma {:induction false} RoundsOfUnstopped(received: seq<byte>, rounds: nat)
    requires |received| % CHUNK != 0 && |Drain(Final(received), rounds).packets| == rounds
    ensures HandledExactly(received) ==> rounds <= |Lines(received)|
    ensures rounds > Patience(Final(received)) ==> forall n: nat :: !Stops(Final(received), n)
  {
    var b := Final(received);
    LinesOfFinal(received);
    if HandledExactly(received) {
      DrainWithSlack(b);
      RoundsCut(b, rounds, |Lines(b)|);
    }
    StoppingIsDecided(b);
    if Stops(b, Patience(b)) {
      RoundsCut(b, rounds, Patience(b));
    }
  }
}
