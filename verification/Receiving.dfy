/** The receive buffer of `read_until_stop_condition`. */
module Receiving {
  import opened Bytes

  const CHUNK := 1024

  /** The buffer, and where the next bytes go. */
  datatype RecvBuffer = RecvBuffer(bytes: seq<byte>, index: nat)

  const EMPTY_BUFFER := RecvBuffer(Zeros(CHUNK), 0)

  /** That many bytes from `index` on lie inside the buffer. */
  predicate HasRoom(b: RecvBuffer, n: nat) {
    b.index + n <= |b.bytes|
  }

  /** `recv` stores what arrived. */
  function Stored(b: RecvBuffer, chunk: seq<byte>): (s: seq<byte>)
    requires HasRoom(b, |chunk|)
    ensures |s| == |b.bytes|
  {
    b.bytes[..b.index] + chunk + b.bytes[b.index + |chunk|..]
  }

  /** After a full read: grow by one chunk, clear one chunk from the new index on. */
  function AfterFull(b: RecvBuffer, chunk: seq<byte>): RecvBuffer
    requires HasRoom(b, |chunk|) && |chunk| == CHUNK
  {
    var grown := Stored(b, chunk) + Zeros(CHUNK);
    var index := b.index + CHUNK;
    RecvBuffer(grown[..index] + Zeros(CHUNK) + grown[index + CHUNK..], index)
  }

  /** After a short read: grow if the bytes reach the end of the buffer. */
  function AfterShort(b: RecvBuffer, chunk: seq<byte>): RecvBuffer
    requires HasRoom(b, |chunk|) && 0 < |chunk| < CHUNK
  {
    if |chunk| + b.index >= |b.bytes| then RecvBuffer(Stored(b, chunk) + Zeros(CHUNK), b.index + |chunk|)
    else RecvBuffer(Stored(b, chunk), b.index)
  }

  /** The state of the buffer at every `recv`: what has come in, then one cleared chunk. */
  predicate Holds(b: RecvBuffer, received: seq<byte>) {
    && b.index == |received| && |received| % CHUNK == 0
    && b.bytes == received + Zeros(CHUNK)
  }

  lemma {:induction false} FullKeepsShape(b: RecvBuffer, received: seq<byte>, chunk: seq<byte>)
    requires Holds(b, received) && |chunk| == CHUNK
    ensures HasRoom(b, CHUNK)
    ensures Holds(AfterFull(b, chunk), received + chunk)
  {
    assert b.bytes[..b.index] == received;
    assert AfterFull(b, chunk).bytes == received + chunk + Zeros(CHUNK);
  }

  /** After the short read the buffer is everything received, then zeros to the end of its last
      chunk; at least one zero is left, and the branch that would grow it once more is not taken. */
  lemma {:induction false} ShortEndsReceiving(b: RecvBuffer, received: seq<byte>, chunk: seq<byte>)
    requires Holds(b, received) && 0 < |chunk| < CHUNK
    ensures HasRoom(b, CHUNK) && |chunk| + b.index < |b.bytes|
    ensures AfterShort(b, chunk).bytes == Final(received + chunk)
  {
    assert b.bytes[..b.index] == received;
    assert b.bytes[b.index + |chunk|..] == Zeros(CHUNK - |chunk|);
    LastChunk(|received|, |chunk|);
    assert AfterShort(b, chunk).bytes == received + chunk + Zeros(CHUNK - |chunk|);
  }

  lemma {:induction false} LastChunk(full: nat, short: nat)
    requires full % CHUNK == 0 && 0 < short < CHUNK
    ensures (full + short) % CHUNK == short
  {
  }

  /** The buffer that the drain loop starts from. */
  function Final(received: seq<byte>): (f: seq<byte>)
    ensures received <= f && |f| == |received| - |received| % 1024 + 1024
    ensures forall k | |received| <= k < |f| :: f[k] == NUL
  {
    received + Zeros(CHUNK - |received| % CHUNK)
  }

  /** Every one of these `recv` calls filled the space it was given. */
  predicate FullPieces(pieces: seq<seq<byte>>) {
    forall p | p in pieces :: |p| == CHUNK
  }

  lemma {:induction false} TakeOne(all: seq<seq<byte>>, taken: nat)
    requires taken < |all|
    ensures Flatten(all[..taken + 1]) == Flatten(all[..taken]) + all[taken]
    ensures FullPieces(all[..taken]) && |all[taken]| == CHUNK ==> FullPieces(all[..taken + 1])
    ensures all[taken..][1..] == all[taken + 1..]
  {
    assert all[..taken + 1] == all[..taken] + [all[taken]];
    FlattenSnoc(all[..taken], all[taken]);
  }

  lemma {:induction false} FlattenFull(pieces: seq<seq<byte>>)
    requires FullPieces(pieces)
    ensures |Flatten(pieces)| % CHUNK == 0
  {
    if pieces != [] {
      assert pieces[|pieces| - 1] in pieces;
      FlattenFull(pieces[..|pieces| - 1]);
    }
  }
}
