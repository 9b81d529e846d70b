/** The ten-slot circular buffer as a value: adding entries, and the entries it holds. */
module Rings {
  import opened Bytes

  const CAPACITY := 10
  const WORD := 0x1_0000_0000_0000_0000

  /** `size_t` on a 64-bit machine. */
  type size_t = n: int | 0 <= n < WORD

  /** An entry: the address of its bytes, 0 for NULL, and how many there are. */
  datatype Entry = Entry(buffptr: nat, size: size_t)

  const ZERO_ENTRY := Entry(0, 0)

  datatype Ring = Ring(slots: seq<Entry>, in_offs: nat, out_offs: nat, full: bool)

  /** Slots that were never used. */
  function Clear(n: nat): (c: seq<Entry>)
    ensures |c| == n && forall k | 0 <= k < n :: c[k] == ZERO_ENTRY
  {
    seq(n, _ => ZERO_ENTRY)
  }

  /** The cleared buffer. */
  const EMPTY_RING := Ring(Clear(CAPACITY), 0, 0, false)

  predicate WellFormed(b: Ring) {
    |b.slots| == CAPACITY && b.in_offs < CAPACITY && b.out_offs < CAPACITY
  }

  /** `aesd_circular_buffer_add_entry` once it has checked its arguments. */
  function Add(b: Ring, e: Entry): (r: Ring)
    requires |b.slots| == CAPACITY && b.in_offs < CAPACITY
    ensures WellFormed(b) ==> WellFormed(r)
  {
    var out := if b.in_offs == b.out_offs && b.full then (b.out_offs + 1) % CAPACITY else b.out_offs;
    var next := (b.in_offs + 1) % CAPACITY;
    Ring(b.slots[b.in_offs := e], next, out, next == out)
  }

  /** `aesd_circular_buffer_add_entry` on any entry: one without bytes is refused. */
  function Offer(b: Ring, e: Entry): Ring
    requires WellFormed(b)
  {
    if e.buffptr == 0 then b else Add(b, e)
  }

  /** The buffer after a sequence of calls. */
  function Fill(offers: seq<Entry>): (b: Ring)
    ensures WellFormed(b)
  {
    if offers == [] then EMPTY_RING else Offer(Fill(offers[..|offers| - 1]), offers[|offers| - 1])
  }

  /** The history: every entry accepted, however long ago. */
  function Accepted(offers: seq<Entry>): seq<Entry> {
    if offers == [] then []
    else
      var before, last := Accepted(offers[..|offers| - 1]), offers[|offers| - 1];
      if last.buffptr == 0 then before else before + [last]
  }

  /** One call more. */
  lemma {:induction false} OneOffer(offers: seq<Entry>, n: nat)
    requires n < |offers|
    ensures Fill(offers[..n + 1]) == Offer(Fill(offers[..n]), offers[n])
    ensures Accepted(offers[..n + 1])
         == if offers[n].buffptr == 0 then Accepted(offers[..n]) else Accepted(offers[..n]) + [offers[n]]
  {
    assert offers[..n + 1][..n] == offers[..n];
  }

  /** How many slots hold an entry, as the offsets and the flag say. */
  function Live(b: Ring): (n: nat)
    requires WellFormed(b)
    ensures n <= CAPACITY
  {
    if b.full then CAPACITY else (b.in_offs + CAPACITY - b.out_offs) % CAPACITY
  }

  /** The slot of the entry so many places behind the oldest. */
  function SlotNumber(b: Ring, k: nat): (slot: nat)
    ensures slot < CAPACITY
  {
    (b.out_offs + k) % CAPACITY
  }

  lemma {:induction false} SlotAfter(b: Ring, k: nat)
    ensures (SlotNumber(b, k) + 1) % CAPACITY == SlotNumber(b, k + 1)
  {
  }

  /** The entries read from the output offset on, oldest first. */
  function Window(b: Ring): (w: seq<Entry>)
    requires WellFormed(b)
    ensures |w| == Live(b)
  {
    seq(Live(b), k requires 0 <= k < Live(b) => b.slots[SlotNumber(b, k)])
  }

  /** How many entries of a history have been evicted. */
  function Evicted(history: seq<Entry>): (n: nat)
    ensures n <= |history|
  {
    if |history| <= CAPACITY then 0 else |history| - CAPACITY
  }

  /** The last ten entries of a history, or all of it. */
  function Latest(history: seq<Entry>): seq<Entry> {
    history[Evicted(history)..]
  }

  /** The buffer stands for this history: entry number `k` is in slot `k` mod 10 as long as it is
      among the last ten, and slots that were never used are clear. */
  predicate Represents(b: Ring, history: seq<Entry>) {
    var n := |history|;
    && WellFormed(b)
    && b.in_offs == n % CAPACITY
    && b.out_offs == (if n < CAPACITY then 0 else n % CAPACITY)
    && (b.full <==> n >= CAPACITY)
    && (forall k | 0 <= k < n && n - CAPACITY <= k :: b.slots[k % CAPACITY] == history[k])
    && (forall k | n <= k < CAPACITY :: b.slots[k] == ZERO_ENTRY)
  }

  lemma {:induction false} NextPlace(n: nat)
    ensures (n % CAPACITY + 1) % CAPACITY == (n + 1) % CAPACITY
  {
  }

  lemma {:induction false} OtherPlace(k: nat, n: nat)
    requires k < n < k + CAPACITY
    ensures k % CAPACITY != n % CAPACITY
  {
  }

  lemma {:induction false} AddRepresents(b: Ring, history: seq<Entry>, e: Entry)
    requires Represents(b, history)
    ensures Represents(Add(b, e), history + [e])
  {
    var n, r := |history|, Add(b, e);
    NextPlace(n);
    forall k | 0 <= k < n + 1 && n + 1 - CAPACITY <= k
      ensures r.slots[k % CAPACITY] == (history + [e])[k]
    {
      if k < n {
        OtherPlace(k, n);
      }
    }
  }

  /** The history holds the offered entries that have bytes, each as often as it was offered. */
  lemma {:induction false} AcceptedOffers(offers: seq<Entry>, e: Entry)
    ensures multiset(Accepted(offers))[e] == if e.buffptr == 0 then 0 else multiset(offers)[e]
  {
    if offers != [] {
      AcceptedOffers(offers[..|offers| - 1], e);
      SplitLast(offers);
    }
  }

  /** The ring refines the history: after any sequence of calls the offsets, the flag and the slots
      are those of the history of the accepted entries. */
  lemma {:induction false} RingRefinesHistory(offers: seq<Entry>)
    ensures Represents(Fill(offers), Accepted(offers))
    ensures var (b, n) := (Fill(offers), |Accepted(offers)|);
            b.in_offs == n % 10 && b.out_offs == (if n < 10 then 0 else n % 10) && (b.full <==> n >= 10)
  {
    if offers != [] {
      var before := offers[..|offers| - 1];
      RingRefinesHistory(before);
      AddRepresents(Fill(before), Accepted(before), offers[|offers| - 1]);
    }
  }

  /** Entry number `k` of the window is number `Evicted + k` of the history. */
  lemma {:induction false} SlotOfEntry(n: nat, k: nat)
    ensures n >= CAPACITY ==> (n % CAPACITY + k) % CAPACITY == (n - CAPACITY + k) % CAPACITY
  {
  }

  lemma {:induction false} LiveCount(b: Ring, history: seq<Entry>)
    requires Represents(b, history)
    ensures Live(b) == |history| - Evicted(history)
  {
  }

  /** These are the last ten entries of the history, or all of them, oldest first. */
  predicate LastTen(w: seq<Entry>, history: seq<Entry>) {
    && |w| == (if |history| < 10 then |history| else 10)
    && forall k | 0 <= k < |w| :: w[k] == history[|history| - |w| + k]
  }

  lemma {:induction false} LatestIsLastTen(history: seq<Entry>)
    ensures LastTen(Latest(history), history)
  {
    var n, w := Evicted(history), Latest(history);
    assert |history| - |w| == n;
    forall k | 0 <= k < |w| ensures w[k] == history[|history| - |w| + k] {
      assert w[k] == history[n + k];
    }
  }

  /** What is read from the output offset on is exactly the last ten entries, oldest first. */
  lemma {:induction false} WindowIsLatest(b: Ring, history: seq<Entry>)
    requires Represents(b, history)
    ensures Window(b) == Latest(history) && LastTen(Window(b), history)
  {
    LiveCount(b, history);
    forall k | 0 <= k < Live(b) ensures Window(b)[k] == Latest(history)[k] {
      SlotOfEntry(|history|, k);
      assert b.slots[(Evicted(history) + k) % CAPACITY] == history[Evicted(history) + k];
    }
    LatestIsLastTen(history);
  }

  /** After any calls the buffer holds the last ten entries accepted, oldest first. */
  lemma {:induction false} FillHoldsLatest(offers: seq<Entry>)
    ensures LastTen(Window(Fill(offers)), Accepted(offers))
  {
    RingRefinesHistory(offers);
    WindowIsLatest(Fill(offers), Accepted(offers));
  }

  lemma {:induction false} FullWindow(b: Ring)
    requires WellFormed(b) && b.full
    ensures Window(b) == b.slots[b.out_offs..] + b.slots[..b.out_offs]
  {
    forall k | 0 <= k < CAPACITY
      ensures Window(b)[k] == (b.slots[b.out_offs..] + b.slots[..b.out_offs])[k]
    {
      if k < CAPACITY - b.out_offs {
        assert (b.out_offs + k) % CAPACITY == b.out_offs + k;
      } else {
        assert (b.out_offs + k) % CAPACITY == b.out_offs + k - CAPACITY;
      }
    }
  }

  lemma {:induction false} Rotated(a: seq<Entry>, cut: nat)
    requires cut <= |a|
    ensures multiset(a) == multiset(a[cut..] + a[..cut])
  {
    assert a == a[..cut] + a[cut..];
  }

  lemma {:induction false} PartWindow(b: Ring, history: seq<Entry>)
    requires Represents(b, history) && !b.full
    ensures b.slots == Window(b) + Clear(CAPACITY - Live(b))
  {
    assert b.in_offs == Live(b) == |history|;
  }

  /** Walking all slots, as `AESD_CIRCULAR_BUFFER_FOREACH` does, meets every entry held exactly as
      often as it is held, and otherwise only clear slots. */
  lemma {:induction false} SlotsAreWindowAndClear(b: Ring, history: seq<Entry>)
    requires Represents(b, history)
    ensures multiset(b.slots) == multiset(Window(b)) + multiset(Clear(CAPACITY - Live(b)))
  {
    if b.full {
      FullWindow(b);
      Rotated(b.slots, b.out_offs);
      assert Clear(CAPACITY - Live(b)) == [];
    } else {
      PartWindow(b, history);
    }
  }

  // ---------------------------------------------------------------- byte positions

  function Total(entries: seq<Entry>): nat {
    if entries == [] then 0 else entries[0].size + Total(entries[1..])
  }

  /** The bytes of an entry, in a memory that gives the byte at each address. */
  function Content(memory: nat -> byte, e: Entry): (c: seq<byte>)
    ensures |c| == e.size && forall k: nat | k < e.size :: c[k] == memory(e.buffptr + k)
  {
    seq(e.size, (k: nat) => memory(e.buffptr + k))
  }

  /** The bytes of all entries end to end. */
  function Stream(memory: nat -> byte, entries: seq<Entry>): (s: seq<byte>)
    ensures |s| == Total(entries)
  {
    if entries == [] then [] else Content(memory, entries[0]) + Stream(memory, entries[1..])
  }

  datatype Place = Nowhere | At(index: nat, byte: nat)

  /** Which entry, and which byte of it, a position of the stream falls on. */
  function Locate(entries: seq<Entry>, offset: nat): Place {
    if entries == [] then Nowhere
    else if offset < entries[0].size then At(0, offset)
    else
      match Locate(entries[1..], offset - entries[0].size)
      case Nowhere => Nowhere
      case At(k, j) => At(k + 1, j)
  }

  lemma {:induction false} TotalStep(entries: seq<Entry>, k: nat)
    requires 0 < k <= |entries|
    ensures Total(entries[..k]) == entries[0].size + Total(entries[1..][..k - 1])
  {
    assert entries[..k][1..] == entries[1..][..k - 1];
  }

  /** A position is somewhere exactly when it is below the total size; then it is in an entry that
      really has that byte, behind all the bytes of the entries before. */
  lemma {:induction false} LocateIsInRange(entries: seq<Entry>, offset: nat)
    ensures Locate(entries, offset) == Nowhere <==> offset >= Total(entries)
    ensures match Locate(entries, offset)
            case Nowhere => true
            case At(k, j) => k < |entries| && j < entries[k].size && offset == Total(entries[..k]) + j
    decreases |entries|
  {
    if entries != [] && offset >= entries[0].size {
      LocateIsInRange(entries[1..], offset - entries[0].size);
      match Locate(entries, offset)
      case Nowhere =>
      case At(k, j) => TotalStep(entries, k);
    }
  }

  /** What is located is the byte of the stream at that position. */
  lemma {:induction false} LocateIsIndexing(memory: nat -> byte, entries: seq<Entry>, offset: nat)
    requires Locate(entries, offset).At?
    ensures var At(k, j) := Locate(entries, offset);
            && offset < Total(entries) && k < |entries| && j < entries[k].size
            && Stream(memory, entries)[offset] == Content(memory, entries[k])[j]
    decreases |entries|
  {
    LocateIsInRange(entries, offset);
    if offset >= entries[0].size {
      LocateIsIndexing(memory, entries[1..], offset - entries[0].size);
    }
  }

  /** The only place for a byte is where it is found; so empty entries are skipped, and the search
      gives back every entry and byte that its position is computed from. */
  lemma {:induction false} LocateFindsEveryByte(entries: seq<Entry>, k: nat, j: nat)
    requires k < |entries| && j < entries[k].size
    ensures Locate(entries, Total(entries[..k]) + j) == At(k, j)
    decreases |entries|
  {
    if k > 0 {
      TotalStep(entries, k);
      LocateFindsEveryByte(entries[1..], k - 1, j);
    }
  }

  /** Later positions are never in an earlier entry, nor earlier in the same entry. */
  lemma {:induction false} LocateIsMonotone(entries: seq<Entry>, low: nat, high: nat)
    requires low <= high && Locate(entries, high).At?
    ensures Locate(entries, low).At?
    ensures Locate(entries, low).index <= Locate(entries, high).index
    ensures Locate(entries, low).index == Locate(entries, high).index ==>
              Locate(entries, high).byte - Locate(entries, low).byte == high - low
    decreases |entries|
  {
    if entries != [] && low >= entries[0].size {
      LocateIsMonotone(entries[1..], low - entries[0].size, high - entries[0].size);
    } else if entries != [] {
    }
  }

  lemma {:induction false} TotalConcat(a: seq<Entry>, b: seq<Entry>)
    ensures Total(a + b) == Total(a) + Total(b)
  {
    if a == [] {
      assert a + b == b;
    } else {
      assert (a + b)[1..] == a[1..] + b;
      TotalConcat(a[1..], b);
    }
  }

  lemma {:induction false} StreamConcat(memory: nat -> byte, a: seq<Entry>, b: seq<Entry>)
    ensures Stream(memory, a + b) == Stream(memory, a) + Stream(memory, b)
  {
    if a == [] {
      assert a + b == b;
    } else {
      assert (a + b)[1..] == a[1..] + b;
      StreamConcat(memory, a[1..], b);
    }
  }

  /** The place is that of the byte at this position of the stream, or nowhere if the stream does not
      go on that far. */
  predicate ReadsStream(memory: nat -> byte, entries: seq<Entry>, place: Place, stream: seq<byte>, position: nat) {
    match place
    case Nowhere => position >= |stream|
    case At(k, j) =>
      && k < |entries| && j < entries[k].size && position < |stream|
      && Content(memory, entries[k])[j] == stream[position]
  }

  lemma {:induction false} ReadsOwnStream(memory: nat -> byte, entries: seq<Entry>, offset: nat)
    ensures ReadsStream(memory, entries, Locate(entries, offset), Stream(memory, entries), offset)
  {
    LocateIsInRange(entries, offset);
    if Locate(entries, offset).At? {
      LocateIsIndexing(memory, entries, offset);
    }
  }

  lemma {:induction false} ReadsBehind(memory: nat -> byte, entries: seq<Entry>, place: Place, gone: seq<byte>,
                                       base: nat, stream: seq<byte>, position: nat)
    requires ReadsStream(memory, entries, place, stream, position) && base == |gone|
    ensures ReadsStream(memory, entries, place, gone + stream, base + position)
  {
    if position < |stream| {
      assert (gone + stream)[base + position] == stream[position];
    }
  }

  lemma {:induction false} TailReadsStream(memory: nat -> byte, gone: seq<Entry>, kept: seq<Entry>, offset: nat)
    ensures ReadsStream(memory, kept, Locate(kept, offset), Stream(memory, gone + kept), Total(gone) + offset)
  {
    ReadsOwnStream(memory, kept, offset);
    ReadsBehind(memory, kept, Locate(kept, offset), Stream(memory, gone), Total(gone), Stream(memory, kept), offset);
    StreamConcat(memory, gone, kept);
  }

  lemma {:induction false} LatestReadsStream(memory: nat -> byte, history: seq<Entry>, offset: nat)
    ensures ReadsStream(memory, Latest(history), Locate(Latest(history), offset), Stream(memory, history),
                        Total(history[..Evicted(history)]) + offset)
  {
    var n := Evicted(history);
    TakeDrop(history, n);
    TailReadsStream(memory, history[..n], history[n..], offset);
  }

  lemma {:induction false} RingReadsStream(memory: nat -> byte, b: Ring, history: seq<Entry>, offset: nat)
    requires Represents(b, history)
    ensures ReadsStream(memory, Window(b), Locate(Window(b), offset), Stream(memory, history),
                        Total(history[..Evicted(history)]) + offset)
  {
    assert Window(b) == Latest(history) by {
      WindowIsLatest(b, history);
    }
    LatestReadsStream(memory, history, offset);
  }

  /** Sliding window. After any sequence of calls, what is found at an offset is the byte that many
      bytes after all evicted ones in the stream of every byte ever accepted, and an offset is
      found exactly if that stream goes on that far. */
  lemma {:induction false} WindowSlidesOverStream(memory: nat -> byte, offers: seq<Entry>, offset: nat)
    ensures var (h, w) := (Accepted(offers), Window(Fill(offers)));
            ReadsStream(memory, w, Locate(w, offset), Stream(memory, h), Total(h[..Evicted(h)]) + offset)
  {
    RingRefinesHistory(offers);
    RingReadsStream(memory, Fill(offers), Accepted(offers), offset);
  }

  /** The slot of the entry that an offset falls on. */
  function SlotAt(b: Ring, offset: nat): Place
    requires WellFormed(b)
  {
    match Locate(Window(b), offset)
    case Nowhere => Nowhere
    case At(k, j) => At(SlotNumber(b, k), j)
  }

  /** Without its first entry, and with another one behind, the bytes of a list of entries are found
      one entry earlier. */
  lemma {:induction false} LocateAfterEviction(w: seq<Entry>, e: Entry, offset: nat)
    requires w != [] && w[0].size <= offset < Total(w)
    ensures Locate(w, offset).At?
    ensures var At(k, j) := Locate(w, offset);
            k > 0 && Locate(w[1..] + [e], offset - w[0].size) == At(k - 1, j)
  {
    LocateIsInRange(w, offset);
    LocateInPrefix(w[1..], [e], offset - w[0].size);
  }

  /** Adding to a full ring moves every byte that stays down by exactly the size of the entry that
      goes: it is found in the same slot, at the same place in it. */
  lemma {:induction false} AddShiftsOffsets(b: Ring, history: seq<Entry>, e: Entry, offset: nat)
    requires Represents(b, history) && b.full
    requires Window(b)[0].size <= offset < Total(Window(b))
    ensures SlotAt(b, offset) != Nowhere
    ensures SlotAt(Add(b, e), offset - Window(b)[0].size) == SlotAt(b, offset)
  {
    WindowOfAdd(b, history, e);
    LocateIsInRange(Window(b), offset);
    LocateAfterEviction(Window(b), e, offset);
    NextSlot(b, Add(b, e), Locate(Window(b), offset).index - 1);
  }

  lemma {:induction false} NextSlot(b: Ring, moved: Ring, k: nat)
    requires moved.out_offs == (b.out_offs + 1) % CAPACITY
    ensures SlotNumber(moved, k) == SlotNumber(b, k + 1)
  {
  }

  lemma {:induction false} WindowOfAdd(b: Ring, history: seq<Entry>, e: Entry)
    requires Represents(b, history) && b.full
    ensures Window(Add(b, e)) == Window(b)[1..] + [e]
  {
    AddRepresents(b, history, e);
    WindowIsLatest(b, history);
    WindowIsLatest(Add(b, e), history + [e]);
  }

  lemma {:induction false} LocateInPrefix(a: seq<Entry>, b: seq<Entry>, offset: nat)
    requires Locate(a, offset).At?
    ensures Locate(a + b, offset) == Locate(a, offset)
  {
    assert (a + b)[1..] == a[1..] + b;
    if offset >= a[0].size {
      LocateInPrefix(a[1..], b, offset - a[0].size);
    }
  }
}
