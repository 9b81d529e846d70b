/** The offset search of the circular buffer, in the arithmetic of the machine. */
module RingSearch {
  import opened Bytes
  import opened Rings

  /** Sums and differences of `size_t` values wrap around. */
  function Wrap(n: int): (w: size_t)
    requires -WORD < n < 2 * WORD
    ensures w == n % 0x1_0000_0000_0000_0000
  {
    if n < 0 then n + WORD else if n >= WORD then n - WORD else n
  }

  /** The search from entry number `v` on, with what it has accumulated. */
  function SearchFrom(entries: seq<Entry>, v: nat, offset: size_t, accumulated: size_t): Place
    requires v <= |entries|
    decreases |entries| - v
  {
    if v == |entries| then Nowhere
    else if Wrap(offset + 1) <= Wrap(accumulated + entries[v].size) then At(v, Wrap(offset - accumulated))
    else SearchFrom(entries, v + 1, offset, Wrap(accumulated + entries[v].size))
  }

  function Search(entries: seq<Entry>, offset: size_t): Place {
    SearchFrom(entries, 0, offset, 0)
  }

  /** The entry that the offset falls on, if any, ends before the largest `size_t` is passed. */
  predicate EndsInRange(entries: seq<Entry>, offset: nat) {
    match Locate(entries, offset)
    case Nowhere => true
    case At(k, _) => k < |entries| && Total(entries[..k + 1]) < WORD
  }

  function Later(place: Place, v: nat): Place {
    match place
    case Nowhere => Nowhere
    case At(k, j) => At(k + v, j)
  }

  lemma {:induction false} SearchGoesForward(entries: seq<Entry>, v: nat, offset: size_t, accumulated: size_t)
    requires v <= |entries|
    ensures SearchFrom(entries, v, offset, accumulated) == Nowhere
            || v <= SearchFrom(entries, v, offset, accumulated).index < |entries|
    decreases |entries| - v
  {
    if v < |entries| {
      SearchGoesForward(entries, v + 1, offset, Wrap(accumulated + entries[v].size));
    }
  }

  /** No overflow from these entries on to the end of the one that the offset falls on. */
  predicate InRange(rest: seq<Entry>, place: Place, accumulated: nat) {
    place == Nowhere || (place.index < |rest| && accumulated + Total(rest[..place.index + 1]) < WORD)
  }

  lemma {:induction false} InRangeStep(rest: seq<Entry>, place: Place, accumulated: nat)
    requires rest != [] && (place.At? ==> place.index < |rest| - 1)
    ensures InRange(rest, Later(place, 1), accumulated)
            <==> InRange(rest[1..], place, accumulated + rest[0].size)
  {
    if place.At? {
      TotalStep(rest, place.index + 2);
    }
  }

  /** The offset falls on this entry: it is found unless the end of the entry overflows. */
  lemma {:induction false} SearchHits(entries: seq<Entry>, v: nat, offset: size_t, accumulated: size_t)
    requires v < |entries| && accumulated <= offset < WORD - 1 && offset < accumulated + entries[v].size
    ensures SearchFrom(entries, v, offset, accumulated) == At(v, offset - accumulated)
            <==> accumulated + entries[v].size < WORD
  {
    SearchGoesForward(entries, v + 1, offset, Wrap(accumulated + entries[v].size));
  }

  /** The offset lies behind this entry: it is passed without overflow. */
  lemma {:induction false} SearchPasses(entries: seq<Entry>, v: nat, offset: size_t, accumulated: size_t)
    requires v < |entries| && accumulated + entries[v].size <= offset < WORD - 1
    ensures SearchFrom(entries, v, offset, accumulated)
         == SearchFrom(entries, v + 1, offset, accumulated + entries[v].size)
  {
  }

  lemma {:induction false} LocatePasses(rest: seq<Entry>, distance: nat)
    requires rest != [] && rest[0].size <= distance
    ensures Locate(rest, distance) == Later(Locate(rest[1..], distance - rest[0].size), 1)
    ensures Locate(rest[1..], distance - rest[0].size).At? ==>
              Locate(rest[1..], distance - rest[0].size).index < |rest| - 1
  {
    LocateIsInRange(rest[1..], distance - rest[0].size);
  }

  /** From any entry on, below the largest offset, the search agrees exactly if there is no overflow. */
  predicate Agrees(entries: seq<Entry>, v: nat, offset: size_t, accumulated: size_t, place: Place)
    requires v <= |entries|
  {
    SearchFrom(entries, v, offset, accumulated) == Later(place, v) <==> InRange(entries[v..], place, accumulated)
  }

  lemma {:induction false} SearchAgrees(entries: seq<Entry>, v: nat, offset: size_t, accumulated: size_t)
    requires v <= |entries| && accumulated <= offset < WORD - 1
    ensures Agrees(entries, v, offset, accumulated, Locate(entries[v..], offset - accumulated))
    decreases |entries| - v
  {
    var rest := entries[v..];
    if v == |entries| {
      assert rest == [];
    } else if accumulated + entries[v].size <= offset {
      assert rest[0] == entries[v] && rest[1..] == entries[v + 1..];
      var next := accumulated + entries[v].size;
      SearchAgrees(entries, v + 1, offset, next);
      SearchPasses(entries, v, offset, accumulated);
      LocatePasses(rest, offset - accumulated);
      InRangeStep(rest, Locate(rest[1..], offset - next), accumulated);
    } else {
      SearchHits(entries, v, offset, accumulated);
      assert Total(rest[..1]) == rest[0].size;
    }
  }

  /** The search with wrap-around is the search in the concatenation exactly when the ring is empty,
      or the offset is below the largest `size_t` and no overflow is met on the way to the end of
      the entry that it falls on. */
  lemma {:induction false} SearchIsLocate(entries: seq<Entry>, offset: size_t)
    ensures Search(entries, offset) == Locate(entries, offset) <==>
            entries == [] || (offset < WORD - 1 && EndsInRange(entries, offset))
  {
    assert entries[0..] == entries;
    if offset < WORD - 1 {
      SearchAgrees(entries, 0, offset, 0);
      LocateIsInRange(entries, offset);
    } else if entries != [] {
      assert Wrap(offset + 1) == 0;
      assert Search(entries, offset) == At(0, offset);
    }
  }

  /** In particular whenever everything held fits in a `size_t`. */
  lemma {:induction false} SearchIsLocateWhenAllFits(entries: seq<Entry>, offset: size_t)
    requires Total(entries) < 0x1_0000_0000_0000_0000 && offset < 0xFFFF_FFFF_FFFF_FFFF
    ensures Search(entries, offset) == Locate(entries, offset)
  {
    SearchIsLocate(entries, offset);
    LocateIsInRange(entries, offset);
    match Locate(entries, offset)
    case Nowhere =>
    case At(k, _) =>
      assert entries == entries[..k + 1] + entries[k + 1..];
      TotalConcat(entries[..k + 1], entries[k + 1..]);
  }

  /** The slot of the entry that a place is in. */
  function InSlot(b: Ring, place: Place): Place {
    match place
    case Nowhere => Nowhere
    case At(k, j) => At(SlotNumber(b, k), j)
  }

  /** The slot that a search of the entries of this buffer leads to. */
  function SearchSlot(b: Ring, offset: size_t): Place
    requires WellFormed(b)
  {
    InSlot(b, Search(Window(b), offset))
  }

  /** What a search of this buffer that has passed `v` entries leads to. */
  function RestOfSearch(b: Ring, v: nat, offset: size_t, accumulated: size_t): Place
    requires WellFormed(b) && v <= Live(b)
  {
    InSlot(b, SearchFrom(Window(b), v, offset, accumulated))
  }

  /** One round of it. */
  lemma {:induction false} SearchRound(b: Ring, v: nat, offset: size_t, accumulated: size_t)
    requires WellFormed(b) && v <= Live(b)
    ensures v == Live(b) ==> RestOfSearch(b, v, offset, accumulated) == Nowhere
    ensures v < Live(b) ==>
              |b.slots| == CAPACITY &&
              var end := Wrap(accumulated + b.slots[SlotNumber(b, v)].size);
              RestOfSearch(b, v, offset, accumulated)
              == if Wrap(offset + 1) <= end then At(SlotNumber(b, v), Wrap(offset - accumulated))
                 else RestOfSearch(b, v + 1, offset, end)
  {
  }

  lemma {:induction false} SlotsDiffer(out_offs: nat, k: nat, m: nat)
    requires out_offs < CAPACITY && k < CAPACITY && m < CAPACITY && k != m
    ensures (out_offs + k) % CAPACITY != (out_offs + m) % CAPACITY
  {
  }

  /** The search leads to the slot and the byte that hold that position of the concatenation, or to
      nothing when there is no such position, under exactly the same condition. */
  lemma {:induction false} SearchSlotIsExact(b: Ring, offset: size_t)
    requires WellFormed(b)
    ensures SearchSlot(b, offset) == SlotAt(b, offset) <==>
            Window(b) == [] || (offset < WORD - 1 && EndsInRange(Window(b), offset))
  {
    var found, meant := Search(Window(b), offset), Locate(Window(b), offset);
    SearchIsLocate(Window(b), offset);
    SearchGoesForward(Window(b), 0, offset, 0);
    LocateIsInRange(Window(b), offset);
    if found.At? && meant.At? && found.index != meant.index {
      SlotsDiffer(b.out_offs, found.index, meant.index);
    }
  }

  // ---------------------------------------------------------------- the search of a whole buffer

  /** Sliding window, as the code searches it. After any sequence of calls that leaves entries whose
      sizes fit in a `size_t`, the search of an offset below the largest one finds the byte that far
      behind all evicted ones in the stream of every byte ever accepted, or nothing exactly if the
      stream ends before. */
  lemma {:induction false} SearchSlidesOverStream(memory: nat -> byte, offers: seq<Entry>, offset: size_t)
    requires Total(Window(Fill(offers))) < WORD && offset < WORD - 1
    ensures var (h, w) := (Accepted(offers), Window(Fill(offers)));
            ReadsStream(memory, w, Search(w, offset), Stream(memory, h), Total(h[..Evicted(h)]) + offset)
  {
    SearchIsLocateWhenAllFits(Window(Fill(offers)), offset);
    WindowSlidesOverStream(memory, offers, offset);
  }

  /** Round trip. The search of the position computed from an entry in use and a byte of it leads back
      to the slot of that entry and that byte. */
  lemma {:induction false} SearchFindsEveryByte(b: Ring, k: nat, j: nat)
    requires WellFormed(b) && Total(Window(b)) < WORD && k < Live(b) && j < Window(b)[k].size
    ensures Total(Window(b)[..k]) + j < WORD - 1
    ensures SearchSlot(b, Total(Window(b)[..k]) + j) == At(SlotNumber(b, k), j)
  {
    var offset := Total(Window(b)[..k]) + j;
    LocateFindsEveryByte(Window(b), k, j);
    LocateIsInRange(Window(b), offset);
    SearchIsLocateWhenAllFits(Window(b), offset);
  }

  /** Monotonicity. A smaller offset is never found in a younger entry, and in the same entry it is
      found exactly as many bytes earlier. */
  lemma {:induction false} SearchIsMonotone(b: Ring, low: size_t, high: size_t)
    requires WellFormed(b) && Total(Window(b)) < WORD
    requires low <= high < WORD - 1 && Search(Window(b), high).At?
    ensures var (found, later) := (Search(Window(b), low), Search(Window(b), high));
            && found.At? && found.index <= later.index
            && (found.index == later.index ==> later.byte - found.byte == high - low)
  {
    SearchIsLocateWhenAllFits(Window(b), low);
    SearchIsLocateWhenAllFits(Window(b), high);
    LocateIsMonotone(Window(b), low, high);
  }

  /** Adding to a full ring, as the code searches it: as long as all sizes fit, every byte that stays is
      found in the same slot and at the same place in it, at an offset lower by exactly the size of the
      entry that goes. */
  lemma {:induction false} AddShiftsSearch(b: Ring, history: seq<Entry>, e: Entry, offset: nat)
    requires Represents(b, history) && b.full
    requires Total(Window(b)) < WORD && Total(Window(Add(b, e))) < WORD
    requires Window(b)[0].size <= offset < Total(Window(b))
    ensures offset < WORD - 1 && SearchSlot(b, offset) != Nowhere
    ensures SearchSlot(Add(b, e), offset - Window(b)[0].size) == SearchSlot(b, offset)
  {
    AddShiftsOffsets(b, history, e, offset);
    SearchIsLocateWhenAllFits(Window(b), offset);
    SearchIsLocateWhenAllFits(Window(Add(b, e)), offset - Window(b)[0].size);
  }
}
