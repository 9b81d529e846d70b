/** `struct aesd_circular_buffer` and its operations. */
module CircularBuffers {
  import opened Rings
  import opened RingSearch

  datatype EntryPointer = Null | To(entry: Entry)

  class CircularBuffer {
    const entry: array<Entry>
    var in_offs: nat
    var out_offs: nat
    var full: bool
    ghost var history: seq<Entry>

    function State(): Ring
      reads this, entry
    {
      Ring(entry[..], in_offs, out_offs, full)
    }

    ghost predicate Valid()
      reads this, entry
      ensures Valid() ==> Consistent(State())
    {
      Represents(State(), history)
    }

    /** `aesd_circular_buffer_init`. */
    constructor ()
      ensures Valid() && history == [] && State() == EMPTY_RING && fresh(entry)
    {
      entry := new Entry[CAPACITY](_ => ZERO_ENTRY);
      in_offs, out_offs, full, history := 0, 0, false, [];
      new;
      assert entry[..] == Clear(CAPACITY);
    }

    /** `aesd_circular_buffer_find_entry_offset_for_fpos`: the slot and the byte in it. Slots are
        visited from the output offset on, each at most once and none but those in use, also when the
        buffer is full and the two offsets are equal at the start; the search ends at the slot that it
        finds, and finds nothing only after visiting all in use. */
    method FindEntryOffset(char_offset: size_t) returns (place: Place, ghost visited: seq<nat>)
      requires Consistent(State())
      ensures place == SearchSlot(State(), char_offset)
      ensures VisitedInOrder(State(), visited)
      ensures forall k, m | 0 <= k < m < |visited| :: visited[k] != visited[m]
      ensures if place.At? then visited != [] && visited[|visited| - 1] == place.index else |visited| == Live(State())
    {
      ghost var b := State();
      visited := [];
      var accumulated_size: size_t := 0;
      var once_flag := true;
      var i := out_offs;
      while i != in_offs || (full && i == in_offs && once_flag)
        invariant VisitedInOrder(b, visited) && i == SlotNumber(b, |visited|)
        invariant full ==> (once_flag <==> visited == [])
        invariant RestOfSearch(b, |visited|, char_offset, accumulated_size) == SearchSlot(b, char_offset)
        decreases Live(b) - |visited|
      {
        LoopGuard(b, visited, once_flag);
        SearchRound(b, |visited|, char_offset, accumulated_size);
        if full && out_offs == in_offs {
          once_flag := false;
        }
        visited := visited + [i];
        if Wrap(char_offset + 1) <= Wrap(accumulated_size + entry[i].size) {
          EachOnce(b, visited);
          return At(i, Wrap(char_offset - accumulated_size)), visited;
        }
        accumulated_size := Wrap(accumulated_size + entry[i].size);
        i := (i + 1) % CAPACITY;
      }
      LoopGuard(b, visited, once_flag);
      SearchRound(b, |visited|, char_offset, accumulated_size);
      EachOnce(b, visited);
      place := Nowhere;
    }

    /** `AESD_CIRCULAR_BUFFER_FOREACH`: all slots, in the order of the array. */
    method ForEach() returns (visited: seq<Entry>)
      requires Valid()
      ensures visited == entry[..]
      ensures multiset(visited) == multiset(Window(State())) + multiset(Clear(CAPACITY - Live(State())))
    {
      visited := [];
      var index := 0;
      while index < CAPACITY
        invariant 0 <= index <= CAPACITY && visited == entry[..index]
      {
        visited := visited + [entry[index]];
        index := index + 1;
      }
      SlotsAreWindowAndClear(State(), history);
    }
  }

  /** The offsets and the flag make sense; so they do in every ring that stands for a history. */
  predicate Consistent(b: Ring) {
    WellFormed(b) && (b.full ==> b.in_offs == b.out_offs)
  }

  /** These are the first slots in use, oldest entry first. */
  predicate VisitedInOrder(b: Ring, visited: seq<nat>)
    requires WellFormed(b)
  {
    |visited| <= Live(b) && forall k | 0 <= k < |visited| :: visited[k] == SlotNumber(b, k)
  }

  lemma {:induction false} EachOnce(b: Ring, visited: seq<nat>)
    requires WellFormed(b) && VisitedInOrder(b, visited)
    ensures forall k, m | 0 <= k < m < |visited| :: visited[k] != visited[m]
  {
    forall k, m | 0 <= k < m < |visited| ensures visited[k] != visited[m] {
      SlotsDiffer(b.out_offs, k, m);
    }
  }

  lemma {:induction false} GuardHolds(b: Ring, v: nat, once_flag: bool)
    requires Consistent(b) && v <= Live(b) && (b.full ==> (once_flag <==> v == 0))
    ensures var i := SlotNumber(b, v);
            i != b.in_offs || (b.full && i == b.in_offs && once_flag) <==> v < Live(b)
  {
  }

  /** The loop goes round again exactly if there is another entry, which is then in the next slot. */
  lemma {:induction false} LoopGuard(b: Ring, visited: seq<nat>, once_flag: bool)
    requires Consistent(b) && VisitedInOrder(b, visited) && (b.full ==> (once_flag <==> visited == []))
    ensures var i := SlotNumber(b, |visited|);
            && (i != b.in_offs || (b.full && i == b.in_offs && once_flag) <==> |visited| < Live(b))
            && (|visited| < Live(b) ==>
                  && i < |b.slots| && Window(b)[|visited|] == b.slots[i] && VisitedInOrder(b, visited + [i])
                  && (i + 1) % CAPACITY == SlotNumber(b, |visited + [i]|))
  {
    var i := SlotNumber(b, |visited|);
    GuardHolds(b, |visited|, once_flag);
    SlotAfter(b, |visited|);
    assert |visited + [i]| == |visited| + 1;
  }

  datatype Added =
    | Done
    | Ignored      // the arguments are refused
    | OutOfBounds  // an input offset of exactly 10 passes the checks; the source would write behind the array

  /** `aesd_circular_buffer_add_entry`. */
  method AddEntry(buffer: CircularBuffer?, add: EntryPointer) returns (added: Added)
    requires buffer != null ==> buffer.entry.Length == 10
    modifies if buffer == null then {} else {buffer, buffer.entry}
    ensures added.Ignored? <==>
              buffer == null || add.Null? || add.entry.buffptr == 0
              || old(buffer.out_offs) > 10 || old(buffer.in_offs) > 10
    ensures added.OutOfBounds? <==> !added.Ignored? && old(buffer.in_offs) == 10
    ensures buffer != null && !added.Done? ==>
              buffer.State() == old(buffer.State()) && buffer.history == old(buffer.history)
    ensures added.Done? ==> buffer.State() == Add(old(buffer.State()), add.entry)
    ensures added.Done? ==> buffer.history == old(buffer.history) + [add.entry]
    ensures buffer != null && add.To? && old(buffer.Valid()) ==>
              && buffer.Valid() && (added.Done? <==> add.entry.buffptr != 0)
              && buffer.State() == Offer(old(buffer.State()), add.entry)
              && LastTen(Window(buffer.State()), buffer.history)
  {
    if buffer == null || add.Null? {
      return Ignored;
    }
    ghost var was, valid, history := buffer.State(), buffer.Valid(), buffer.history;
    if valid {
      WindowIsLatest(was, history);
    }
    if add.entry.buffptr == 0 {
      return Ignored;
    }
    if buffer.out_offs > CAPACITY {
      return Ignored;
    }
    if buffer.in_offs > CAPACITY {
      return Ignored;
    }
    if buffer.in_offs == CAPACITY {
      return OutOfBounds;
    }
    Overwrite(buffer, add.entry);
    buffer.history := history + [add.entry];
    if valid {
      AddRepresents(was, history, add.entry);
      WindowIsLatest(buffer.State(), buffer.history);
    }
    added := Done;
  }

  /** The buffer is what these calls leave. */
  ghost predicate Holds(buffer: CircularBuffer, offers: seq<Entry>)
    reads buffer, buffer.entry
  {
    buffer.Valid() && buffer.State() == Fill(offers) && buffer.history == Accepted(offers)
  }

  /** One call more. */
  method AddNext(buffer: CircularBuffer, offers: seq<Entry>, n: nat)
    requires buffer.entry.Length == CAPACITY && n < |offers| && Holds(buffer, offers[..n])
    modifies buffer, buffer.entry
    ensures Holds(buffer, offers[..n + 1])
  {
    OneOffer(offers, n);
    var added := AddEntry(buffer, To(offers[n]));
  }

  /** Any calls on a new buffer: it then holds the last ten entries that have bytes, oldest first. */
  method AddAll(offers: seq<Entry>) returns (buffer: CircularBuffer)
    ensures fresh(buffer) && Holds(buffer, offers)
    ensures LastTen(Window(buffer.State()), Accepted(offers))
  {
    buffer := new CircularBuffer();
    var done := 0;
    assert offers[..0] == [];
    while done < |offers|
      invariant 0 <= done <= |offers| && fresh(buffer) && fresh(buffer.entry) && buffer.entry.Length == CAPACITY
      invariant Holds(buffer, offers[..done])
    {
      AddNext(buffer, offers, done);
      done := done + 1;
    }
    assert offers[..done] == offers;
    FillHoldsLatest(offers);
  }

  /** The part of it after the checks. */
  method Overwrite(buffer: CircularBuffer, entry: Entry)
    requires buffer.entry.Length == CAPACITY && buffer.in_offs < CAPACITY
    modifies buffer`in_offs, buffer`out_offs, buffer`full, buffer.entry
    ensures buffer.State() == Add(old(buffer.State()), entry)
  {
    buffer.entry[buffer.in_offs] := entry;
    if buffer.in_offs == buffer.out_offs {
      if buffer.full {
        buffer.out_offs := buffer.out_offs + 1;
        buffer.out_offs := buffer.out_offs % CAPACITY;
      }
    }
    buffer.in_offs := buffer.in_offs + 1;
    buffer.in_offs := buffer.in_offs % CAPACITY;
    if buffer.in_offs == buffer.out_offs {
      buffer.full := true;
    } else {
      buffer.full := false;
    }
  }
}
