/** The vertex cache allocator used on import: a first-fit allocator over the
    engine's 16-bit vertex index space. Active reservations are kept ordered
    by their start (a sorted set whose comparer looks at `start` only), and
    every reservation gets the next value of a handle counter. */
module VertexCache {
  import opened Wrappers

  /** short.MaxValue: no reservation may end beyond this index. */
  const MaxIndex: int := 32767

  datatype CacheEntry = CacheEntry(start: int, length: int, handle: int) {
    function End(): int { start + length }
  }

  /** The half-open ranges [s, s + length) and [e.start, e.End()) share an index. */
  predicate Overlaps(s: int, length: int, e: CacheEntry) {
    s < e.End() && e.start < s + length
  }

  /** Entries are in range and ordered by start, each ending before the next begins. */
  predicate WellFormed(es: seq<CacheEntry>) {
    (forall i :: 0 <= i < |es| ==>
      0 <= es[i].start && 0 <= es[i].length && es[i].End() <= MaxIndex) &&
    (forall i, j :: 0 <= i < j < |es| ==>
      es[i].start < es[j].start && es[i].End() <= es[j].start)
  }

  predicate HandlesBelow(es: seq<CacheEntry>, bound: int) {
    forall i :: 0 <= i < |es| ==> 0 <= es[i].handle < bound
  }

  predicate DistinctHandles(es: seq<CacheEntry>) {
    forall i, j :: 0 <= i < j < |es| ==> es[i].handle != es[j].handle
  }

  /** The candidate start that the reservation scan settles on: walking the
      entries in ascending start order, an entry that begins before the
      candidate range ends pushes the candidate to that entry's end; the
      first entry that does not stops the scan. */
  function FirstFit(es: seq<CacheEntry>, length: int, st: int): (r: int)
  {
    if es == [] then st
    else if es[0].start < st + length then FirstFit(es[1..], length, es[0].End())
    else st
  }

  /** SortedSet.Add with a comparer on `start`: the entry goes to its place in
      start order, unless an entry with the same start is already present, in
      which case the set is left as it was. */
  function InsertEntry(es: seq<CacheEntry>, e: CacheEntry): (r: seq<CacheEntry>)
  {
    if es == [] then [e]
    else if es[0].start == e.start then es
    else if e.start < es[0].start then [e] + es
    else [es[0]] + InsertEntry(es[1..], e)
  }

  /** The entries left after removing the one carrying handle `h`. */
  function RemoveHandle(es: seq<CacheEntry>, h: int): (r: seq<CacheEntry>)
  {
    if es == [] then []
    else if es[0].handle == h then RemoveHandle(es[1..], h)
    else [es[0]] + RemoveHandle(es[1..], h)
  }

  /** The scan never moves backwards, and the range it settles on overlaps
      none of the entries. */
  lemma {:induction false} FirstFitAvoidsEntries(es: seq<CacheEntry>, length: int, st: int)
    requires WellFormed(es)
    requires forall i :: 0 <= i < |es| ==> st <= es[i].start
    ensures st <= FirstFit(es, length, st)
    ensures forall i :: 0 <= i < |es| ==> !Overlaps(FirstFit(es, length, st), length, es[i])
  {
    if es != [] {
      var r := FirstFit(es, length, st);
      if es[0].start < st + length {
        var rest := es[1..];
        assert forall i :: 0 <= i < |rest| ==> es[0].End() <= rest[i].start by {
          forall i | 0 <= i < |rest| ensures es[0].End() <= rest[i].start {
            assert rest[i] == es[i + 1];
          }
        }
        FirstFitAvoidsEntries(rest, length, es[0].End());
        forall i | 0 <= i < |es| ensures !Overlaps(r, length, es[i]) {
          if i > 0 { assert es[i] == rest[i - 1]; }
        }
      }
    }
  }

  /** Every start between the scan's first candidate and its result overlaps
      some entry: the result is the lowest start that fits. */
  lemma {:induction false} FirstFitIsLowest(es: seq<CacheEntry>, length: int, st: int, s: int)
    requires WellFormed(es)
    requires forall i :: 0 <= i < |es| ==> st <= es[i].start
    requires st <= s < FirstFit(es, length, st)
    ensures exists i :: 0 <= i < |es| && Overlaps(s, length, es[i])
  {
    assert es != [] && es[0].start < st + length;
    var rest := es[1..];
    if s < es[0].End() {
      assert Overlaps(s, length, es[0]);
    } else {
      assert forall i :: 0 <= i < |rest| ==> es[0].End() <= rest[i].start by {
        forall i | 0 <= i < |rest| ensures es[0].End() <= rest[i].start {
          assert rest[i] == es[i + 1];
        }
      }
      FirstFitIsLowest(rest, length, es[0].End(), s);
      var i :| 0 <= i < |rest| && Overlaps(s, length, rest[i]);
      assert rest[i] == es[i + 1];
    }
  }

  /** When the scan result does not fit below MaxIndex, no start at all does:
      the reservation fails only when the space is really exhausted. */
  lemma NoFitWhenFirstFitOverflows(es: seq<CacheEntry>, length: int, s: int)
    requires WellFormed(es)
    requires FirstFit(es, length, 0) + length > MaxIndex
    requires 0 <= s && s + length <= MaxIndex
    ensures exists i :: 0 <= i < |es| && Overlaps(s, length, es[i])
  {
    FirstFitIsLowest(es, length, 0, s);
  }

  /** Whatever the insertion yields was already there or is the new entry;
      when the start was free, the new entry and all old ones are present. */
  lemma {:induction false} InsertMembers(es: seq<CacheEntry>, e: CacheEntry)
    ensures forall x :: x in InsertEntry(es, e) ==> x in es || x == e
    ensures (forall i :: 0 <= i < |es| ==> es[i].start != e.start) ==>
      e in InsertEntry(es, e) && forall x :: x in es ==> x in InsertEntry(es, e)
  {
    if es != [] && es[0].start != e.start && e.start > es[0].start {
      InsertMembers(es[1..], e);
      assert InsertEntry(es, e) == [es[0]] + InsertEntry(es[1..], e);
      assert es == [es[0]] + es[1..];
      if forall i :: 0 <= i < |es| ==> es[i].start != e.start {
        assert forall i :: 0 <= i < |es[1..]| ==> es[1..][i].start != e.start by {
          forall i | 0 <= i < |es[1..]| ensures es[1..][i].start != e.start {
            assert es[1..][i] == es[i + 1];
          }
        }
      }
    }
  }

  /** Inserting an in-range entry that overlaps nothing keeps the set well
      formed. */
  lemma {:induction false} InsertKeepsWellFormed(es: seq<CacheEntry>, e: CacheEntry)
    requires WellFormed(es)
    requires 0 <= e.start && 0 <= e.length && e.End() <= MaxIndex
    requires forall i :: 0 <= i < |es| ==> !Overlaps(e.start, e.length, es[i])
    requires forall i :: 0 <= i < |es| ==> es[i].start != e.start
    ensures WellFormed(InsertEntry(es, e))
  {
    if es != [] && e.start > es[0].start {
      var rest := es[1..];
      HeadBeforeRest(es);
      assert forall i :: 0 <= i < |rest| ==> rest[i] == es[i + 1];
      InsertKeepsWellFormed(rest, e);
      InsertMembers(rest, e);
      var ins := InsertEntry(rest, e);
      assert es[0].End() <= e.start by {
        assert !Overlaps(e.start, e.length, es[0]);
      }
      forall k | 0 <= k < |ins| ensures es[0].start < ins[k].start && es[0].End() <= ins[k].start {
        assert ins[k] in ins;
      }
      ConsWellFormed(es[0], ins);
    } else if es != [] {
      forall k | 0 <= k < |es| ensures e.start < es[k].start && e.End() <= es[k].start {
        assert !Overlaps(e.start, e.length, es[k]);
        assert es[0].start <= es[k].start;
      }
      ConsWellFormed(e, es);
    }
  }

  /** The first entry of a well-formed set lies before every other entry,
      and the others form a well-formed set. */
  lemma HeadBeforeRest(es: seq<CacheEntry>)
    requires WellFormed(es) && es != []
    ensures WellFormed(es[1..])
    ensures forall x :: x in es[1..] ==> es[0].start < x.start && es[0].End() <= x.start
  {
    var rest := es[1..];
    assert forall i :: 0 <= i < |rest| ==> rest[i] == es[i + 1];
    forall x | x in rest ensures es[0].start < x.start && es[0].End() <= x.start {
      var j :| 0 <= j < |rest| && rest[j] == x;
    }
  }

  /** Inserting an entry whose handle is fresh keeps the handles distinct. */
  lemma {:induction false} InsertKeepsHandles(es: seq<CacheEntry>, e: CacheEntry, bound: int)
    requires HandlesBelow(es, bound) && DistinctHandles(es)
    requires 0 <= e.handle == bound
    ensures HandlesBelow(InsertEntry(es, e), bound + 1)
    ensures DistinctHandles(InsertEntry(es, e))
  {
    if es != [] && es[0].start != e.start && e.start > es[0].start {
      var rest := es[1..];
      assert forall i :: 0 <= i < |rest| ==> rest[i] == es[i + 1];
      InsertKeepsHandles(rest, e, bound);
      InsertMembers(rest, e);
      var ins := InsertEntry(rest, e);
      assert InsertEntry(es, e) == [es[0]] + ins;
      forall k | 0 <= k < |ins| ensures es[0].handle != ins[k].handle {
        assert ins[k] in ins;
        if ins[k] != e {
          var j :| 0 <= j < |rest| && rest[j] == ins[k];
        }
      }
    }
  }

  /** Removing by handle keeps exactly the entries with another handle. */
  lemma {:induction false} RemoveHandleMembers(es: seq<CacheEntry>, h: int)
    ensures forall x :: x in RemoveHandle(es, h) <==> x in es && x.handle != h
  {
    if es != [] {
      RemoveHandleMembers(es[1..], h);
      assert es == [es[0]] + es[1..];
    }
  }

  /** An in-range entry placed before a well-formed tail that starts after
      it ends gives a well-formed sequence. */
  lemma ConsWellFormed(x: CacheEntry, tail: seq<CacheEntry>)
    requires WellFormed(tail)
    requires 0 <= x.start && 0 <= x.length && x.End() <= MaxIndex
    requires forall k :: 0 <= k < |tail| ==> x.start < tail[k].start && x.End() <= tail[k].start
    ensures WellFormed([x] + tail)
  {
    var s := [x] + tail;
    forall i, j | 0 <= i < j < |s| ensures s[i].start < s[j].start && s[i].End() <= s[j].start {
      assert s[j] == tail[j - 1];
      if i > 0 { assert s[i] == tail[i - 1]; }
    }
  }

  /** Removing by handle keeps the set well formed. */
  lemma {:induction false} RemoveHandleKeepsWellFormed(es: seq<CacheEntry>, h: int)
    requires WellFormed(es)
    ensures WellFormed(RemoveHandle(es, h))
  {
    if es != [] {
      var rest := es[1..];
      assert WellFormed(rest) by {
        assert forall i :: 0 <= i < |rest| ==> rest[i] == es[i + 1];
      }
      RemoveHandleKeepsWellFormed(rest, h);
      var tail := RemoveHandle(rest, h);
      if es[0].handle != h {
        RemoveHandleMembers(rest, h);
        forall k | 0 <= k < |tail| ensures es[0].start < tail[k].start && es[0].End() <= tail[k].start {
          assert tail[k] in tail;
          var j :| 0 <= j < |rest| && rest[j] == tail[k];
          assert rest[j] == es[j + 1];
        }
        ConsWellFormed(es[0], tail);
      }
    }
  }

  /** With distinct handles, removing by handle is removing the single entry
      at the position where the handle is found. */
  lemma {:induction false} RemoveHandleAt(es: seq<CacheEntry>, h: int, k: int)
    requires DistinctHandles(es)
    requires 0 <= k < |es| && es[k].handle == h
    ensures RemoveHandle(es, h) == es[..k] + es[k + 1..]
  {
    if k == 0 {
      RemoveHandleNone(es[1..], h);
      assert es[1..] == es[..0] + es[1..];
    } else {
      RemoveHandleAt(es[1..], h, k - 1);
      assert es[1..][..k - 1] + es[1..][k..] == es[1..k] + es[k + 1..];
      assert [es[0]] + es[1..k] == es[..k];
    }
  }

  lemma {:induction false} RemoveHandleNone(es: seq<CacheEntry>, h: int)
    requires forall i :: 0 <= i < |es| ==> es[i].handle != h
    ensures RemoveHandle(es, h) == es
  {
    if es != [] {
      RemoveHandleNone(es[1..], h);
    }
  }

  /** Deleting one entry keeps the handles below the bound and distinct. */
  lemma DeleteKeepsHandles(es: seq<CacheEntry>, k: int, bound: int)
    requires HandlesBelow(es, bound) && DistinctHandles(es)
    requires 0 <= k < |es|
    ensures HandlesBelow(es[..k] + es[k + 1..], bound)
    ensures DistinctHandles(es[..k] + es[k + 1..])
  {
    var s := es[..k] + es[k + 1..];
    assert forall i :: 0 <= i < |s| ==> s[i] == es[if i < k then i else i + 1];
  }

  /** The allocator's state: the active entries, ordered by start, and the
      counter that supplies the next handle. */
  class VertexCacheManager {
    var entries: seq<CacheEntry>
    var handle: int

    ghost predicate Valid()
      reads this
    {
      0 <= handle && WellFormed(entries) && HandlesBelow(entries, handle) && DistinctHandles(entries)
    }

    constructor ()
      ensures Valid() && entries == [] && handle == 0
    {
      entries := [];
      handle := 0;
    }

    /** Forgets every reservation and restarts handles at 0. */
    method Clear()
      modifies this
      ensures Valid() && entries == [] && handle == 0
    {
      entries := [];
      handle := 0;
    }

    /** Reserves `length` consecutive indices at the lowest start that
        overlaps no active entry. Fails, changing nothing, when that range
        would end beyond MaxIndex; otherwise the handle counter rises by one. */
    method Reserve(length: nat) returns (r: Result<(int, int)>)
      requires Valid()
      modifies this
      ensures Valid()
      ensures r.Ok? <==> FirstFit(old(entries), length, 0) + length <= MaxIndex
      ensures r.Ok? ==>
        && r.value == (FirstFit(old(entries), length, 0), old(handle))
        && handle == old(handle) + 1
        && entries == InsertEntry(old(entries), CacheEntry(r.value.0, length, old(handle)))
        && (forall i :: 0 <= i < |old(entries)| ==> !Overlaps(r.value.0, length, old(entries)[i]))
      ensures r.Err? ==> r.fault == CacheFull && entries == old(entries) && handle == old(handle)
    {
      var st := 0;
      var i := 0;
      while i < |entries|
        invariant 0 <= i <= |entries|
        invariant FirstFit(entries, length, 0) == FirstFit(entries[i..], length, st)
      {
        var en := entries[i];
        if en.start < st + length {
          st := en.End();
          i := i + 1;
        } else {
          break;
        }
      }
      if st + length > MaxIndex {
        return Err(CacheFull);
      }
      FirstFitAvoidsEntries(entries, length, 0);
      InsertKeepsHandles(entries, CacheEntry(st, length, handle), handle);
      var entry := CacheEntry(st, length, handle);
      if k0 :| 0 <= k0 < |entries| && entries[k0].start == st {
        // The start is taken only when the request or the entry there is
        // empty; the set then keeps the old entry and this handle is never
        // stored.
        TakenStartMeansEmpty(entries, length, k0);
        assert InsertEntry(entries, entry) == entries by { InsertAtTakenStart(entries, entry); }
      } else {
        InsertKeepsWellFormed(entries, entry);
      }
      entries := InsertEntry(entries, entry);
      handle := handle + 1;
      r := Ok((st, entry.handle));
    }

    /** Removes the entry carrying `h` and leaves every other entry as it was;
        fails, changing nothing, when no entry carries `h`. */
    method Release(h: int) returns (r: Result<()>)
      requires Valid()
      modifies this
      ensures Valid() && handle == old(handle)
      ensures r.Ok? <==> exists k :: 0 <= k < |old(entries)| && old(entries)[k].handle == h
      ensures r.Ok? ==> entries == RemoveHandle(old(entries), h)
      ensures r.Ok? ==> forall e :: e in entries <==> e in old(entries) && e.handle != h
      ensures r.Err? ==> r.fault == UnknownHandle && entries == old(entries)
    {
      var i := 0;
      while i < |entries|
        invariant 0 <= i <= |entries|
        invariant forall j :: 0 <= j < i ==> entries[j].handle != h
      {
        if entries[i].handle == h {
          RemoveHandleAt(entries, h, i);
          RemoveHandleMembers(entries, h);
          RemoveHandleKeepsWellFormed(entries, h);
          DeleteKeepsHandles(entries, i, handle);
          entries := entries[..i] + entries[i + 1..];
          return Ok(());
        }
        i := i + 1;
      }
      return Err(UnknownHandle);
    }
  }

  /** Adding at a start that is already taken leaves the set unchanged. */
  lemma InsertAtTakenStart(es: seq<CacheEntry>, e: CacheEntry)
    requires WellFormed(es)
    requires exists k :: 0 <= k < |es| && es[k].start == e.start
    ensures InsertEntry(es, e) == es
  {
    var k :| 0 <= k < |es| && es[k].start == e.start;
    InsertAtTakenIndex(es, e, k);
  }

  lemma {:induction false} InsertAtTakenIndex(es: seq<CacheEntry>, e: CacheEntry, k: int)
    requires WellFormed(es)
    requires 0 <= k < |es| && es[k].start == e.start
    ensures InsertEntry(es, e) == es
  {
    if k > 0 {
      var rest := es[1..];
      HeadBeforeRest(es);
      assert rest[k - 1] == es[k];
      InsertAtTakenIndex(rest, e, k - 1);
      assert es[0].start < e.start;
      assert InsertEntry(es, e) == [es[0]] + rest;
      assert es == [es[0]] + rest;
    }
  }

  /** The first fit lands on the start of an active entry only when the
      request or that entry is empty: two non-empty ranges with one start
      would overlap. */
  lemma TakenStartMeansEmpty(es: seq<CacheEntry>, length: int, k: int)
    requires WellFormed(es)
    requires 0 <= k < |es| && es[k].start == FirstFit(es, length, 0)
    ensures length <= 0 || es[k].length == 0
  {
    FirstFitAvoidsEntries(es, length, 0);
    assert !Overlaps(FirstFit(es, length, 0), length, es[k]);
  }

  /** A non-empty reservation can be dropped: over a single empty entry at
      0, the first fit for any length is 0, so the set keeps the empty entry
      and the new handle is never stored (releasing it removes nothing, and
      the release fails). */
  lemma EmptyEntryHidesReservation(x: CacheEntry, length: int, h: int)
    requires x.start == 0 && x.length == 0 && x.handle != h
    ensures FirstFit([x], length, 0) == 0
    ensures InsertEntry([x], CacheEntry(0, length, h)) == [x]
    ensures RemoveHandle([x], h) == [x]
  {
    var es := [x];
    assert es[0] == x && es[1..] == [];
    if 0 < length {
      assert FirstFit(es, length, 0) == FirstFit([], length, x.End());
    }
    assert RemoveHandle(es, h) == [x] + RemoveHandle([], h);
  }

  /** After such a dropped reservation of five indices, a request for
      three is handed start 0 again: its range overlaps the five indices
      the first caller holds. */
  lemma HiddenReservationIsReused(x: CacheEntry)
    requires x.start == 0 && x.length == 0
    ensures FirstFit([x], 3, 0) == 0
    ensures Overlaps(FirstFit([x], 3, 0), 3, CacheEntry(FirstFit([x], 5, 0), 5, x.handle + 1))
  {
    EmptyEntryHidesReservation(x, 3, x.handle + 1);
    EmptyEntryHidesReservation(x, 5, x.handle + 1);
  }

  /** Release undoes Reserve: inserting a reservation whose start and
      handle are both new, then removing its handle, gives the entries back. */
  lemma {:induction false} ReleaseUndoesReserve(es: seq<CacheEntry>, e: CacheEntry)
    requires forall i :: 0 <= i < |es| ==> es[i].start != e.start && es[i].handle != e.handle
    ensures RemoveHandle(InsertEntry(es, e), e.handle) == es
  {
    if es != [] && e.start >= es[0].start {
      ReleaseUndoesReserve(es[1..], e);
    } else {
      RemoveHandleNone(es, e.handle);
    }
  }
}
