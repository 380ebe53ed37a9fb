/** `TimeslotSerie`, the older series revision, which `Day` and `Week` build
    on: a `Map` from slot strings to slots whose `set` rejects a slot that
    overlaps a stored one. The `Map` constructor adds a series' initial
    entries through that same overridden `set` (it discards the given value
    and re-parses the key), so every way of building a series rejects
    overlap, `fromString` included. */
module Serie {
  import opened Wrappers
  import opened Constants
  import Strings
  import T = TimeOfDay
  import opened Timeslots
  import opened SlotOrder
  import M = OrderedMaps
  import opened SeriesCore
  import opened SeriesUtil

  /** `getDefaultTimeslotSerieOptions()`: merging allowed, limits 00:00 and
      23:59. */
  const DEFAULT_OPTIONS: SeriesOptions := SeriesOptions(Some(true), Some(MIDNIGHT), Some(LAST_MINUTE), None)

  /** What every series keeps: distinct keys, and no two slots overlapping. */
  predicate Invariant(entries: Entries)
  {
    M.UniqueKeys(entries) && Disjoint(M.Values(entries))
  }

  // ---------------------------------------------------------------------
  // set, and the constructor loop built on it

  /** `set(key)` on the entries: a string is parsed, a slot overlapping a
      stored one is rejected, and the slot is stored under the string or
      under `key.toString()`. */
  function SetEntries(entries: Entries, ref: SlotRef): (r: Result<Entries>)
    ensures r.Ok? <==> SlotOf(ref).Ok? && forall i :: 0 <= i < |entries| ==> !Overlaps(entries[i].1, SlotOf(ref).value)
  {
    var slot :- SlotOf(ref);
    if exists i :: 0 <= i < |entries| && Overlaps(entries[i].1, slot) then Err(OverlappingTimeslots)
    else Ok(M.Put(entries, KeyOf(ref), slot))
  }

  /** A successful `set` keeps the invariant, maps the key to the slot and
      leaves every other key as it was. */
  lemma SetSpec(entries: Entries, ref: SlotRef)
    requires M.UniqueKeys(entries) && SetEntries(entries, ref).Ok?
    ensures var r := SetEntries(entries, ref).value;
      && M.UniqueKeys(r)
      && (Invariant(entries) ==> Invariant(r))
      && M.Get(r, KeyOf(ref)) == Some(SlotOf(ref).value)
      && (forall k :: k != KeyOf(ref) ==> M.Get(r, k) == M.Get(entries, k))
  {
    var slot := SlotOf(ref).value;
    var r := SetEntries(entries, ref).value;
    M.PutSpec(entries, KeyOf(ref), slot);
    if Invariant(entries) {
      SeriesCore.PutDisjoint(entries, KeyOf(ref), slot);
    }
  }

  /** `set` succeeds exactly when `overlapsWith` answers no. */
  lemma SetIffNoOverlap(entries: Entries, ref: SlotRef)
    requires SlotOf(ref).Ok?
    ensures SetEntries(entries, ref).Ok? <==> OverlapsWith(entries, ref) == Ok(false)
  {
  }

  /** `super(pairs)`: the `Map` constructor calls the overridden `set(key)`
      for each pair in turn; the value is discarded and the key re-parsed. */
  function BuildFrom(acc: Entries, pairs: Entries): (r: Result<Entries>)
    ensures r.Ok? ==> forall i :: 0 <= i < |pairs| ==> FromString(pairs[i].0).Ok?
    ensures Invariant(acc) && r.Ok? ==>
      && Invariant(r.value)
      && forall k :: M.Has(r.value, k) <==> M.Has(acc, k) || k in M.Keys(pairs)
    decreases |pairs|
  {
    if |pairs| == 0 then Ok(acc)
    else
      assert forall i :: 1 <= i < |pairs| ==> pairs[i] == pairs[1..][i - 1];
      var next :- SetEntries(acc, ByString(pairs[0].0));
      BuildKeysStep(acc, pairs, next);
      BuildFrom(next, pairs[1..])
  }

  /** One pass of the constructor loop keeps the invariant and adds the
      first key, and the pairs' keys are the first one and the rest's. */
  lemma BuildKeysStep(acc: Entries, pairs: Entries, next: Entries)
    requires |pairs| > 0 && SetEntries(acc, ByString(pairs[0].0)) == Ok(next)
    ensures FromString(pairs[0].0).Ok?
    ensures Invariant(acc) ==> Invariant(next) && forall k :: M.Has(next, k) <==> M.Has(acc, k) || k == pairs[0].0
    ensures forall k :: k in M.Keys(pairs) <==> k == pairs[0].0 || k in M.Keys(pairs[1..])
  {
    if Invariant(acc) {
      SetSpec(acc, ByString(pairs[0].0));
      forall k
        ensures M.Has(next, k) <==> M.Has(acc, k) || k == pairs[0].0
      {
        assert M.Get(next, k).Some? <==> M.Has(next, k);
        assert M.Get(acc, k).Some? <==> M.Has(acc, k);
      }
    }
    forall k
      ensures k in M.Keys(pairs) <==> k == pairs[0].0 || k in M.Keys(pairs[1..])
    {
      M.KeysFirst(pairs, k);
    }
  }

  /** Canonical pairs of ordered, mutually non-overlapping slots with new keys
      are stored as they are. */
  lemma {:induction false} BuildCanonical(acc: Entries, pairs: Entries)
    requires Canonical(pairs) && AllWellFormed(M.Values(pairs))
    requires M.UniqueKeys(acc + pairs) && Disjoint(M.Values(acc + pairs))
    ensures BuildFrom(acc, pairs) == Ok(acc + pairs)
    decreases |pairs|
  {
    if |pairs| == 0 {
      assert acc + pairs == acc;
    } else {
      var next := acc + [pairs[0]];
      FirstPairAppends(acc, pairs);
      TailCanonical(pairs);
      AppendFirst(acc, pairs);
      BuildCanonical(next, pairs[1..]);
      BuildThrough(acc, pairs, next, next + pairs[1..]);
    }
  }

  /** The first pair appended, then the rest, is all the pairs appended. */
  lemma AppendFirst(acc: Entries, pairs: Entries)
    requires |pairs| > 0
    ensures (acc + [pairs[0]]) + pairs[1..] == acc + pairs
  {
  }

  /** A build that passes the first pair ends where the build of the rest does. */
  lemma BuildThrough(acc: Entries, pairs: Entries, next: Entries, last: Entries)
    requires |pairs| > 0 && SetEntries(acc, ByString(pairs[0].0)) == Ok(next)
    requires BuildFrom(next, pairs[1..]) == Ok(last)
    ensures BuildFrom(acc, pairs) == Ok(last)
  {
    BuildStep(acc, pairs, next);
  }

  /** The constructor loop discards the `Map`'s values: every key it
      stores holds that key's re-parsed slot, whatever the pairs held. */
  lemma {:induction false} BuildValues(acc: Entries, pairs: Entries)
    requires M.UniqueKeys(acc) && KeysReparsed(acc) && BuildFrom(acc, pairs).Ok?
    ensures KeysReparsed(BuildFrom(acc, pairs).value)
    decreases |pairs|
  {
    if |pairs| > 0 {
      var key := pairs[0].0;
      var next := SetEntries(acc, ByString(pairs[0].0)).value;
      SetSpec(acc, ByString(key));
      forall k | M.Has(next, k)
        ensures FromString(k).Ok? && M.Get(next, k) == Some(FromString(k).value)
      {
        if k != key {
          assert M.Get(acc, k) == M.Get(next, k);
        }
      }
      BuildStep(acc, pairs, next);
      BuildValues(next, pairs[1..]);
    }
  }

  /** One step of the `Map` constructor: the first pair's `set`. */
  lemma BuildStep(acc: Entries, pairs: Entries, next: Entries)
    requires |pairs| > 0 && SetEntries(acc, ByString(pairs[0].0)) == Ok(next)
    ensures BuildFrom(acc, pairs) == BuildFrom(next, pairs[1..])
  {
  }

  /** The pairs after the first keep their canonical keys and well-formed slots. */
  lemma TailCanonical(pairs: Entries)
    requires |pairs| > 0 && Canonical(pairs) && AllWellFormed(M.Values(pairs))
    ensures Canonical(pairs[1..]) && AllWellFormed(M.Values(pairs[1..]))
  {
    assert forall i :: 0 <= i < |pairs[1..]| ==> pairs[1..][i] == pairs[i + 1];
    assert forall i :: 0 <= i < |pairs[1..]| ==> M.Values(pairs[1..])[i] == M.Values(pairs)[i + 1];
  }

  /** The first pair passes `set` and goes last. */
  lemma FirstPairAppends(acc: Entries, pairs: Entries)
    requires |pairs| > 0 && Canonical(pairs) && AllWellFormed(M.Values(pairs))
    requires M.UniqueKeys(acc + pairs) && Disjoint(M.Values(acc + pairs))
    ensures SetEntries(acc, ByString(pairs[0].0)) == Ok(acc + [pairs[0]])
  {
    var all := acc + pairs;
    var key, slot := pairs[0].0, pairs[0].1;
    assert all[|acc|] == pairs[0];
    assert M.Values(pairs)[0] == slot;
    assert key == ToString(slot);
    KeyParsesBack(slot);
    forall i | 0 <= i < |acc|
      ensures !Overlaps(acc[i].1, slot)
    {
      assert M.Values(all)[i] == acc[i].1 && M.Values(all)[|acc|] == slot;
    }
    assert !M.Has(acc, key) by {
      forall j | 0 <= j < |acc|
        ensures acc[j].0 != key
      {
        assert all[j] == acc[j];
      }
    }
    SetAppends(acc, key, slot);
  }

  /** Setting a new key whose slot overlaps nothing appends it. */
  lemma SetAppends(acc: Entries, key: string, slot: Timeslot)
    requires SlotOf(ByString(key)) == Ok(slot) && !M.Has(acc, key)
    requires forall i :: 0 <= i < |acc| ==> !Overlaps(acc[i].1, slot)
    ensures SetEntries(acc, ByString(key)) == Ok(acc + [(key, slot)])
  {
  }

  // ---------------------------------------------------------------------
  // The constructors' entries

  /** `new TimeslotSerie({ timeslots: items })` and `fromArray(items)`: map
      each item to its canonical pair, gather the pairs in a plain `Map`
      (a range given twice collapses), then build through `set`. */
  function ItemEntries(items: seq<SlotItem>): (r: Result<Entries>)
    ensures MapItems(items).Err? ==> r == Err(MapItems(items).error)
    ensures r.Ok? ==> Invariant(r.value)
    ensures r.Ok? ==> forall k :: M.Has(r.value, k) <==> ItemKey(items, k)
  {
    var tuples :- MapItems(items);
    ItemKeys(items, tuples);
    BuildFrom([], M.FromPairs(tuples))
  }

  /** Some item's canonical pair has the key `k`. */
  predicate ItemKey(items: seq<SlotItem>, k: string)
  {
    exists i :: 0 <= i < |items| && MapToTimeslotSerieTuple(items[i]).Ok? && MapToTimeslotSerieTuple(items[i]).value.0 == k
  }

  /** The keys of a plain `Map` of the items' pairs are the items' keys. */
  lemma ItemKeys(items: seq<SlotItem>, tuples: seq<(string, Timeslot)>)
    requires MapItems(items) == Ok(tuples)
    ensures forall k :: k in M.Keys(M.FromPairs(tuples)) <==> ItemKey(items, k)
  {
    forall k
      ensures k in M.Keys(M.FromPairs(tuples)) <==> ItemKey(items, k)
    {
      ItemKeyOfTuples(items, tuples, k);
      M.InKeys(M.FromPairs(tuples), k);
    }
  }

  /** The items' keys are the keys of their pairs. */
  lemma ItemKeyOfTuples(items: seq<SlotItem>, tuples: seq<(string, Timeslot)>, k: string)
    requires MapItems(items) == Ok(tuples)
    ensures ItemKey(items, k) <==> k in M.Keys(tuples)
  {
    if k in M.Keys(tuples) {
      TupleKeyIsItemKey(items, tuples, k);
    }
    if ItemKey(items, k) {
      ItemKeyIsTupleKey(items, tuples, k);
    }
  }

  /** A key of the pairs is an item's key. */
  lemma TupleKeyIsItemKey(items: seq<SlotItem>, tuples: seq<(string, Timeslot)>, k: string)
    requires MapItems(items) == Ok(tuples) && k in M.Keys(tuples)
    ensures ItemKey(items, k)
  {
    var i :| 0 <= i < |tuples| && M.Keys(tuples)[i] == k;
    assert tuples[i] == MapToTimeslotSerieTuple(items[i]).value;
  }

  /** An item's key is a key of the pairs. */
  lemma ItemKeyIsTupleKey(items: seq<SlotItem>, tuples: seq<(string, Timeslot)>, k: string)
    requires MapItems(items) == Ok(tuples) && ItemKey(items, k)
    ensures k in M.Keys(tuples)
  {
    var i :| 0 <= i < |items| && MapToTimeslotSerieTuple(items[i]).Ok? && MapToTimeslotSerieTuple(items[i]).value.0 == k;
    assert tuples[i] == MapToTimeslotSerieTuple(items[i]).value;
    assert M.Keys(tuples)[i] == k;
  }

  /** `ranges.map((r) => r.toJSON())`: the records `fromString` passes on. */
  function Records(slots: seq<Timeslot>): (r: seq<SlotItem>)
    ensures |r| == |slots| && forall i :: 0 <= i < |slots| ==> r[i] == SlotRecord(ToJSON(slots[i]))
  {
    seq(|slots|, i requires 0 <= i < |slots| => SlotRecord(ToJSON(slots[i])))
  }

  /** `TimeslotSerie.fromString(value)`: the empty string fails; every
      `,`-separated segment must parse; the sorted slots become records and
      go through the record constructor. */
  function FromStringEntries(value: string): (r: Result<Entries>)
    ensures |value| == 0 ==> r == Err(EmptyInput)
    ensures var parsed := ParseSegments(Strings.Split(value, TIMESLOT_SERIES_SEPARATOR));
      |value| > 0 && parsed.Err? ==> r == Err(parsed.error)
    ensures r.Ok? ==> Invariant(r.value)
    ensures var parsed := ParseSegments(Strings.Split(value, TIMESLOT_SERIES_SEPARATOR));
      r.Ok? ==> parsed.Ok? && forall k :: M.Has(r.value, k) <==> SlotKey(parsed.value, k)
  {
    if |value| == 0 then Err(EmptyInput)
    else
      var slots :- ParseSegments(Strings.Split(value, TIMESLOT_SERIES_SEPARATOR));
      RecordKeys(slots);
      ItemEntries(Records(Sort(slots)))
  }

  /** Some slot prints as `k`. */
  predicate SlotKey(slots: seq<Timeslot>, k: string)
  {
    exists i :: 0 <= i < |slots| && ToString(slots[i]) == k
  }

  /** The keys of the sorted slots' records are the strings of the slots. */
  lemma RecordKeys(slots: seq<Timeslot>)
    ensures forall k :: ItemKey(Records(Sort(slots)), k) <==> SlotKey(slots, k)
  {
    forall k
      ensures ItemKey(Records(Sort(slots)), k) <==> SlotKey(slots, k)
    {
      RecordKey(slots, k);
    }
  }

  /** A key of the sorted slots' records is the string of a slot. */
  lemma RecordKey(slots: seq<Timeslot>, k: string)
    ensures ItemKey(Records(Sort(slots)), k) <==> SlotKey(slots, k)
  {
    var sorted := Sort(slots);
    if ItemKey(Records(sorted), k) {
      RecordKeyFrom(sorted, k);
      SlotKeyMoves(sorted, slots, k);
    }
    if SlotKey(slots, k) {
      SlotKeyMoves(slots, sorted, k);
      RecordKeyTo(sorted, k);
    }
  }

  /** A slot's string is also a slot's string in any permutation. */
  lemma SlotKeyMoves(a: seq<Timeslot>, b: seq<Timeslot>, k: string)
    requires multiset(a) == multiset(b) && SlotKey(a, k)
    ensures SlotKey(b, k)
  {
    var i :| 0 <= i < |a| && ToString(a[i]) == k;
    assert a[i] in multiset(b);
    var j :| 0 <= j < |b| && b[j] == a[i];
  }

  /** The key of a record is the string of its slot. */
  lemma RecordKeyFrom(a: seq<Timeslot>, k: string)
    requires ItemKey(Records(a), k)
    ensures SlotKey(a, k)
  {
    var items := Records(a);
    var i :| 0 <= i < |items| && MapToTimeslotSerieTuple(items[i]).Ok? && MapToTimeslotSerieTuple(items[i]).value.0 == k;
    JsonRoundTrip(a[i]);
    assert items[i] == SlotRecord(ToJSON(a[i]));
    assert MapToTimeslotSerieTuple(items[i]) == Ok((ToString(a[i]), a[i]));
  }

  /** The string of a slot is the key of its record. */
  lemma RecordKeyTo(a: seq<Timeslot>, k: string)
    requires SlotKey(a, k)
    ensures ItemKey(Records(a), k)
  {
    var items := Records(a);
    var i :| 0 <= i < |a| && ToString(a[i]) == k;
    JsonRoundTrip(a[i]);
    assert items[i] == SlotRecord(ToJSON(a[i]));
    assert MapToTimeslotSerieTuple(items[i]) == Ok((ToString(a[i]), a[i]));
  }

  /** The records of well-formed slots map back to their canonical pairs. */
  lemma MapRecords(slots: seq<Timeslot>)
    ensures MapItems(Records(slots)) == Ok(CanonicalEntries(slots))
  {
    var items := Records(slots);
    forall i | 0 <= i < |items|
      ensures MapToTimeslotSerieTuple(items[i]) == Ok((ToString(slots[i]), slots[i]))
    {
      JsonRoundTrip(slots[i]);
    }
    assert MapItems(items).value == CanonicalEntries(slots);
  }

  /** A series of distinct, ordered, non-overlapping slots keyed by their
      strings reads back from its string as its slots in ascending order, so
      `fromString(s.toString())` equals `s`. */
  lemma StringRoundTrip(entries: Entries)
    requires Invariant(entries) && Canonical(entries) && AllWellFormed(M.Values(entries)) && |entries| > 0
    ensures FromStringEntries(SeriesString(entries)) == Ok(CanonicalEntries(SeriesCore.ToArray(entries)))
    ensures SeriesString(CanonicalEntries(SeriesCore.ToArray(entries))) == SeriesString(entries)
  {
    var sorted := SeriesCore.ToArray(entries);
    SeriesCore.SortedWellFormed(entries);
    ParseSlotStrings(sorted);
    SortSorted(sorted);
    FromStringOfSegments(SeriesString(entries), sorted);
    SortedKeysDistinct(entries);
    DisjointPermutation(M.Values(entries), sorted);
    SortedItems(sorted);
    SeriesStringsEqual(CanonicalEntries(sorted), entries);
  }

  /** Distinct canonical keys stay distinct once their slots are sorted. */
  lemma SortedKeysDistinct(entries: Entries)
    requires Invariant(entries) && Canonical(entries)
    ensures M.UniqueKeys(CanonicalEntries(SeriesCore.ToArray(entries)))
  {
    var sorted := SeriesCore.ToArray(entries);
    var ce := CanonicalEntries(sorted);
    forall i, j | 0 <= i < j < |ce|
      ensures ce[i].0 != ce[j].0
    {
      SortedKeyPair(entries, sorted, i, j);
    }
  }

  /** Two positions of the sorted slots hold different strings: equal strings
      mean equal slots, and a stored slot is held under one key only. */
  lemma SortedKeyPair(entries: Entries, sorted: seq<Timeslot>, i: int, j: int)
    requires Invariant(entries) && Canonical(entries)
    requires multiset(sorted) == multiset(M.Values(entries)) && 0 <= i < j < |sorted|
    ensures ToString(sorted[i]) != ToString(sorted[j])
  {
    var vs := M.Values(entries);
    if ToString(sorted[i]) == ToString(sorted[j]) {
      ToStringInjective(sorted[i], sorted[j]);
      Twice(sorted, i, j);
      var p, q := TwoPositions(vs, sorted[i]);
      if p < q { CanonicalDistinct(entries, p, q); } else { CanonicalDistinct(entries, q, p); }
    }
  }

  /** `fromString` on a value whose segments parse to `slots`. */
  lemma FromStringOfSegments(value: string, slots: seq<Timeslot>)
    requires |value| > 0 && ParseSegments(Strings.Split(value, TIMESLOT_SERIES_SEPARATOR)) == Ok(slots)
    ensures FromStringEntries(value) == ItemEntries(Records(Sort(slots)))
  {
  }

  /** `fromString` succeeds exactly on a non-empty value whose segments all
      parse and whose slots are pairwise equal or non-overlapping; the
      series then holds the parsed slots in ascending order, each once,
      under their strings. Two different overlapping segments throw the
      overlap error. */
  lemma FromStringSlots(value: string)
    ensures var parsed := ParseSegments(Strings.Split(value, TIMESLOT_SERIES_SEPARATOR));
      FromStringEntries(value).Ok? <==> |value| > 0 && parsed.Ok? && NoneOverlap(parsed.value)
    ensures var parsed := ParseSegments(Strings.Split(value, TIMESLOT_SERIES_SEPARATOR));
      |value| > 0 && parsed.Ok? && !NoneOverlap(parsed.value) ==> FromStringEntries(value) == Err(OverlappingTimeslots)
    ensures var parsed := ParseSegments(Strings.Split(value, TIMESLOT_SERIES_SEPARATOR));
      FromStringEntries(value).Ok? ==>
        && parsed.Ok?
        && FromStringEntries(value).value == CanonicalEntries(Dedup(Sort(parsed.value)))
        && Sorted(M.Values(FromStringEntries(value).value))
        && AllWellFormed(M.Values(FromStringEntries(value).value))
  {
    var parsed := ParseSegments(Strings.Split(value, TIMESLOT_SERIES_SEPARATOR));
    if |value| > 0 && parsed.Ok? {
      ParsedOutcome(value, parsed.value);
    }
  }

  /** `fromString` on segments that parse to `slots`: the sorted slots, kept
      once each, are stored under their strings when no two different slots
      overlap, and the overlap error is thrown otherwise. */
  lemma ParsedOutcome(value: string, slots: seq<Timeslot>)
    requires |value| > 0 && ParseSegments(Strings.Split(value, TIMESLOT_SERIES_SEPARATOR)) == Ok(slots)
    ensures var d := Dedup(Sort(slots));
      && AllWellFormed(d) && Sorted(d)
      && (NoneOverlap(slots) ==> FromStringEntries(value) == Ok(CanonicalEntries(d)))
      && (!NoneOverlap(slots) ==> FromStringEntries(value) == Err(OverlappingTimeslots))
  {
    var sorted := Sort(slots);
    FromStringBuilds(value, slots);
    ParsedWellFormed(Strings.Split(value, TIMESLOT_SERIES_SEPARATOR));
    DedupWellFormed(slots);
    DedupSorted(sorted);
    CanonicalBuild(Dedup(sorted));
    DedupDisjoint(sorted);
    NoneOverlapSort(slots);
  }

  /** The constructor loop on the canonical pairs of different well-formed
      slots stores them when no two overlap, and throws the overlap error
      otherwise. */
  lemma CanonicalBuild(d: seq<Timeslot>)
    requires AllWellFormed(d) && forall i, j :: 0 <= i < j < |d| ==> d[i] != d[j]
    ensures Disjoint(d) ==> BuildFrom([], CanonicalEntries(d)) == Ok(CanonicalEntries(d))
    ensures !Disjoint(d) ==> BuildFrom([], CanonicalEntries(d)) == Err(OverlappingTimeslots)
  {
    var ce := CanonicalEntries(d);
    DistinctKeys(d);
    assert [] + ce == ce;
    BuildCanonicalOutcome([], ce);
    if Disjoint(d) {
      BuildFresh(ce);
    } else {
      StoredDisjoint(ce);
    }
  }

  /** What the constructor loop stores from the empty series keeps no two
      slots overlapping. */
  lemma StoredDisjoint(pairs: Entries)
    ensures BuildFrom([], pairs).Ok? ==> Disjoint(M.Values(BuildFrom([], pairs).value))
  {
    var empty: Entries := [];
    assert Invariant(empty);
  }

  /** `fromString` on segments that parse to `slots` is the constructor
      loop on the canonical pairs of the sorted slots, kept once each. */
  lemma FromStringBuilds(value: string, slots: seq<Timeslot>)
    requires |value| > 0 && ParseSegments(Strings.Split(value, TIMESLOT_SERIES_SEPARATOR)) == Ok(slots)
    ensures FromStringEntries(value) == BuildFrom([], CanonicalEntries(Dedup(Sort(slots))))
  {
    var sorted := Sort(slots);
    FromStringOfSegments(value, slots);
    MapRecords(sorted);
    ItemEntriesOf(Records(sorted), CanonicalEntries(sorted));
    CanonicalDedup(sorted);
  }

  /** The constructor loop on canonical pairs of well-formed slots with new
      keys either stores them all, appended in order, or meets a slot that
      overlaps a stored one. */
  lemma {:induction false} BuildCanonicalOutcome(acc: Entries, pairs: Entries)
    requires Canonical(pairs) && AllWellFormed(M.Values(pairs)) && M.UniqueKeys(acc + pairs)
    ensures BuildFrom(acc, pairs) == Ok(acc + pairs) || BuildFrom(acc, pairs) == Err(OverlappingTimeslots)
    decreases |pairs|
  {
    if |pairs| == 0 {
      assert acc + pairs == acc;
    } else {
      var all := acc + pairs;
      var key, slot := pairs[0].0, pairs[0].1;
      assert all[|acc|] == pairs[0];
      assert M.Values(pairs)[0] == slot;
      KeyParsesBack(slot);
      if exists i :: 0 <= i < |acc| && Overlaps(acc[i].1, slot) {
        assert SetEntries(acc, ByString(key)) == Err(OverlappingTimeslots);
      } else {
        assert !M.Has(acc, key) by {
          forall j | 0 <= j < |acc|
            ensures acc[j].0 != key
          {
            assert all[j] == acc[j];
          }
        }
        SetAppends(acc, key, slot);
        var next := acc + [pairs[0]];
        TailCanonical(pairs);
        AppendFirst(acc, pairs);
        BuildCanonicalOutcome(next, pairs[1..]);
        BuildStep(acc, pairs, next);
      }
    }
  }

  /** Sorted, well-formed, disjoint slots with distinct strings come out of
      the record constructor as their canonical pairs. */
  lemma SortedItems(sorted: seq<Timeslot>)
    requires AllWellFormed(sorted) && Disjoint(sorted) && M.UniqueKeys(CanonicalEntries(sorted))
    ensures ItemEntries(Records(sorted)) == Ok(CanonicalEntries(sorted))
  {
    var ce := CanonicalEntries(sorted);
    MapRecords(sorted);
    M.FromPairsUnique(ce);
    BuildFresh(ce);
  }

  /** Canonical pairs with distinct keys and disjoint slots build from the
      empty series to themselves. */
  lemma BuildFresh(pairs: Entries)
    requires Canonical(pairs) && AllWellFormed(M.Values(pairs))
    requires M.UniqueKeys(pairs) && Disjoint(M.Values(pairs))
    ensures BuildFrom([], pairs) == Ok(pairs)
  {
    assert [] + pairs == pairs;
    BuildCanonical([], pairs);
  }

  /** Two different segments that overlap make `fromString` fail: the second
      one's `set` finds the first. */
  lemma FromStringRejectsOverlap(a: Timeslot, b: Timeslot)
    requires WellFormed(a) && WellFormed(b) && a != b && Overlaps(a, b)
    ensures FromStringEntries(ToString(a) + [TIMESLOT_SERIES_SEPARATOR] + ToString(b)) == Err(OverlappingTimeslots)
  {
    var value := ToString(a) + [TIMESLOT_SERIES_SEPARATOR] + ToString(b);
    TwoSegments(a, b);
    FromStringOfSegments(value, [a, b]);
    var sorted := Sort([a, b]);
    SortTwo(a, b);
    TwoOverlappingItems(sorted[0], sorted[1]);
  }

  /** Two slots sort to one order or the other. */
  lemma SortTwo(a: Timeslot, b: Timeslot)
    ensures Sort([a, b]) == [a, b] || Sort([a, b]) == [b, a]
  {
    if Le(b, a) {
      SortedPair(Sort([a, b]), a, b);
    } else {
      assert multiset([a, b]) == multiset([b, a]);
      SortedPair(Sort([a, b]), b, a);
    }
  }

  /** The record constructor on two different overlapping slots fails at the
      second. */
  lemma TwoOverlappingItems(x: Timeslot, y: Timeslot)
    requires WellFormed(x) && WellFormed(y) && x != y && Overlaps(x, y)
    ensures ItemEntries(Records([x, y])) == Err(OverlappingTimeslots)
  {
    KeyParsesBack(x);
    KeyParsesBack(y);
    TwoRecords(x, y);
    ItemEntriesOf(Records([x, y]), [(ToString(x), x), (ToString(y), y)]);
    KeysDiffer(x, y);
    TwoOverlappingBuild((ToString(x), x), (ToString(y), y));
  }

  /** Different slots have different strings. */
  lemma KeysDiffer(x: Timeslot, y: Timeslot)
    requires x != y
    ensures ToString(x) != ToString(y)
  {
    if ToString(x) == ToString(y) {
      ToStringInjective(x, y);
    }
  }

  /** The constructor loop on two overlapping pairs with different keys fails at the second. */
  lemma TwoOverlappingBuild(px: (string, Timeslot), py: (string, Timeslot))
    requires SlotOf(ByString(px.0)) == Ok(px.1) && SlotOf(ByString(py.0)) == Ok(py.1)
    requires px.0 != py.0 && Overlaps(px.1, py.1)
    ensures BuildFrom([], M.FromPairs([px, py])) == Err(OverlappingTimeslots)
  {
    M.FromTwoPairs(px, py);
    FirstSet(px);
    BuildSecondOverlaps(px, py);
  }

  /** Storing the first pair in an empty series gives just that pair. */
  lemma FirstSet(p: (string, Timeslot))
    requires SlotOf(ByString(p.0)) == Ok(p.1)
    ensures SetEntries([], ByString(p.0)) == Ok([p])
  {
    SetAppends([], p.0, p.1);
    assert [] + [(p.0, p.1)] == [p];
  }

  /** The entries of items that map to `tuples`. */
  lemma ItemEntriesOf(items: seq<SlotItem>, tuples: Entries)
    requires MapItems(items) == Ok(tuples)
    ensures ItemEntries(items) == BuildFrom([], M.FromPairs(tuples))
  {
  }

  /** The records of two slots map to their two canonical pairs. */
  lemma TwoRecords(x: Timeslot, y: Timeslot)
    ensures MapItems(Records([x, y])) == Ok([(ToString(x), x), (ToString(y), y)])
  {
    MapRecords([x, y]);
    var ce := CanonicalEntries([x, y]);
    assert ce == [(ToString(x), x), (ToString(y), y)];
  }

  /** When the second pair overlaps the first, the loop fails at the second `set`. */
  lemma BuildSecondOverlaps(px: (string, Timeslot), py: (string, Timeslot))
    requires SetEntries([], ByString(px.0)) == Ok([px])
    requires SlotOf(ByString(py.0)) == Ok(py.1) && Overlaps(px.1, py.1)
    ensures BuildFrom([], [px, py]) == Err(OverlappingTimeslots)
  {
    var first := [px];
    assert first[0].1 == px.1;
    assert SetEntries(first, ByString(py.0)) == Err(OverlappingTimeslots);
    assert [px, py][1..] == [py];
  }

  /** A segment given twice collapses into one entry instead of failing. */
  lemma FromStringCollapsesDuplicate(a: Timeslot)
    requires WellFormed(a)
    ensures FromStringEntries(ToString(a) + [TIMESLOT_SERIES_SEPARATOR] + ToString(a)) == Ok([(ToString(a), a)])
  {
    var value := ToString(a) + [TIMESLOT_SERIES_SEPARATOR] + ToString(a);
    TwoSegments(a, a);
    FromStringOfSegments(value, [a, a]);
    SortTwo(a, a);
    DuplicateItems(a);
  }

  /** The record constructor on one slot given twice keeps it once. */
  lemma DuplicateItems(a: Timeslot)
    requires WellFormed(a)
    ensures ItemEntries(Records([a, a])) == Ok([(ToString(a), a)])
  {
    var p := (ToString(a), a);
    TwoRecords(a, a);
    ItemEntriesOf(Records([a, a]), [p, p]);
    PairTwice(p);
    KeyParsesBack(a);
    FirstSet(p);
    BuildSingle(p);
  }

  /** `new Map([p, p])` holds `p` once. */
  lemma PairTwice(p: (string, Timeslot))
    ensures M.FromPairs([p, p]) == [p]
  {
    var pp := [p, p];
    assert pp[..1] == [p];
    M.FromPairsUnique([p]);
  }

  /** The constructor loop on one pair stores it. */
  lemma BuildSingle(p: (string, Timeslot))
    requires SetEntries([], ByString(p.0)) == Ok([p])
    ensures BuildFrom([], [p]) == Ok([p])
  {
    assert [p][1..] == [];
  }

  /** The string of a well-formed slot reads back as the slot. */
  lemma KeyParsesBack(s: Timeslot)
    requires WellFormed(s)
    ensures SlotOf(ByString(ToString(s))) == Ok(s)
  {
    Timeslots.StringRoundTrip(s);
  }

  /** Two segments joined with `,` parse to the two slots. */
  lemma TwoSegments(a: Timeslot, b: Timeslot)
    requires WellFormed(a) && WellFormed(b)
    ensures var value := ToString(a) + [TIMESLOT_SERIES_SEPARATOR] + ToString(b);
      |value| > 0 && ParseSegments(Strings.Split(value, TIMESLOT_SERIES_SEPARATOR)) == Ok([a, b])
  {
    TwoSlotStrings(a, b);
    TwoStringsParse(a, b);
  }

  /** Joining two slot strings with `,` and splitting gives them back. */
  lemma TwoSlotStrings(a: Timeslot, b: Timeslot)
    ensures Strings.Split(ToString(a) + [TIMESLOT_SERIES_SEPARATOR] + ToString(b), TIMESLOT_SERIES_SEPARATOR)
      == [ToString(a), ToString(b)]
  {
    NoSeriesSeparator(a);
    NoSeriesSeparator(b);
    Strings.SplitTwo(ToString(a), TIMESLOT_SERIES_SEPARATOR, ToString(b));
  }

  /** The strings of two well-formed slots parse back to the slots. */
  lemma TwoStringsParse(a: Timeslot, b: Timeslot)
    requires WellFormed(a) && WellFormed(b)
    ensures ParseSegments([ToString(a), ToString(b)]) == Ok([a, b])
  {
    Timeslots.StringRoundTrip(a);
    Timeslots.StringRoundTrip(b);
    SeriesCore.ParseTwo(ToString(a), ToString(b), a, b);
  }

  /** A stored series has its gaps when its slots have ordered ends, and the
      slots and gaps tile its span. */
  lemma InvariantGaps(entries: Entries, options: Option<SeriesOptions>)
    requires Invariant(entries) && AllWellFormed(M.Values(entries))
    ensures EmptyTimeslots(entries, false, options) == Ok(Gaps(SeriesCore.ToArray(entries)))
    ensures |entries| > 0 ==> var sorted := SeriesCore.ToArray(entries);
      TotalDuration(sorted) + TotalDuration(Gaps(sorted))
        == sorted[|sorted| - 1].end.globalMinutes - sorted[0].start.globalMinutes
  {
    DisjointPermutation(M.Values(entries), SeriesCore.ToArray(entries));
    DisjointSeriesGaps(entries, options);
  }

  /** `delete` keeps the invariant. */
  lemma RemoveKeepsInvariant(entries: Entries, key: string)
    requires Invariant(entries)
    ensures Invariant(M.Remove(entries, key))
  {
    M.RemoveSpec(entries, key);
    if M.Has(entries, key) {
      var x := M.IndexOf(entries, key).value;
      var r := M.Remove(entries, key);
      var vs, ws := M.Values(entries), M.Values(r);
      forall i, j | 0 <= i < j < |ws|
        ensures !Overlaps(ws[i], ws[j])
      {
        var i' := if i < x then i else i + 1;
        var j' := if j < x then j else j + 1;
        assert ws[i] == vs[i'] && ws[j] == vs[j'];
      }
    }
  }

  /** A successful `replace(a, b)` removes `a` and maps `b`'s key to `b`'s
      slot, leaving every other key as it was. */
  lemma ReplaceSpec(entries: Entries, replace: SlotRef, timeslot: SlotRef)
    requires Invariant(entries) && M.Has(entries, KeyOf(replace)) && !M.Has(entries, KeyOf(timeslot))
    requires SetEntries(M.Remove(entries, KeyOf(replace)), timeslot).Ok?
    ensures var r := SetEntries(M.Remove(entries, KeyOf(replace)), timeslot).value;
      && Invariant(r)
      && !M.Has(r, KeyOf(replace))
      && M.Get(r, KeyOf(timeslot)) == Some(SlotOf(timeslot).value)
      && (forall k :: k != KeyOf(replace) && k != KeyOf(timeslot) ==> M.Get(r, k) == M.Get(entries, k))
  {
    var removed := M.Remove(entries, KeyOf(replace));
    M.RemoveSpec(entries, KeyOf(replace));
    RemoveKeepsInvariant(entries, KeyOf(replace));
    SetSpec(removed, timeslot);
    var r := SetEntries(removed, timeslot).value;
    assert M.Get(r, KeyOf(replace)) == M.Get(removed, KeyOf(replace));
  }

  // ---------------------------------------------------------------------
  // The class

  class TimeslotSerie {
    var entries: Entries
    /** `_options`: set only by the record constructor. */
    var options: Option<SeriesOptions>

    ghost predicate Valid()
      reads this
    {
      Invariant(entries)
    }

    /** `new TimeslotSerie()` and `new TimeslotSerie(null)`. */
    constructor Empty()
      ensures entries == [] && options == None && Valid()
    {
      entries := [];
      options := None;
    }

    /** `new TimeslotSerie(map)` and the `super(...)` call of every
      constructor: the pairs are added with `set(key)`, one by one. */
    static method FromMap(pairs: Entries) returns (r: Result<TimeslotSerie>)
      ensures r.Ok? <==> BuildFrom([], pairs).Ok?
      ensures r.Err? ==> r.error == BuildFrom([], pairs).error
      ensures r.Ok? ==> KeysReparsed(r.value.entries)
      ensures r.Ok? ==> (fresh(r.value) && r.value.entries == BuildFrom([], pairs).value
        && r.value.options == None && r.value.Valid())
    {
      var serie := new TimeslotSerie.Empty();
      var i := 0;
      while i < |pairs|
        invariant 0 <= i <= |pairs|
        invariant fresh(serie) && serie.options == None && serie.Valid()
        invariant BuildFrom([], pairs) == BuildFrom(serie.entries, pairs[i..])
      {
        assert pairs[i..][1..] == pairs[i + 1..];
        var outcome := serie.Set(ByString(pairs[i].0));
        if outcome.Fail? {
          return Err(outcome.error);
        }
        i := i + 1;
      }
      BuildValues([], pairs);
      return Ok(serie);
    }

    /** `new TimeslotSerie(serie)`: the entries are added again through
      `set`, so the copy stores each key's re-parsed slot. */
    static method Copy(other: TimeslotSerie) returns (r: Result<TimeslotSerie>)
      ensures r.Ok? <==> BuildFrom([], other.entries).Ok?
      ensures r.Err? ==> r.error == BuildFrom([], other.entries).error
      ensures r.Ok? ==> KeysReparsed(r.value.entries)
      ensures r.Ok? ==> (fresh(r.value) && r.value.entries == BuildFrom([], other.entries).value
        && r.value.options == None && r.value.Valid())
    {
      r := FromMap(other.entries);
    }

    /** `new TimeslotSerie({ timeslots: items }, options)`: options, when
      given, are stored as they are; otherwise the defaults are. */
    static method FromRecords(items: seq<SlotItem>, options: Option<SeriesOptions>) returns (r: Result<TimeslotSerie>)
      ensures r.Ok? <==> ItemEntries(items).Ok?
      ensures r.Err? ==> r.error == ItemEntries(items).error
      ensures r.Ok? ==> (fresh(r.value) && r.value.entries == ItemEntries(items).value
        && r.value.options == Some(OrDefault(options, DEFAULT_OPTIONS)) && r.value.Valid())
    {
      var tuples :- MapItems(items);
      var serie :- FromMap(M.FromPairs(tuples));
      serie.options := Some(OrDefault(options, DEFAULT_OPTIONS));
      return Ok(serie);
    }

    /** `TimeslotSerie.fromArray(items, options)`: the series is built from a
      `Map`, the branch of the constructor that stores no options, so the
      options given are dropped. */
    static method FromArray(items: seq<SlotItem>, options: Option<SeriesOptions>) returns (r: Result<TimeslotSerie>)
      ensures r.Ok? <==> ItemEntries(items).Ok?
      ensures r.Err? ==> r.error == ItemEntries(items).error
      ensures r.Ok? ==> (fresh(r.value) && r.value.entries == ItemEntries(items).value
        && r.value.options == None && r.value.Valid())
    {
      var tuples :- MapItems(items);
      r := FromMap(M.FromPairs(tuples));
    }

    /** `TimeslotSerie.fromString(value, data, options)`. */
    static method FromString(value: string, options: Option<SeriesOptions>) returns (r: Result<TimeslotSerie>)
      ensures r.Ok? <==> FromStringEntries(value).Ok?
      ensures r.Err? ==> r.error == FromStringEntries(value).error
      ensures r.Ok? ==> (fresh(r.value) && r.value.entries == FromStringEntries(value).value
        && r.value.options == Some(OrDefault(options, DEFAULT_OPTIONS)) && r.value.Valid())
    {
      if |value| == 0 {
        return Err(EmptyInput);
      }
      var slots :- ParseSegments(Strings.Split(value, TIMESLOT_SERIES_SEPARATOR));
      r := FromRecords(Records(Sort(slots)), Some(OrDefault(options, DEFAULT_OPTIONS)));
    }

    /** `set(key)`. */
    method Set(ref: SlotRef) returns (outcome: Outcome)
      modifies this
      ensures outcome.Pass? <==> SetEntries(old(entries), ref).Ok?
      ensures outcome.Fail? ==> outcome.error == SetEntries(old(entries), ref).error
      ensures entries == if outcome.Pass? then SetEntries(old(entries), ref).value else old(entries)
      ensures options == old(options)
      ensures old(Valid()) ==> Valid()
    {
      var next := SetEntries(entries, ref);
      if next.Err? {
        return Fail(next.error);
      }
      if Invariant(entries) {
        SetSpec(entries, ref);
      }
      entries := next.value;
      return Pass;
    }

    /** `has(timeslot)`: a lookup by key string. */
    function Has(ref: SlotRef): (b: bool)
      reads this
      ensures b <==> exists i :: 0 <= i < |entries| && entries[i].0 == KeyOf(ref)
    {
      M.Has(entries, KeyOf(ref))
    }

    /** `delete(timeslot)`: removes the entry under the key string and says
      whether there was one. */
    method Delete(ref: SlotRef) returns (removed: bool)
      modifies this
      ensures removed == M.Has(old(entries), KeyOf(ref))
      ensures entries == M.Remove(old(entries), KeyOf(ref)) && options == old(options)
      ensures old(Valid()) ==> Valid()
    {
      removed := M.Has(entries, KeyOf(ref));
      if Invariant(entries) {
        RemoveKeepsInvariant(entries, KeyOf(ref));
      }
      entries := M.Remove(entries, KeyOf(ref));
    }

    /** `replace(replace, timeslot)`: nothing happens unless `replace` is present
      and `timeslot` is not; otherwise `replace` is deleted first and `timeslot` set,
      so a `timeslot` that overlaps another slot leaves the series without
      `replace`. */
    method Replace(replace: SlotRef, timeslot: SlotRef) returns (outcome: Outcome)
      modifies this
      ensures !M.Has(old(entries), KeyOf(replace)) || M.Has(old(entries), KeyOf(timeslot)) ==>
        outcome == Pass && entries == old(entries)
      ensures M.Has(old(entries), KeyOf(replace)) && !M.Has(old(entries), KeyOf(timeslot)) ==>
        var removed := M.Remove(old(entries), KeyOf(replace));
        && (outcome.Pass? <==> SetEntries(removed, timeslot).Ok?)
        && entries == (if outcome.Pass? then SetEntries(removed, timeslot).value else removed)
      ensures options == old(options)
      ensures old(Valid()) ==> Valid()
    {
      if !Has(replace) || Has(timeslot) {
        return Pass;
      }
      var _ := Delete(replace);
      outcome := Set(timeslot);
    }

    /** `toArray()`. */
    function ToArray(): (r: seq<Timeslot>)
      reads this
      ensures Sorted(r) && multiset(r) == multiset(M.Values(entries))
    {
      SeriesCore.ToArray(entries)
    }

    /** `first`. */
    function First(): (r: Result<Timeslot>)
      reads this
      ensures r.Ok? <==> |entries| > 0
      ensures r.Ok? ==> exists i :: 0 <= i < |entries| && entries[i].1 == r.value
      ensures r.Ok? ==> forall i :: 0 <= i < |entries| ==> Le(r.value, entries[i].1)
    {
      SeriesCore.First(entries)
    }

    /** `last`. */
    function Last(): (r: Result<Timeslot>)
      reads this
      ensures r.Ok? <==> |entries| > 0
      ensures r.Ok? ==> exists i :: 0 <= i < |entries| && entries[i].1 == r.value
      ensures r.Ok? ==> forall i :: 0 <= i < |entries| ==> Le(entries[i].1, r.value)
    {
      SeriesCore.Last(entries)
    }

    /** `toString()`, and `toLocalString()`, which gives the same text. */
    function ToString(): (s: string)
      reads this
      ensures |s| == 0 <==> |entries| == 0
    {
        SeriesString(entries)
    }

    /** `toJSON().timeslots`. */
    function ToJSON(): (r: seq<TimeslotSerializable>)
      reads this
      ensures |r| == |entries|
      ensures forall i :: 0 <= i < |r| ==> FromSerializable(r[i]) == Ok(ToArray()[i])
    {
      SeriesJSON(entries)
    }

    /** `equals(that)`: the two strings agree, which is to say the two
      series hold the same slots. */
    function Equals(that: TimeslotSerie): (b: bool)
      reads this, that
      ensures b <==> multiset(M.Values(entries)) == multiset(M.Values(that.entries))
    {
      SeriesStringsEqual(entries, that.entries);
      SeriesString(entries) == SeriesString(that.entries)
    }

    /** `contains(value)`. */
    function Contains(p: Probe): (b: bool)
      reads this
      ensures b <==> exists i :: 0 <= i < |entries| && Holds(entries[i].1, p)
    {
      SeriesCore.Contains(entries, p)
    }

    /** `contains(value, true)`: the least slot containing `value`. */
    function ContainsExtract(p: Probe): (r: Option<Timeslot>)
      reads this
      ensures r.None? <==> forall i :: 0 <= i < |entries| ==> !Holds(entries[i].1, p)
      ensures r.Some? ==> Holds(r.value, p) && exists i :: 0 <= i < |entries| && entries[i].1 == r.value
      ensures r.Some? ==> forall i :: 0 <= i < |entries| && Holds(entries[i].1, p) ==> Le(r.value, entries[i].1)
    {
      SeriesCore.ContainsExtract(entries, p)
    }

    /** `overlapsWith(timeslot)`. */
    function OverlapsWith(ref: SlotRef): (r: Result<bool>)
      reads this
      ensures r.Ok? <==> SlotOf(ref).Ok?
      ensures r.Ok? ==> (r.value <==> exists i :: 0 <= i < |entries| && Overlaps(entries[i].1, SlotOf(ref).value))
    {
      SeriesCore.OverlapsWith(entries, ref)
    }

    /** `getEmptyTimeslots(extendsToLimit)`. */
    method GetEmptyTimeslots(extendsToLimit: bool) returns (r: Result<seq<Timeslot>>)
      ensures r == EmptyTimeslots(entries, extendsToLimit, options)
    {
      var sorted := ToArray();
      var gaps :- EmptyGaps(sorted);
      if extendsToLimit {
        r := ExtendToLimits(gaps, sorted, options);
      } else {
        r := Ok(gaps);
      }
    }
  }
}
