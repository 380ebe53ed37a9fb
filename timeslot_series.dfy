/** `TimeslotSeries`, the newer series revision: the same `Map` from slot
    strings to slots, but `set` checks overlap only behind the option flag
    `enforceOverlappingCheck`, and `fromString` checks every pair of segments
    itself. During `super(...)` the options are not yet assigned, so the
    initial entries of every constructor are re-parsed from their keys and
    stored without any overlap check. */
module Series {
  import opened Wrappers
  import opened Constants
  import Strings
  import T = TimeOfDay
  import opened Timeslots
  import opened SlotOrder
  import M = OrderedMaps
  import opened SeriesCore
  import opened SeriesUtil
  import Serie

  /** `getDefaultTimeslotSeriesOptions()`: merging allowed, limits 00:00 and
      23:59, and the overlap check off. */
  const DEFAULT_OPTIONS: SeriesOptions := SeriesOptions(Some(true), Some(MIDNIGHT), Some(LAST_MINUTE), Some(false))

  /** `this._options?.enforceOverlappingCheck` is truthy. */
  predicate Enforced(options: Option<SeriesOptions>)
  {
    options.Some? && options.value.enforceOverlappingCheck == Some(true)
  }

  // ---------------------------------------------------------------------
  // set, and the constructor loop built on it

  /** `set(key)` on the entries: a string is parsed; with the flag on, the
      method throws whether or not a stored slot overlaps (the error names
      the overlapped slot, and there is none to name when nothing overlaps);
      with the flag off, the slot is stored under the string or under
      `key.toString()`. */
  function SetEntries(entries: Entries, options: Option<SeriesOptions>, ref: SlotRef): (r: Result<Entries>)
    ensures r.Ok? <==> SlotOf(ref).Ok? && !Enforced(options)
  {
    var slot :- SlotOf(ref);
    if Enforced(options) then
      if exists i :: 0 <= i < |entries| && Overlaps(entries[i].1, slot) then Err(OverlappingTimeslots)
      else Err(RuntimeTypeError)
    else Ok(M.Put(entries, KeyOf(ref), slot))
  }

  /** With `enforceOverlappingCheck` on, `set` always fails: with the
      overlap error when `overlapsWith` would answer yes, and with a runtime
      type error when it would answer no. */
  lemma EnforcedSetAlwaysFails(entries: Entries, options: Option<SeriesOptions>, ref: SlotRef)
    requires Enforced(options) && SlotOf(ref).Ok?
    ensures SetEntries(entries, options, ref).Err?
    ensures OverlapsWith(entries, ref) == Ok(true) ==> SetEntries(entries, options, ref) == Err(OverlappingTimeslots)
    ensures OverlapsWith(entries, ref) == Ok(false) ==> SetEntries(entries, options, ref) == Err(RuntimeTypeError)
  {
  }

  /** A successful `set` keeps keys distinct, maps the key to the slot and
      leaves every other key as it was. */
  lemma SetSpec(entries: Entries, options: Option<SeriesOptions>, ref: SlotRef)
    requires M.UniqueKeys(entries) && SetEntries(entries, options, ref).Ok?
    ensures var r := SetEntries(entries, options, ref).value;
      && M.UniqueKeys(r)
      && M.Get(r, KeyOf(ref)) == Some(SlotOf(ref).value)
      && (forall k :: k != KeyOf(ref) ==> M.Get(r, k) == M.Get(entries, k))
  {
    M.PutSpec(entries, KeyOf(ref), SlotOf(ref).value);
  }

  /** With the flag off, a new slot that overlaps a stored one is stored
      all the same, and the series then holds overlapping slots. */
  lemma UncheckedSetStoresOverlap(entries: Entries, options: Option<SeriesOptions>, ref: SlotRef, i: int)
    requires !Enforced(options) && SlotOf(ref).Ok? && !M.Has(entries, KeyOf(ref))
    requires 0 <= i < |entries| && Overlaps(entries[i].1, SlotOf(ref).value)
    ensures SetEntries(entries, options, ref).Ok?
    ensures !Disjoint(M.Values(SetEntries(entries, options, ref).value))
  {
    var r := SetEntries(entries, options, ref).value;
    assert r == entries + [(KeyOf(ref), SlotOf(ref).value)];
    assert M.Values(r)[i] == entries[i].1 && M.Values(r)[|entries|] == SlotOf(ref).value;
  }

  /** `super(pairs)`: the `Map` constructor calls the overridden `set(key)`
      for each pair in turn, before `_options` is assigned; the value is
      discarded and the key re-parsed. */
  function BuildFrom(acc: Entries, pairs: Entries): (r: Result<Entries>)
    ensures r.Ok? <==> forall i :: 0 <= i < |pairs| ==> FromString(pairs[i].0).Ok?
    ensures M.UniqueKeys(acc) && r.Ok? ==>
      && M.UniqueKeys(r.value)
      && forall k :: M.Has(r.value, k) <==> M.Has(acc, k) || k in M.Keys(pairs)
    decreases |pairs|
  {
    if |pairs| == 0 then Ok(acc)
    else
      ParsesFirst(pairs);
      var next :- SetEntries(acc, None, ByString(pairs[0].0));
      BuildKeysStep(acc, pairs, next);
      BuildFrom(next, pairs[1..])
  }

  /** Every key parses when the first one and all the rest's do. */
  lemma ParsesFirst(pairs: Entries)
    requires |pairs| > 0
    ensures (forall i :: 0 <= i < |pairs| ==> FromString(pairs[i].0).Ok?) <==>
      FromString(pairs[0].0).Ok? && forall i :: 0 <= i < |pairs[1..]| ==> FromString(pairs[1..][i].0).Ok?
  {
    var rest := pairs[1..];
    if FromString(pairs[0].0).Ok? && forall i :: 0 <= i < |rest| ==> FromString(rest[i].0).Ok? {
      forall i | 0 <= i < |pairs|
        ensures FromString(pairs[i].0).Ok?
      {
        if i > 0 {
          assert pairs[i] == rest[i - 1];
        }
      }
    }
    if forall i :: 0 <= i < |pairs| ==> FromString(pairs[i].0).Ok? {
      forall i | 0 <= i < |rest|
        ensures FromString(rest[i].0).Ok?
      {
        assert rest[i] == pairs[i + 1];
      }
    }
  }

  /** One pass of the constructor loop adds the first key, and the pairs'
      keys are the first one and the rest's. */
  lemma BuildKeysStep(acc: Entries, pairs: Entries, next: Entries)
    requires |pairs| > 0 && SetEntries(acc, None, ByString(pairs[0].0)) == Ok(next)
    ensures M.UniqueKeys(acc) ==> M.UniqueKeys(next) && forall k :: M.Has(next, k) <==> M.Has(acc, k) || k == pairs[0].0
    ensures forall k :: k in M.Keys(pairs) <==> k == pairs[0].0 || k in M.Keys(pairs[1..])
  {
    if M.UniqueKeys(acc) {
      SetKeys(acc, pairs[0].0);
    }
    forall k
      ensures k in M.Keys(pairs) <==> k == pairs[0].0 || k in M.Keys(pairs[1..])
    {
      M.KeysFirst(pairs, k);
    }
  }

  /** Storing a key that parses adds that key and keeps keys distinct. */
  lemma SetKeys(acc: Entries, key: string)
    requires M.UniqueKeys(acc) && FromString(key).Ok?
    ensures SetEntries(acc, None, ByString(key)).Ok?
    ensures var next := SetEntries(acc, None, ByString(key)).value;
      && M.UniqueKeys(next)
      && forall k :: M.Has(next, k) <==> M.Has(acc, k) || k == key
  {
    var next := SetEntries(acc, None, ByString(key)).value;
    SetSpec(acc, None, ByString(key));
    forall k
      ensures M.Has(next, k) <==> M.Has(acc, k) || k == key
    {
      assert M.Get(next, k).Some? <==> M.Has(next, k);
      assert M.Get(acc, k).Some? <==> M.Has(acc, k);
    }
  }

  /** The constructor loop discards the `Map`'s values: every key it
      stores holds that key's re-parsed slot, whatever the pairs held. */
  lemma {:induction false} BuildValues(acc: Entries, pairs: Entries)
    requires M.UniqueKeys(acc) && KeysReparsed(acc) && BuildFrom(acc, pairs).Ok?
    ensures KeysReparsed(BuildFrom(acc, pairs).value)
    decreases |pairs|
  {
    if |pairs| > 0 {
      var key := pairs[0].0;
      var next := SetEntries(acc, None, ByString(pairs[0].0)).value;
      SetSpec(acc, None, ByString(key));
      forall k | M.Has(next, k)
        ensures FromString(k).Ok? && M.Get(next, k) == Some(FromString(k).value)
      {
        if k != key {
          assert M.Get(acc, k) == M.Get(next, k);
        }
      }
      BuildStep(acc, pairs, next);
      BuildValues(next, pairs[1..]);
    }
  }

  /** One step of the constructor loop. */
  lemma BuildStep(acc: Entries, pairs: Entries, next: Entries)
    requires |pairs| > 0 && SetEntries(acc, None, ByString(pairs[0].0)) == Ok(next)
    ensures BuildFrom(acc, pairs) == BuildFrom(next, pairs[1..])
  {
  }

  /** Canonical pairs of well-formed slots with new keys are stored as they
      are, overlapping or not. */
  lemma {:induction false} BuildCanonical(acc: Entries, pairs: Entries)
    requires Canonical(pairs) && AllWellFormed(M.Values(pairs))
    requires M.UniqueKeys(acc + pairs)
    ensures BuildFrom(acc, pairs) == Ok(acc + pairs)
    decreases |pairs|
  {
    if |pairs| == 0 {
      assert acc + pairs == acc;
    } else {
      var next := acc + [pairs[0]];
      FirstPairAppends(acc, pairs);
      Serie.TailCanonical(pairs);
      Serie.AppendFirst(acc, pairs);
      BuildCanonical(next, pairs[1..]);
      BuildThrough(acc, pairs, next, next + pairs[1..]);
    }
  }

  /** A build that passes the first pair ends where the build of the rest does. */
  lemma BuildThrough(acc: Entries, pairs: Entries, next: Entries, last: Entries)
    requires |pairs| > 0 && SetEntries(acc, None, ByString(pairs[0].0)) == Ok(next)
    requires BuildFrom(next, pairs[1..]) == Ok(last)
    ensures BuildFrom(acc, pairs) == Ok(last)
  {
    BuildStep(acc, pairs, next);
  }

  /** The first pair passes `set` and goes last. */
  lemma FirstPairAppends(acc: Entries, pairs: Entries)
    requires |pairs| > 0 && Canonical(pairs) && AllWellFormed(M.Values(pairs))
    requires M.UniqueKeys(acc + pairs)
    ensures SetEntries(acc, None, ByString(pairs[0].0)) == Ok(acc + [pairs[0]])
  {
    var all := acc + pairs;
    var key, slot := pairs[0].0, pairs[0].1;
    assert all[|acc|] == pairs[0];
    assert M.Values(pairs)[0] == slot;
    Serie.KeyParsesBack(slot);
    assert !M.Has(acc, key) by {
      forall j | 0 <= j < |acc|
        ensures acc[j].0 != key
      {
        assert all[j] == acc[j];
      }
    }
  }

  // ---------------------------------------------------------------------
  // The constructors

  /** `new TimeslotSeries({ timeslots: items })` and `fromArray(items)`:
      each item to its canonical pair, gather the pairs in a plain `Map`
      (a range given twice collapses), then build through `set`. */
  function ItemEntries(items: seq<SlotItem>): (r: Result<Entries>)
    ensures MapItems(items).Err? ==> r == Err(MapItems(items).error)
    ensures r.Ok? ==> M.UniqueKeys(r.value)
    ensures r.Ok? ==> forall k :: M.Has(r.value, k) <==> Serie.ItemKey(items, k)
  {
    var tuples :- MapItems(items);
    Serie.ItemKeys(items, tuples);
    BuildFrom([], M.FromPairs(tuples))
  }

  /** The parsed `Timeslot` objects `fromString` passes on. */
  function Instances(slots: seq<Timeslot>): (r: seq<SlotItem>)
    ensures |r| == |slots| && forall i :: 0 <= i < |slots| ==> r[i] == SlotInstance(slots[i])
  {
    seq(|slots|, i requires 0 <= i < |slots| => SlotInstance(slots[i]))
  }

  /** `ranges.some((range, index) => ranges.slice(index + 1).some((o) =>
      o.overlaps(range)))`: some pair of segments overlaps. */
  function SomeOverlap(slots: seq<Timeslot>): (b: bool)
    ensures b <==> !Disjoint(slots)
  {
    if exists i, j :: 0 <= i < j < |slots| && Overlaps(slots[j], slots[i]) then
      var i, j :| 0 <= i < j < |slots| && Overlaps(slots[j], slots[i]);
      OverlapsSymmetric(slots[i], slots[j]);
      true
    else
      assert forall i, j :: 0 <= i < j < |slots| ==> !Overlaps(slots[i], slots[j]) by {
        forall i, j | 0 <= i < j < |slots|
          ensures !Overlaps(slots[i], slots[j])
        {
          OverlapsSymmetric(slots[i], slots[j]);
        }
      }
      false
  }

  /** `TimeslotSeries.fromString(value, data, options)`: the empty string
      fails; every `,`-separated segment must parse; any two overlapping
      segments fail; the sorted slots go through the record constructor. */
  function FromStringEntries(value: string): (r: Result<Entries>)
    ensures |value| == 0 ==> r == Err(EmptyInput)
    ensures var parsed := ParseSegments(Strings.Split(value, TIMESLOT_SERIES_SEPARATOR));
      r.Ok? <==> |value| > 0 && parsed.Ok? && Disjoint(parsed.value)
    ensures var parsed := ParseSegments(Strings.Split(value, TIMESLOT_SERIES_SEPARATOR));
      r.Ok? ==> M.UniqueKeys(r.value) && forall k :: M.Has(r.value, k) <==> Serie.SlotKey(parsed.value, k)
  {
    if |value| == 0 then Err(EmptyInput)
    else
      var slots :- ParseSegments(Strings.Split(value, TIMESLOT_SERIES_SEPARATOR));
      if SomeOverlap(slots) then Err(OverlappingTimeslots)
      else
        ParsedWellFormed(Strings.Split(value, TIMESLOT_SERIES_SEPARATOR));
        SortWellFormed(slots);
        InstancesBuild(Sort(slots));
        InstanceKeys(slots);
        ItemEntries(Instances(Sort(slots)))
  }

  /** The keys of the sorted slots' instances are the strings of the slots. */
  lemma InstanceKeys(slots: seq<Timeslot>)
    ensures forall k :: Serie.ItemKey(Instances(Sort(slots)), k) <==> Serie.SlotKey(slots, k)
  {
    forall k
      ensures Serie.ItemKey(Instances(Sort(slots)), k) <==> Serie.SlotKey(slots, k)
    {
      InstanceKey(slots, k);
    }
  }

  /** One key of the sorted slots' instances. */
  lemma InstanceKey(slots: seq<Timeslot>, k: string)
    ensures Serie.ItemKey(Instances(Sort(slots)), k) <==> Serie.SlotKey(slots, k)
  {
    var sorted := Sort(slots);
    InstanceKeyOf(sorted, k);
    if Serie.SlotKey(sorted, k) {
      Serie.SlotKeyMoves(sorted, slots, k);
    }
    if Serie.SlotKey(slots, k) {
      Serie.SlotKeyMoves(slots, sorted, k);
    }
  }

  /** The keys of instances are the strings of their slots. */
  lemma InstanceKeyOf(slots: seq<Timeslot>, k: string)
    ensures Serie.ItemKey(Instances(slots), k) <==> Serie.SlotKey(slots, k)
  {
    if Serie.ItemKey(Instances(slots), k) {
      InstanceKeyFrom(slots, k);
    }
    if Serie.SlotKey(slots, k) {
      InstanceKeyTo(slots, k);
    }
  }

  /** The key of an instance is the string of its slot. */
  lemma InstanceKeyFrom(slots: seq<Timeslot>, k: string)
    requires Serie.ItemKey(Instances(slots), k)
    ensures Serie.SlotKey(slots, k)
  {
    var items := Instances(slots);
    var i :| 0 <= i < |items| && MapToTimeslotSerieTuple(items[i]).Ok? && MapToTimeslotSerieTuple(items[i]).value.0 == k;
    assert items[i] == SlotInstance(slots[i]);
  }

  /** The string of a slot is the key of its instance. */
  lemma InstanceKeyTo(slots: seq<Timeslot>, k: string)
    requires Serie.SlotKey(slots, k)
    ensures Serie.ItemKey(Instances(slots), k)
  {
    var items := Instances(slots);
    var i :| 0 <= i < |slots| && ToString(slots[i]) == k;
    assert MapToTimeslotSerieTuple(items[i]).value.0 == k;
  }

  /** The instances map to their canonical pairs. */
  lemma MapInstances(slots: seq<Timeslot>)
    ensures MapItems(Instances(slots)) == Ok(CanonicalEntries(slots))
  {
    var items := Instances(slots);
    forall i | 0 <= i < |items|
      ensures MapToTimeslotSerieTuple(items[i]) == Ok((ToString(slots[i]), slots[i]))
    {
      assert items[i] == SlotInstance(slots[i]);
    }
    assert MapItems(items).value == CanonicalEntries(slots);
  }

  /** `fromString` on a value whose segments parse to `slots`. */
  lemma FromStringOfSegments(value: string, slots: seq<Timeslot>)
    requires |value| > 0 && ParseSegments(Strings.Split(value, TIMESLOT_SERIES_SEPARATOR)) == Ok(slots)
    ensures FromStringEntries(value) == if !Disjoint(slots) then Err(OverlappingTimeslots)
      else ItemEntries(Instances(Sort(slots)))
  {
  }

  /** Sorting keeps every slot well-formed. */
  lemma SortWellFormed(slots: seq<Timeslot>)
    requires AllWellFormed(slots)
    ensures AllWellFormed(Sort(slots))
  {
    var sorted := Sort(slots);
    forall i | 0 <= i < |sorted|
      ensures WellFormed(sorted[i])
    {
      assert sorted[i] in multiset(slots);
      var k :| 0 <= k < |slots| && slots[k] == sorted[i];
    }
  }

  /** The record constructor accepts any well-formed instances: every key
      it re-parses is the string of a well-formed slot. */
  lemma InstancesBuild(slots: seq<Timeslot>)
    requires AllWellFormed(slots)
    ensures ItemEntries(Instances(slots)).Ok?
  {
    var ce := CanonicalEntries(slots);
    MapInstances(slots);
    var pairs := M.FromPairs(ce);
    forall i | 0 <= i < |pairs|
      ensures FromString(pairs[i].0).Ok?
    {
      KeyOfPairs(ce, pairs, i);
      var j :| 0 <= j < |ce| && ce[j].0 == pairs[i].0;
      Serie.KeyParsesBack(slots[j]);
    }
  }

  /** Every key of `new Map(ce)` is a key of `ce`. */
  lemma KeyOfPairs(ce: Entries, pairs: Entries, i: int)
    requires pairs == M.FromPairs(ce) && 0 <= i < |pairs|
    ensures exists j :: 0 <= j < |ce| && ce[j].0 == pairs[i].0
  {
    assert M.IndexOf(pairs, pairs[i].0).Some?;
    assert M.Has(pairs, pairs[i].0);
    var keys := M.Keys(ce);
    assert pairs[i].0 in keys;
    var j :| 0 <= j < |keys| && keys[j] == pairs[i].0;
    assert ce[j].0 == pairs[i].0;
  }

  /** A series of distinct, well-formed, non-overlapping slots keyed by
      their strings reads back from its string as its slots in ascending
      order, so `fromString(s.toString())` equals `s`. */
  lemma StringRoundTrip(entries: Entries)
    requires M.UniqueKeys(entries) && Disjoint(M.Values(entries))
    requires Canonical(entries) && AllWellFormed(M.Values(entries)) && |entries| > 0
    ensures FromStringEntries(SeriesString(entries)) == Ok(CanonicalEntries(SeriesCore.ToArray(entries)))
    ensures SeriesString(CanonicalEntries(SeriesCore.ToArray(entries))) == SeriesString(entries)
  {
    var sorted := SeriesCore.ToArray(entries);
    SeriesCore.SortedWellFormed(entries);
    ParseSlotStrings(sorted);
    SortSorted(sorted);
    DisjointPermutation(M.Values(entries), sorted);
    FromStringOfSegments(SeriesString(entries), sorted);
    Serie.SortedKeysDistinct(entries);
    SortedInstances(sorted);
    SeriesStringsEqual(CanonicalEntries(sorted), entries);
  }

  /** Well-formed slots with distinct strings come out of the record
      constructor as their canonical pairs. */
  lemma SortedInstances(sorted: seq<Timeslot>)
    requires AllWellFormed(sorted) && M.UniqueKeys(CanonicalEntries(sorted))
    ensures ItemEntries(Instances(sorted)) == Ok(CanonicalEntries(sorted))
  {
    var ce := CanonicalEntries(sorted);
    MapInstances(sorted);
    M.FromPairsUnique(ce);
    BuildFresh(ce);
  }

  /** Canonical pairs with distinct keys build from the empty series to
      themselves. */
  lemma BuildFresh(pairs: Entries)
    requires Canonical(pairs) && AllWellFormed(M.Values(pairs)) && M.UniqueKeys(pairs)
    ensures BuildFrom([], pairs) == Ok(pairs)
  {
    assert [] + pairs == pairs;
    BuildCanonical([], pairs);
  }

  /** Two overlapping segments make `fromString` fail, whichever order
      they come in. */
  lemma FromStringRejectsOverlap(a: Timeslot, b: Timeslot)
    requires WellFormed(a) && WellFormed(b) && Overlaps(a, b)
    ensures FromStringEntries(ToString(a) + [TIMESLOT_SERIES_SEPARATOR] + ToString(b)) == Err(OverlappingTimeslots)
  {
    var value := ToString(a) + [TIMESLOT_SERIES_SEPARATOR] + ToString(b);
    Serie.TwoSegments(a, b);
    FromStringOfSegments(value, [a, b]);
  }

  /** A segment of positive length given twice overlaps itself, so this
      revision rejects what the older one collapses into one entry. */
  lemma DuplicateRejected(a: Timeslot)
    requires WellFormed(a) && Duration(a) > 0
    ensures FromStringEntries(ToString(a) + [TIMESLOT_SERIES_SEPARATOR] + ToString(a)) == Err(OverlappingTimeslots)
    ensures Serie.FromStringEntries(ToString(a) + [TIMESLOT_SERIES_SEPARATOR] + ToString(a)) == Ok([(ToString(a), a)])
  {
    FromStringRejectsOverlap(a, a);
    Serie.FromStringCollapsesDuplicate(a);
  }

  /** A successful `replace(a, b)` removes `a` and maps `b`'s key to `b`'s
      slot, leaving every other key as it was. */
  lemma ReplaceSpec(entries: Entries, options: Option<SeriesOptions>, replace: SlotRef, timeslot: SlotRef)
    requires M.UniqueKeys(entries) && M.Has(entries, KeyOf(replace)) && !M.Has(entries, KeyOf(timeslot))
    requires SetEntries(M.Remove(entries, KeyOf(replace)), options, timeslot).Ok?
    ensures var r := SetEntries(M.Remove(entries, KeyOf(replace)), options, timeslot).value;
      && M.UniqueKeys(r)
      && !M.Has(r, KeyOf(replace))
      && M.Get(r, KeyOf(timeslot)) == Some(SlotOf(timeslot).value)
      && (forall k :: k != KeyOf(replace) && k != KeyOf(timeslot) ==> M.Get(r, k) == M.Get(entries, k))
  {
    var removed := M.Remove(entries, KeyOf(replace));
    M.RemoveSpec(entries, KeyOf(replace));
    SetSpec(removed, options, timeslot);
    var r := SetEntries(removed, options, timeslot).value;
    assert M.Get(r, KeyOf(replace)) == M.Get(removed, KeyOf(replace));
  }

  /** With the flag on, `replace` of a present slot by an absent one always
      loses the replaced slot: the delete happens and the `set` fails. */
  lemma EnforcedReplaceLosesSlot(entries: Entries, options: Option<SeriesOptions>, replace: SlotRef, timeslot: SlotRef)
    requires M.UniqueKeys(entries) && Enforced(options) && SlotOf(timeslot).Ok?
    ensures SetEntries(M.Remove(entries, KeyOf(replace)), options, timeslot).Err?
    ensures !M.Has(M.Remove(entries, KeyOf(replace)), KeyOf(replace))
  {
    M.RemoveSpec(entries, KeyOf(replace));
  }

  // ---------------------------------------------------------------------
  // The class

  class TimeslotSeries {
    var entries: Entries
    /** `_options`: set only by the record constructor. */
    var options: Option<SeriesOptions>

    ghost predicate Valid()
      reads this
    {
      M.UniqueKeys(entries)
    }

    /** `new TimeslotSeries()` and `new TimeslotSeries(null)`. */
    constructor Empty()
      ensures entries == [] && options == None && Valid()
    {
      entries := [];
      options := None;
    }

    /** `new TimeslotSeries(map)` and the `super(...)` call of every
      constructor: the pairs are added with `set(key)`, one by one, while
      the options are still unset. */
    static method FromMap(pairs: Entries) returns (r: Result<TimeslotSeries>)
      ensures r.Ok? <==> BuildFrom([], pairs).Ok?
      ensures r.Err? ==> r.error == BuildFrom([], pairs).error
      ensures r.Ok? ==> KeysReparsed(r.value.entries)
      ensures r.Ok? ==> (fresh(r.value) && r.value.entries == BuildFrom([], pairs).value
        && r.value.options == None && r.value.Valid())
    {
      var series := new TimeslotSeries.Empty();
      var i := 0;
      while i < |pairs|
        invariant 0 <= i <= |pairs|
        invariant fresh(series) && series.options == None && series.Valid()
        invariant BuildFrom([], pairs) == BuildFrom(series.entries, pairs[i..])
      {
        assert pairs[i..][1..] == pairs[i + 1..];
        var outcome := series.Set(ByString(pairs[i].0));
        if outcome.Fail? {
          return Err(outcome.error);
        }
        i := i + 1;
      }
      BuildValues([], pairs);
      return Ok(series);
    }

    /** `new TimeslotSeries(series)`: the entries are added again through
      `set`, so the copy stores each key's re-parsed slot and no options. */
    static method Copy(other: TimeslotSeries) returns (r: Result<TimeslotSeries>)
      ensures r.Ok? <==> BuildFrom([], other.entries).Ok?
      ensures r.Err? ==> r.error == BuildFrom([], other.entries).error
      ensures r.Ok? ==> KeysReparsed(r.value.entries)
      ensures r.Ok? ==> (fresh(r.value) && r.value.entries == BuildFrom([], other.entries).value
        && r.value.options == None && r.value.Valid())
    {
      r := FromMap(other.entries);
    }

    /** `new TimeslotSeries({ timeslots: items }, options)`: options, when
      given, are stored as they are; otherwise the defaults are. */
    static method FromRecords(items: seq<SlotItem>, options: Option<SeriesOptions>) returns (r: Result<TimeslotSeries>)
      ensures r.Ok? <==> ItemEntries(items).Ok?
      ensures r.Err? ==> r.error == ItemEntries(items).error
      ensures r.Ok? ==> (fresh(r.value) && r.value.entries == ItemEntries(items).value
        && r.value.options == Some(OrDefault(options, DEFAULT_OPTIONS)) && r.value.Valid())
    {
      var tuples :- MapItems(items);
      var series :- FromMap(M.FromPairs(tuples));
      series.options := Some(OrDefault(options, DEFAULT_OPTIONS));
      return Ok(series);
    }

    /** `TimeslotSeries.fromArray(items, options)`: the series is built from
      a `Map`, the branch of the constructor that stores no options, so the
      merged options are dropped. */
    static method FromArray(items: seq<SlotItem>, options: Option<SeriesOptions>) returns (r: Result<TimeslotSeries>)
      ensures r.Ok? <==> ItemEntries(items).Ok?
      ensures r.Err? ==> r.error == ItemEntries(items).error
      ensures r.Ok? ==> (fresh(r.value) && r.value.entries == ItemEntries(items).value
        && r.value.options == None && r.value.Valid())
    {
      var tuples :- MapItems(items);
      r := FromMap(M.FromPairs(tuples));
    }

    /** `TimeslotSeries.fromString(value, data, options)`. */
    static method FromString(value: string, options: Option<SeriesOptions>) returns (r: Result<TimeslotSeries>)
      ensures r.Ok? <==> FromStringEntries(value).Ok?
      ensures r.Err? ==> r.error == FromStringEntries(value).error
      ensures r.Ok? ==> (fresh(r.value) && r.value.entries == FromStringEntries(value).value
        && r.value.options == Some(OrDefault(options, DEFAULT_OPTIONS)) && r.value.Valid())
    {
      if |value| == 0 {
        return Err(EmptyInput);
      }
      var slots :- ParseSegments(Strings.Split(value, TIMESLOT_SERIES_SEPARATOR));
      if SomeOverlap(slots) {
        return Err(OverlappingTimeslots);
      }
      r := FromRecords(Instances(Sort(slots)), Some(OrDefault(options, DEFAULT_OPTIONS)));
    }

    /** `set(key)`. */
    method Set(ref: SlotRef) returns (outcome: Outcome)
      modifies this
      ensures outcome.Pass? <==> SetEntries(old(entries), old(options), ref).Ok?
      ensures outcome.Fail? ==> outcome.error == SetEntries(old(entries), old(options), ref).error
      ensures entries == if outcome.Pass? then SetEntries(old(entries), old(options), ref).value else old(entries)
      ensures options == old(options)
      ensures old(Valid()) ==> Valid()
    {
      var next := SetEntries(entries, options, ref);
      if next.Err? {
        return Fail(next.error);
      }
      if M.UniqueKeys(entries) {
        SetSpec(entries, options, ref);
      }
      entries := next.value;
      return Pass;
    }

    /** `has(timeslot)`: a lookup by key string. */
    function Has(ref: SlotRef): (b: bool)
      reads this
      ensures b <==> exists i :: 0 <= i < |entries| && entries[i].0 == KeyOf(ref)
    {
      M.Has(entries, KeyOf(ref))
    }

    /** `delete(timeslot)`: removes the entry under the key string and says
      whether there was one. */
    method Delete(ref: SlotRef) returns (removed: bool)
      modifies this
      ensures removed == M.Has(old(entries), KeyOf(ref))
      ensures entries == M.Remove(old(entries), KeyOf(ref)) && options == old(options)
      ensures old(Valid()) ==> Valid()
    {
      removed := M.Has(entries, KeyOf(ref));
      if M.UniqueKeys(entries) {
        M.RemoveSpec(entries, KeyOf(ref));
      }
      entries := M.Remove(entries, KeyOf(ref));
    }

    /** `replace(replace, timeslot)`: nothing happens unless `replace` is
      present and `timeslot` is not; otherwise `replace` is deleted first
      and `timeslot` set, so a failing `set` leaves the series without
      `replace`. */
    method Replace(replace: SlotRef, timeslot: SlotRef) returns (outcome: Outcome)
      modifies this
      ensures !M.Has(old(entries), KeyOf(replace)) || M.Has(old(entries), KeyOf(timeslot)) ==>
        outcome == Pass && entries == old(entries)
      ensures M.Has(old(entries), KeyOf(replace)) && !M.Has(old(entries), KeyOf(timeslot)) ==>
        var removed := M.Remove(old(entries), KeyOf(replace));
        && (outcome.Pass? <==> SetEntries(removed, old(options), timeslot).Ok?)
        && entries == (if outcome.Pass? then SetEntries(removed, old(options), timeslot).value else removed)
      ensures options == old(options)
      ensures old(Valid()) ==> Valid()
    {
      if !Has(replace) || Has(timeslot) {
        return Pass;
      }
      var _ := Delete(replace);
      outcome := Set(timeslot);
    }

    /** `toArray()`. */
    function ToArray(): (r: seq<Timeslot>)
      reads this
      ensures Sorted(r) && multiset(r) == multiset(M.Values(entries))
    {
      SeriesCore.ToArray(entries)
    }

    /** `first`. */
    function First(): (r: Result<Timeslot>)
      reads this
      ensures r.Ok? <==> |entries| > 0
      ensures r.Ok? ==> exists i :: 0 <= i < |entries| && entries[i].1 == r.value
      ensures r.Ok? ==> forall i :: 0 <= i < |entries| ==> Le(r.value, entries[i].1)
    {
      SeriesCore.First(entries)
    }

    /** `last`. */
    function Last(): (r: Result<Timeslot>)
      reads this
      ensures r.Ok? <==> |entries| > 0
      ensures r.Ok? ==> exists i :: 0 <= i < |entries| && entries[i].1 == r.value
      ensures r.Ok? ==> forall i :: 0 <= i < |entries| ==> Le(entries[i].1, r.value)
    {
      SeriesCore.Last(entries)
    }

    /** `toString()`, and `toLocalString()`, which gives the same text. */
    function ToString(): (s: string)
      reads this
      ensures |s| == 0 <==> |entries| == 0
    {
        SeriesString(entries)
    }

    /** `toJSON().timeslots`. */
    function ToJSON(): (r: seq<TimeslotSerializable>)
      reads this
      ensures |r| == |entries|
      ensures forall i :: 0 <= i < |r| ==> FromSerializable(r[i]) == Ok(ToArray()[i])
    {
      SeriesJSON(entries)
    }

    /** `equals(that)`: the two strings agree, which is to say the two
      series hold the same slots. */
    function Equals(that: TimeslotSeries): (b: bool)
      reads this, that
      ensures b <==> multiset(M.Values(entries)) == multiset(M.Values(that.entries))
    {
      SeriesStringsEqual(entries, that.entries);
      SeriesString(entries) == SeriesString(that.entries)
    }

    /** `contains(value)`. */
    function Contains(p: Probe): (b: bool)
      reads this
      ensures b <==> exists i :: 0 <= i < |entries| && Holds(entries[i].1, p)
    {
      SeriesCore.Contains(entries, p)
    }

    /** `contains(value, true)`: the least slot containing `value`. */
    function ContainsExtract(p: Probe): (r: Option<Timeslot>)
      reads this
      ensures r.None? <==> forall i :: 0 <= i < |entries| ==> !Holds(entries[i].1, p)
      ensures r.Some? ==> Holds(r.value, p) && exists i :: 0 <= i < |entries| && entries[i].1 == r.value
      ensures r.Some? ==> forall i :: 0 <= i < |entries| && Holds(entries[i].1, p) ==> Le(r.value, entries[i].1)
    {
      SeriesCore.ContainsExtract(entries, p)
    }

    /** `overlapsWith(timeslot)`. */
    function OverlapsWith(ref: SlotRef): (r: Result<bool>)
      reads this
      ensures r.Ok? <==> SlotOf(ref).Ok?
      ensures r.Ok? ==> (r.value <==> exists i :: 0 <= i < |entries| && Overlaps(entries[i].1, SlotOf(ref).value))
    {
      SeriesCore.OverlapsWith(entries, ref)
    }

    /** `getEmptyTimeslots(extendsToLimit)`. */
    method GetEmptyTimeslots(extendsToLimit: bool) returns (r: Result<seq<Timeslot>>)
      ensures r == EmptyTimeslots(entries, extendsToLimit, options)
    {
      var sorted := ToArray();
      var gaps :- EmptyGaps(sorted);
      if extendsToLimit {
        r := ExtendToLimits(gaps, sorted, options);
      } else {
        r := Ok(gaps);
      }
    }
  }
}
