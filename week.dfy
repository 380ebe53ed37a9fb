/** `Week`: a `Map` from the seven day labels to `Day`s. Its `set` is a
    plain store, and its `get` replaces a stored `null` by a fresh empty day
    of that label. */
module Weeks {
  import opened Wrappers
  import opened Constants
  import Strings
  import opened Timeslots
  import opened SlotOrder
  import M = OrderedMaps
  import opened SeriesCore
  import opened SeriesUtil
  import Serie
  import opened Days

  // ---------------------------------------------------------------------
  // Labels as keys

  /** The labels are seven different values. */
  lemma LabelsDistinct()
    ensures forall i, j :: 0 <= i < j < 7 ==> DAY_LABELS[i] != DAY_LABELS[j]
  {
    forall i, j | 0 <= i < j < 7
      ensures DAY_LABELS[i] != DAY_LABELS[j]
    {
      assert LabelIndex(Some(DAY_LABELS[i])) == i && LabelIndex(Some(DAY_LABELS[j])) == j;
    }
  }

  /** The label at an index has that index. */
  lemma LabelIndexAt(i: int)
    requires 0 <= i < 7
    ensures LabelIndex(Some(DAY_LABELS[i])) == i
  {
    LabelsDistinct();
    LabelIndexInjective(Some(DAY_LABELS[i]), Some(DAY_LABELS[LabelIndex(Some(DAY_LABELS[i]))]));
  }

  /** Entries keyed by the seven labels in order: every label is present,
      at its index. */
  lemma LabelKeyed<V>(days: seq<(DayType, V)>, d: DayType)
    requires M.Keys(days) == DAY_LABELS
    ensures M.UniqueKeys(days)
    ensures M.IndexOf(days, d) == Some(LabelIndex(Some(d)) as nat)
    ensures M.Get(days, d) == Some(days[LabelIndex(Some(d))].1)
  {
    LabelsDistinct();
    assert forall i :: 0 <= i < 7 ==> days[i].0 == DAY_LABELS[i];
    M.GetUnique(days, d);
  }

  /** `set` under a label of such entries replaces that label's value and
      keeps the keys. */
  lemma PutLabel<V>(days: seq<(DayType, V)>, d: DayType, v: V)
    requires M.Keys(days) == DAY_LABELS
    ensures M.Put(days, d, v) == days[LabelIndex(Some(d)) := (d, v)]
    ensures M.Keys(M.Put(days, d, v)) == DAY_LABELS
  {
    LabelKeyed(days, d);
  }

  /** Pairs for the labels in order go through the `Map` constructor as
      they are. */
  lemma LabelPairs<V>(pairs: seq<(DayType, V)>)
    requires |pairs| == 7 && forall j :: 0 <= j < 7 ==> pairs[j].0 == DAY_LABELS[j]
    ensures M.Keys(pairs) == DAY_LABELS && M.FromPairs(pairs) == pairs
  {
    assert M.Keys(pairs) == DAY_LABELS;
    LabelKeyed(pairs, Monday);
    M.FromPairsUnique(pairs);
  }

  // ---------------------------------------------------------------------
  // The days the record constructor builds

  /** `WeekParsable`: records for some of the labels. */
  type WeekParsable = map<DayType, seq<TimeslotSerializable>>

  /** `value[label] ?? []`. */
  function RecordsFor(value: WeekParsable, d: DayType): (r: seq<TimeslotSerializable>)
    ensures d !in value ==> r == []
  {
    if d in value then value[d] else []
  }

  /** `{ timeslots: records }` as series items. */
  function Items(records: seq<TimeslotSerializable>): (r: seq<SlotItem>)
    ensures |r| == |records| && forall i :: 0 <= i < |records| ==> r[i] == SlotRecord(records[i])
    ensures MapItems(r).Ok? <==> forall i :: 0 <= i < |records| ==> FromSerializable(records[i]).Ok?
    ensures MapItems(r).Ok? ==> forall i :: 0 <= i < |records| ==> ToJSON(MapItems(r).value[i].1) == records[i]
  {
    seq(|records|, i requires 0 <= i < |records| => SlotRecord(records[i]))
  }

  /** The entries of `Day.fromTimeslotSerie(new TimeslotSerie({ timeslots:
      records }), label)`: the series constructor may throw; the day takes
      the series' records back through its own record constructor, which
      lists the series' slots in ascending order, free. */
  function RecordsDay(records: seq<TimeslotSerializable>): (r: Result<DayEntries>)
    ensures r.Ok? <==> Serie.ItemEntries(Items(records)).Ok?
    ensures r.Err? ==> r.error == Serie.ItemEntries(Items(records)).error
  {
    var e :- Serie.ItemEntries(Items(records));
    RecordPairsOfSeries(e);
    FromRecords(SeriesJSON(e))
  }

  /** The day of a series holds its slots, sorted, under their strings,
      with no task. */
  lemma RecordsDayFree(records: seq<TimeslotSerializable>)
    requires Serie.ItemEntries(Items(records)).Ok?
    ensures var e := Serie.ItemEntries(Items(records)).value;
      && RecordsDay(records) == Ok(M.FromPairs(FreeEntries(SeriesCore.ToArray(e))))
      && TasksOf(RecordsDay(records).value) == []
  {
    RecordPairsOfSeries(Serie.ItemEntries(Items(records)).value);
  }

  /** What each label's series gives, in order. */
  function LabelResults(value: WeekParsable, labels: seq<DayType>): (rs: seq<Result<DayEntries>>)
    ensures |rs| == |labels| && forall i :: 0 <= i < |labels| ==> rs[i] == RecordsDay(RecordsFor(value, labels[i]))
    ensures forall i :: 0 <= i < |labels| && labels[i] !in value ==> rs[i] == Ok([])
  {
    assert forall d :: d !in value ==> RecordsDay(RecordsFor(value, d)) == Ok([]) by {
      forall d | d !in value
        ensures RecordsDay(RecordsFor(value, d)) == Ok([])
      {
        MissingLabelEmpty(value, d);
      }
    }
    seq(|labels|, i requires 0 <= i < |labels| => RecordsDay(RecordsFor(value, labels[i])))
  }

  /** The days for the labels, in order; the first label whose series
      throws makes the constructor throw. */
  function LabelDays(value: WeekParsable, labels: seq<DayType>): (r: Result<seq<DayEntries>>)
    ensures r.Ok? <==> forall i :: 0 <= i < |labels| ==> RecordsDay(RecordsFor(value, labels[i])).Ok?
    ensures r.Ok? ==> (|r.value| == |labels| &&
      forall i :: 0 <= i < |labels| ==> r.value[i] == RecordsDay(RecordsFor(value, labels[i])).value)
  {
    AllOk(LabelResults(value, labels))
  }

  /** The error is the first failing label's. */
  lemma LabelDaysFirstError(value: WeekParsable, labels: seq<DayType>, i: int)
    requires 0 <= i < |labels| && RecordsDay(RecordsFor(value, labels[i])).Err?
    requires forall j :: 0 <= j < i ==> RecordsDay(RecordsFor(value, labels[j])).Ok?
    ensures LabelDays(value, labels) == Err(RecordsDay(RecordsFor(value, labels[i])).error)
  {
    AllOkFirstError(LabelResults(value, labels), i);
  }

  /** A label without records gets an empty day. */
  lemma MissingLabelEmpty(value: WeekParsable, d: DayType)
    requires d !in value
    ensures RecordsDay(RecordsFor(value, d)) == Ok([])
  {
    assert Items([]) == [];
    assert Serie.ItemEntries([]) == Ok([]) by {
      assert M.FromPairs<string, Timeslot>([]) == [];
    }
    assert SeriesCore.ToArray([]) == [];
  }

  /** The records of well-formed, non-overlapping slots with distinct
      strings make a day of free entries under their strings in ascending
      order, whatever order the records come in. */
  lemma SlotsDay(slots: seq<Timeslot>)
    requires AllWellFormed(slots) && Disjoint(slots) && M.UniqueKeys(CanonicalEntries(slots))
    ensures RecordsDay(SlotJSON(slots)) == Ok(FreeEntries(Sort(slots)))
    ensures ReadableDisjoint(FreeEntries(Sort(slots))) && KeySlots(FreeEntries(Sort(slots))) == Sort(slots)
  {
    var ce := CanonicalEntries(slots);
    SlotsSerie(slots);
    assert M.Values(ce) == slots;
    FromSerieTiled(ce);
    assert RecordsDay(SlotJSON(slots)) == FromRecords(SeriesJSON(ce));
  }

  /** Such records make a series of the slots, in their order, under
      their strings. */
  lemma SlotsSerie(slots: seq<Timeslot>)
    requires AllWellFormed(slots) && Disjoint(slots) && M.UniqueKeys(CanonicalEntries(slots))
    ensures Serie.ItemEntries(Items(SlotJSON(slots))) == Ok(CanonicalEntries(slots))
  {
    assert Items(SlotJSON(slots)) == Serie.Records(slots);
    Serie.SortedItems(slots);
  }

  /** The records of a tiled day whose keys are distinct slot strings give
      back its slots, sorted, as free entries. */
  lemma DayRecordsDay(day: Option<DayType>, entries: DayEntries)
    requires M.UniqueKeys(entries) && CanonicalKeys(entries) && Disjoint(KeySlots(entries))
    ensures DayJSON(day, entries).Ok?
    ensures RecordsDay(DayJSON(day, entries).value.timeslots) == Ok(FreeEntries(Sort(KeySlots(entries))))
    ensures ReadableDisjoint(FreeEntries(Sort(KeySlots(entries)))) && KeySlots(FreeEntries(Sort(KeySlots(entries)))) == Sort(KeySlots(entries))
  {
    var slots := KeySlots(entries);
    ParseKeys(entries);
    var ce := CanonicalEntries(slots);
    forall i, j | 0 <= i < j < |ce|
      ensures ce[i].0 != ce[j].0
    {
      assert ce[i].0 == entries[i].0 && ce[j].0 == entries[j].0;
    }
    SlotsDay(slots);
    assert DayJSON(day, entries).value.timeslots == SlotJSON(slots);
  }

  /** The records of a series whose keys are its slots' strings give its
      sorted slots as free entries. */
  lemma SerieRecordsDay(entries: Entries)
    requires Serie.Invariant(entries) && Canonical(entries) && AllWellFormed(M.Values(entries))
    ensures RecordsDay(SeriesJSON(entries)) == Ok(FreeEntries(SeriesCore.ToArray(entries)))
    ensures ReadableDisjoint(FreeEntries(SeriesCore.ToArray(entries)))
    ensures KeySlots(FreeEntries(SeriesCore.ToArray(entries))) == SeriesCore.ToArray(entries)
  {
    SortedSerieFacts(entries);
    SeriesJSONSorted(entries);
    SlotsDay(SeriesCore.ToArray(entries));
  }

  /** The sorted slots of a canonical series are well formed, pairwise
      disjoint, keyed apart, and already in order. */
  lemma SortedSerieFacts(entries: Entries)
    requires Serie.Invariant(entries) && Canonical(entries) && AllWellFormed(M.Values(entries))
    ensures var sorted := SeriesCore.ToArray(entries);
      && AllWellFormed(sorted) && Disjoint(sorted) && M.UniqueKeys(CanonicalEntries(sorted))
      && Sort(sorted) == sorted
  {
    var sorted := SeriesCore.ToArray(entries);
    SeriesCore.SortedWellFormed(entries);
    DisjointPermutation(M.Values(entries), sorted);
    Serie.SortedKeysDistinct(entries);
    SortSorted(sorted);
  }

  /** A series' records are its sorted slots' records. */
  lemma SeriesJSONSorted(entries: Entries)
    ensures SeriesJSON(entries) == SlotJSON(SeriesCore.ToArray(entries))
  {
    var sorted := SeriesCore.ToArray(entries);
    var records := SeriesJSON(entries);
    forall i | 0 <= i < |records|
      ensures records[i] == ToJSON(sorted[i])
    {
    }
  }

  /** `{ monday: timeslots, ..., sunday: timeslots }`. */
  function SameForAll(records: seq<TimeslotSerializable>): (value: WeekParsable)
    ensures forall d :: RecordsFor(value, d) == records
  {
    EveryLabelListed();
    map d: DayType | d in DAY_LABELS :: records
  }

  /** Each day's `toString({ includeDay: false })`. */
  function DayStrings(ds: seq<Day>): (r: seq<string>)
    reads ds
    ensures |r| == |ds| && forall i :: 0 <= i < |ds| ==> r[i] == DayString(ds[i].dayOfWeek, ds[i].entries)
    ensures forall i :: 0 <= i < |ds| && ds[i].dayOfWeek.Some? ==>
      |r[i]| >= 2 && r[i][..2] == [Strings.DigitChar(LabelIndex(ds[i].dayOfWeek)), DAY_TIME_SEPARATOR]
  {
    assert forall d :: PrefixText(Named(d)) == [Strings.DigitChar(LabelIndex(Some(d)))] by {
      forall d
        ensures PrefixText(Named(d)) == [Strings.DigitChar(LabelIndex(Some(d)))]
      {
        LabelPrefix(d);
      }
    }
    seq(|ds|, i requires 0 <= i < |ds| reads ds => ds[i].ToString(false))
  }

  /** The strings of the days stored, in order. */
  function Pieces(days: seq<(DayType, Day?)>): (r: seq<string>)
    requires forall i :: 0 <= i < |days| ==> days[i].1 != null
    reads set i | 0 <= i < |days| :: days[i].1
    ensures |r| == |days| && forall i :: 0 <= i < |days| ==> r[i] == DayString(days[i].1.dayOfWeek, days[i].1.entries)
  {
    seq(|days|, i requires 0 <= i < |days| reads set i | 0 <= i < |days| :: days[i].1 => DayString(days[i].1.dayOfWeek, days[i].1.entries))
  }

  /** The string of a day labelled by the `i`-th label starts with `i` and
      `;`, with or without `includeDay`. */
  lemma PiecePrefix(i: int, entries: DayEntries)
    requires 0 <= i < 7
    ensures |DayString(Some(DAY_LABELS[i]), entries)| >= 2
    ensures DayString(Some(DAY_LABELS[i]), entries)[..2] == [Strings.DigitChar(i), DAY_TIME_SEPARATOR]
  {
    LabelIndexAt(i);
    LabelPrefix(DAY_LABELS[i]);
  }

  /** A fresh empty day has no gaps. */
  lemma NoEntriesNoGaps(options: Option<SeriesOptions>)
    ensures DayEmpty([], false, options) == Ok([])
  {
    assert M.Keys<string, Option<Task>>([]) == [];
    assert Sort([]) == [];
  }

  /** Every label of `SameForAll(records)` gets the day of `records`. */
  lemma SameDays(records: seq<TimeslotSerializable>, entries: DayEntries)
    requires RecordsDay(records) == Ok(entries)
    ensures LabelDays(SameForAll(records), DAY_LABELS).Ok?
    ensures forall d :: RecordsDay(RecordsFor(SameForAll(records), d)) == Ok(entries)
  {
  }

  /** Every label is one of the seven. */
  lemma EveryLabelListed()
    ensures forall d :: d in DAY_LABELS
  {
    forall d: DayType
      ensures d in DAY_LABELS
    {
      assert DAY_LABELS[LabelIndex(Some(d))] == d;
    }
  }

  // ---------------------------------------------------------------------
  // The class

  class Week {
    /** The entries, in insertion order; `set` can store `null`. */
    var days: seq<(DayType, Day?)>

    /** Every label is a key, in `DayLabels` order, as every constructor
      leaves it and `set` keeps it. */
    ghost predicate Valid()
      reads this
    {
      M.Keys(days) == DAY_LABELS
    }

    /** `super(pairs)`: the pairs through the `Map` constructor. */
    constructor FromPairs(pairs: seq<(DayType, Day?)>)
      ensures days == M.FromPairs(pairs)
    {
      days := M.FromPairs(pairs);
    }

    /** `new Week(week)`: the entries are copied and the `Day` objects
      shared. */
    constructor Copy(other: Week)
      ensures days == M.FromPairs(other.days)
      ensures other.Valid() ==> days == other.days && Valid()
    {
      if other.Valid() {
        LabelKeyed(other.days, Monday);
        M.FromPairsUnique(other.days);
      }
      days := M.FromPairs(other.days);
    }

    /** `new Week(value)`: for each label in order, the records given for
      it, or none, through a series into a day of that label. */
    static method FromParsable(value: WeekParsable) returns (r: Result<Week>)
      ensures r.Ok? <==> LabelDays(value, DAY_LABELS).Ok?
      ensures r.Err? ==> r.error == LabelDays(value, DAY_LABELS).error
      ensures r.Ok? ==> fresh(r.value) && r.value.Valid()
      ensures r.Ok? ==> forall i :: 0 <= i < 7 ==>
        r.value.days[i].1 != null && fresh(r.value.days[i].1) && BuiltFor(value, DAY_LABELS[i], r.value.days[i].1)
      ensures r.Ok? ==> forall i, j :: 0 <= i < j < 7 ==> r.value.days[i].1 != r.value.days[j].1
    {
      var pairs :- LabelledDays(value);
      LabelPairs(pairs);
      var week := new Week.FromPairs(pairs);
      return Ok(week);
    }

    /** `DayLabels.map(...)`: each label with its day, in order; the first
      label whose series throws stops the rest. */
    static method LabelledDays(value: WeekParsable) returns (r: Result<seq<(DayType, Day?)>>)
      ensures r.Err? ==> LabelDays(value, DAY_LABELS) == Err(r.error)
      ensures r.Ok? ==> LabelDays(value, DAY_LABELS).Ok?
      ensures r.Ok? ==> |r.value| == 7 && forall j :: 0 <= j < 7 ==>
        r.value[j].0 == DAY_LABELS[j] && r.value[j].1 != null && fresh(r.value[j].1) && BuiltFor(value, DAY_LABELS[j], r.value[j].1)
      ensures r.Ok? ==> forall j, k :: 0 <= j < k < 7 ==> r.value[j].1 != r.value[k].1
    {
      ghost var expected := LabelResults(value, DAY_LABELS);
      assert ResultsFor(value, expected) by {
        forall j | 0 <= j < 7
          ensures expected[j] == RecordsDay(RecordsFor(value, DAY_LABELS[j]))
        {
        }
      }
      r := CollectDays(value, expected);
      if r.Ok? {
        MadeUpToBuilt(value, r.value);
      }
    }

    /** `expected` holds what each label's records give, in label order. */
    static ghost predicate ResultsFor(value: WeekParsable, expected: seq<Result<DayEntries>>)
    {
      |expected| == 7 &&
      forall j {:trigger RecordsFor(value, DAY_LABELS[j])} :: 0 <= j < 7 ==>
        expected[j] == RecordsDay(RecordsFor(value, DAY_LABELS[j]))
    }

    /** The loop of `DayLabels.map(...)`, stated against the labels'
      results: the first failing label stops it. */
    static method CollectDays(value: WeekParsable, ghost expected: seq<Result<DayEntries>>)
      returns (r: Result<seq<(DayType, Day?)>>)
      requires ResultsFor(value, expected)
      ensures r.Err? ==> AllOk(expected) == Err(r.error)
      ensures r.Ok? ==> |r.value| == 7 && MadeUpTo(expected, r.value)
      ensures r.Ok? ==> forall j :: 0 <= j < 7 ==> fresh(r.value[j].1)
      ensures r.Ok? ==> forall j, k :: 0 <= j < k < 7 ==> r.value[j].1 != r.value[k].1
    {
      var pairs: seq<(DayType, Day?)> := [];
      for i := 0 to 7
        invariant |pairs| == i && MadeUpTo(expected, pairs)
        invariant forall j :: 0 <= j < i ==> fresh(pairs[j].1)
        invariant forall j, k :: 0 <= j < k < i ==> pairs[j].1 != pairs[k].1
      {
        var day := LabelDayAt(value, i, expected);
        if day.Err? {
          AllOkFirstError(expected, i);
          return Err(day.error);
        }
        MadeUpToAppend(expected, pairs, day.value);
        pairs := pairs + [(DAY_LABELS[i], day.value)];
      }
      return Ok(pairs);
    }

    /** The day of the label at `i`, against its expected result. */
    static method LabelDayAt(value: WeekParsable, i: nat, ghost expected: seq<Result<DayEntries>>) returns (r: Result<Day>)
      requires i < 7 && ResultsFor(value, expected)
      ensures r.Ok? <==> expected[i].Ok?
      ensures r.Err? ==> r.error == expected[i].error
      ensures r.Ok? ==> fresh(r.value) && Made(expected[i], DAY_LABELS[i], r.value)
    {
      r := LabelDay(value, DAY_LABELS[i]);
      assert expected[i] == RecordsDay(RecordsFor(value, DAY_LABELS[i]));
    }

    /** The day holds the entries `expected` gives, under label `d`, with
      no options. */
    static ghost predicate Made(expected: Result<DayEntries>, d: DayType, day: Day)
      reads day
    {
      expected == Ok(day.entries) && day.dayOfWeek == Some(d) && day.options == None
    }

    /** The first labels, in order, each with the day made for it. */
    static ghost predicate MadeUpTo(expected: seq<Result<DayEntries>>, pairs: seq<(DayType, Day?)>)
      reads set j | 0 <= j < |pairs| :: pairs[j].1
    {
      |pairs| <= |expected| && |pairs| <= 7 && forall j :: 0 <= j < |pairs| ==>
        pairs[j].0 == DAY_LABELS[j] && pairs[j].1 != null && Made(expected[j], DAY_LABELS[j], pairs[j].1)
    }

    /** The next label's day extends the labelled prefix. */
    static lemma MadeUpToAppend(expected: seq<Result<DayEntries>>, pairs: seq<(DayType, Day?)>, day: Day)
      requires |pairs| < 7 && |pairs| < |expected| && MadeUpTo(expected, pairs)
      requires Made(expected[|pairs|], DAY_LABELS[|pairs|], day)
      ensures MadeUpTo(expected, pairs + [(DAY_LABELS[|pairs|], day)])
    {
      var pairs' := pairs + [(DAY_LABELS[|pairs|], day)];
      forall j | 0 <= j < |pairs'|
        ensures pairs'[j].0 == DAY_LABELS[j] && pairs'[j].1 != null && Made(expected[j], DAY_LABELS[j], pairs'[j].1)
      {
        if j < |pairs| {
          assert pairs'[j] == pairs[j];
        }
      }
    }

    /** Seven labelled days made from the labels' results are the days the
      record constructor builds, and then every label succeeds. */
    static lemma MadeUpToBuilt(value: WeekParsable, pairs: seq<(DayType, Day?)>)
      requires |pairs| == 7 && MadeUpTo(LabelResults(value, DAY_LABELS), pairs)
      ensures LabelDays(value, DAY_LABELS).Ok?
      ensures forall j :: 0 <= j < 7 ==>
        pairs[j].0 == DAY_LABELS[j] && pairs[j].1 != null && BuiltFor(value, DAY_LABELS[j], pairs[j].1)
    {
      var expected := LabelResults(value, DAY_LABELS);
      forall j | 0 <= j < 7
        ensures pairs[j].0 == DAY_LABELS[j] && pairs[j].1 != null && BuiltFor(value, DAY_LABELS[j], pairs[j].1)
      {
        assert Made(expected[j], DAY_LABELS[j], pairs[j].1);
      }
    }

    /** What the record constructor makes of one label: its day, labelled,
      holding what its records' series gives. */
    static ghost predicate BuiltFor(value: WeekParsable, d: DayType, day: Day)
      reads day
    {
      Made(RecordsDay(RecordsFor(value, d)), d, day)
    }

    /** `Day.fromTimeslotSerie(new TimeslotSerie({ timeslots }), label)`
      for one label. */
    static method LabelDay(value: WeekParsable, d: DayType) returns (r: Result<Day>)
      ensures r.Ok? <==> RecordsDay(RecordsFor(value, d)).Ok?
      ensures r.Err? ==> r.error == RecordsDay(RecordsFor(value, d)).error
      ensures r.Ok? ==> fresh(r.value) && BuiltFor(value, d, r.value)
    {
      var records := RecordsFor(value, d);
      var serie :- Serie.TimeslotSerie.FromRecords(Items(records), None);
      var day := Day.FromTimeslotSerie(serie, d);
      return Ok(day);
    }

    /** `Week.fromDay(day)`: the day's records for every label. A day
      whose keys do not all read as slots throws in `toJSON()`. */
    static method FromDay(d: Day) returns (r: Result<Week>)
      ensures !AllKeysParse(d.entries) ==> r == Err(DayJSON(d.dayOfWeek, d.entries).error)
      ensures r.Ok? <==> (AllKeysParse(d.entries)
        && LabelDays(SameForAll(DayJSON(d.dayOfWeek, d.entries).value.timeslots), DAY_LABELS).Ok?)
      ensures AllKeysParse(d.entries) && r.Err?
        ==> r.error == LabelDays(SameForAll(DayJSON(d.dayOfWeek, d.entries).value.timeslots), DAY_LABELS).error
      ensures r.Ok? ==> AllKeysParse(d.entries) && fresh(r.value) && r.value.Valid()
      ensures r.Ok? ==> forall i :: 0 <= i < 7 ==>
        r.value.days[i].1 != null && fresh(r.value.days[i].1)
        && BuiltFor(SameForAll(DayJSON(d.dayOfWeek, d.entries).value.timeslots), DAY_LABELS[i], r.value.days[i].1)
      ensures M.UniqueKeys(d.entries) && CanonicalKeys(d.entries) && Disjoint(KeySlots(d.entries)) ==>
        r.Ok? && forall i :: 0 <= i < 7 ==> r.value.days[i].1.entries == FreeEntries(Sort(KeySlots(d.entries)))
    {
      var json :- d.ToJSON();
      r := FromParsable(SameForAll(json.timeslots));
      if M.UniqueKeys(d.entries) && CanonicalKeys(d.entries) && Disjoint(KeySlots(d.entries)) {
        DayRecordsDay(d.dayOfWeek, d.entries);
        SameDays(json.timeslots, FreeEntries(Sort(KeySlots(d.entries))));
      }
    }

    /** `Week.fromTimeslotSerie(serie)`: the series' records for every
      label. They come from slots already in a series, so only slots the
      series could not have made from text make it throw. */
    static method FromTimeslotSerie(serie: Serie.TimeslotSerie) returns (r: Result<Week>)
      ensures r.Ok? ==> fresh(r.value) && r.value.Valid()
      ensures r.Ok? ==> forall i :: 0 <= i < 7 ==>
        r.value.days[i].1 != null && fresh(r.value.days[i].1)
        && BuiltFor(SameForAll(SeriesJSON(serie.entries)), DAY_LABELS[i], r.value.days[i].1)
      ensures Serie.Invariant(serie.entries) && Canonical(serie.entries) && AllWellFormed(M.Values(serie.entries)) ==>
        r.Ok? && forall i :: 0 <= i < 7 ==> r.value.days[i].1.entries == FreeEntries(SeriesCore.ToArray(serie.entries))
    {
      r := FromParsable(SameForAll(serie.ToJSON()));
      if Serie.Invariant(serie.entries) && Canonical(serie.entries) && AllWellFormed(M.Values(serie.entries)) {
        SerieRecordsDay(serie.entries);
        SameDays(SeriesJSON(serie.entries), FreeEntries(SeriesCore.ToArray(serie.entries)));
      }
    }

    /** `get(key)`: a stored `null` is replaced by a fresh day of that
      label with no entries, which is stored and returned; an absent key
      gives `undefined` (`null` here) and changes nothing. */
    method Get(key: DayType) returns (d: Day?)
      modifies this
      ensures M.Get(old(days), key).None? ==> d == null && days == old(days)
      ensures M.Get(old(days), key).Some? && M.Get(old(days), key).value != null ==>
        d == M.Get(old(days), key).value && days == old(days)
      ensures M.Get(old(days), key) == Some(null) ==>
        d != null && fresh(d) && d.State() == DayState([], Some(key), None) && days == M.Put(old(days), key, d)
      ensures old(Valid()) ==> Valid() && Fetched(old(days), days, key, d)
    {
      if Valid() {
        LabelKeyed(days, key);
      }
      var value := M.Get(days, key);
      if value == Some(null) {
        var serie := new Serie.TimeslotSerie.Empty();
        var day := Day.FromTimeslotSerie(serie, key);
        assert day.entries == [] by {
          RecordPairsOfSeries([]);
        }
        if Valid() {
          PutLabel(days, key, day);
        }
        days := M.Put(days, key, day);
        return day;
      }
      if value.None? {
        return null;
      }
      return value.value;
    }

    /** `set(key, day)`: a plain store; the week is returned. */
    method Set(key: DayType, value: Day?) returns (w: Week)
      modifies this
      ensures w == this && days == M.Put(old(days), key, value)
      ensures old(Valid()) ==> Valid()
    {
      if Valid() {
        PutLabel(days, key, value);
      }
      days := M.Put(days, key, value);
      return this;
    }

    /** What `get` does to a week holding every label: the day under the
      label is returned, or, for `null`, a fresh empty day of that label
      that takes its place. */
    static ghost predicate Fetched(before: seq<(DayType, Day?)>, after: seq<(DayType, Day?)>, key: DayType, d: Day?)
      requires |before| == 7
      reads d
    {
      var i := LabelIndex(Some(key));
      && d != null
      && after == before[i := (key, d)]
      && (before[i].1 != null ==> d == before[i].1)
      && (before[i].1 == null ==> d.State() == DayState([], Some(key), None))
    }

    /** The `k`-th day is the first whose `empty()` throws. */
    static ghost predicate FirstThrow(days: seq<(DayType, Day?)>, k: int, e: ErrorKind)
      requires 0 <= k < |days|
      reads set i | 0 <= i < |days| :: days[i].1
    {
      && days[k].1 != null && DayEmpty(days[k].1.entries, false, days[k].1.options) == Err(e)
      && forall j :: 0 <= j < k ==> days[j].1 != null && DayEmpty(days[j].1.entries, false, days[j].1.options).Ok?
    }

    /** `toTuple()`: the seven days, Monday first, each through `get`. */
    method ToTuple() returns (r: seq<Day>)
      requires Valid()
      modifies this
      ensures Valid() && |r| == 7
      ensures forall i :: 0 <= i < 7 ==> days[i] == (DAY_LABELS[i], r[i])
      ensures forall i :: 0 <= i < 7 ==> old(days[i].1) != null ==> r[i] == old(days[i].1)
      ensures forall i :: 0 <= i < 7 ==> old(days[i].1) == null ==>
        fresh(r[i]) && r[i].State() == DayState([], Some(DAY_LABELS[i]), None)
    {
      r := [];
      for i := 0 to 7
        invariant Valid() && |r| == i
        invariant forall j :: 0 <= j < i ==> days[j] == (DAY_LABELS[j], r[j])
        invariant forall j :: i <= j < 7 ==> days[j] == old(days[j])
        invariant forall j :: 0 <= j < i ==> old(days[j].1) != null ==> r[j] == old(days[j].1)
        invariant forall j :: 0 <= j < i ==> old(days[j].1) == null ==>
          fresh(r[j]) && r[j].State() == DayState([], Some(DAY_LABELS[j]), None)
      {
        LabelIndexAt(i);
        var d := Get(DAY_LABELS[i]);
        r := r + [d];
      }
    }

    /** `toString()`: the days of `toTuple()`, each printed with
      `includeDay: false`, which still prints its index, joined by
      `WEEK_SEPARATOR`. */
    method ToString() returns (s: string)
      requires Valid()
      modifies this
      ensures Valid() && forall i :: 0 <= i < 7 ==> days[i].1 != null
      ensures forall i :: 0 <= i < 7 ==> old(days[i].1) != null ==> days[i].1 == old(days[i].1)
      ensures forall i :: 0 <= i < 7 ==> old(days[i].1) == null ==>
        fresh(days[i].1) && days[i].1.State() == DayState([], Some(DAY_LABELS[i]), None)
      ensures s == Strings.Join(Pieces(days), WEEK_SEPARATOR)
    {
      var t := ToTuple();
      assert DayStrings(t) == Pieces(days);
      s := Strings.Join(DayStrings(t), WEEK_SEPARATOR);
    }

    /** `emptyTimeslots(day)`: that day's `empty()`, the day read through
      `get`. */
    method EmptyTimeslotsOf(key: DayType) returns (r: Result<seq<Timeslot>>)
      requires Valid()
      modifies this
      ensures Valid() && Fetched(old(days), days, key, days[LabelIndex(Some(key))].1)
      ensures old(days[LabelIndex(Some(key))].1) == null ==> fresh(days[LabelIndex(Some(key))].1)
      ensures var day := days[LabelIndex(Some(key))].1;
        day != null && r == DayEmpty(day.entries, false, day.options)
    {
      var day := Get(key);
      r := day.Empty(false);
    }

    /** `emptyTimeslots()`: every day's `empty()`, Monday first; the first
      day that throws stops the rest, which are then not read. */
    method EmptyTimeslots() returns (r: Result<seq<seq<Timeslot>>>)
      requires Valid()
      modifies this
      ensures Valid()
      ensures forall i :: 0 <= i < 7 ==> (days[i].1 == old(days[i].1) ||
        (old(days[i].1) == null && fresh(days[i].1) && days[i].1.State() == DayState([], Some(DAY_LABELS[i]), None)))
      ensures r.Ok? ==> |r.value| == 7 && forall i :: 0 <= i < 7 ==>
        days[i].1 != null && DayEmpty(days[i].1.entries, false, days[i].1.options) == Ok(r.value[i])
      ensures r.Err? ==> exists k :: 0 <= k < 7 && FirstThrow(days, k, r.error)
    {
      var gaps: seq<seq<Timeslot>> := [];
      for i := 0 to 7
        invariant Valid() && |gaps| == i
        invariant forall j :: 0 <= j < 7 ==> (days[j].1 == old(days[j].1) ||
          (old(days[j].1) == null && fresh(days[j].1) && days[j].1.State() == DayState([], Some(DAY_LABELS[j]), None)))
        invariant EmptiedUpTo(days, gaps)
      {
        LabelIndexAt(i);
        ghost var before := days;
        var e := EmptyTimeslotsOf(DAY_LABELS[i]);
        EmptiedUpdate(before, gaps, days[i]);
        if e.Err? {
          ThrowAt(days, gaps, e.error);
          return Err(e.error);
        }
        EmptiedAppend(days, gaps, e.value);
        gaps := gaps + [e.value];
      }
      return Ok(gaps);
    }

    /** The first `|gaps|` days are present and their `empty()` gave `gaps`. */
    static ghost predicate EmptiedUpTo(days: seq<(DayType, Day?)>, gaps: seq<seq<Timeslot>>)
      reads set j | 0 <= j < |days| :: days[j].1
    {
      && |gaps| <= |days|
      && forall j :: 0 <= j < |gaps| ==>
        days[j].1 != null && DayEmpty(days[j].1.entries, false, days[j].1.options) == Ok(gaps[j])
    }

    /** Replacing the day after the ones read keeps what was read. */
    static lemma EmptiedUpdate(days: seq<(DayType, Day?)>, gaps: seq<seq<Timeslot>>, p: (DayType, Day?))
      requires EmptiedUpTo(days, gaps) && |gaps| < |days|
      ensures EmptiedUpTo(days[|gaps| := p], gaps)
    {
      var after := days[|gaps| := p];
      assert forall j :: 0 <= j < |gaps| ==> after[j] == days[j];
    }

    /** One more day read. */
    static lemma EmptiedAppend(days: seq<(DayType, Day?)>, gaps: seq<seq<Timeslot>>, g: seq<Timeslot>)
      requires EmptiedUpTo(days, gaps) && |gaps| < |days|
      requires days[|gaps|].1 != null && DayEmpty(days[|gaps|].1.entries, false, days[|gaps|].1.options) == Ok(g)
      ensures EmptiedUpTo(days, gaps + [g])
    {
      var next := gaps + [g];
      forall j | 0 <= j < |next|
        ensures days[j].1 != null && DayEmpty(days[j].1.entries, false, days[j].1.options) == Ok(next[j])
      {
        if j < |gaps| {
          assert next[j] == gaps[j];
        } else {
          assert j == |gaps| && next[j] == g;
        }
      }
    }

    /** A day that throws right after those read is the first that throws. */
    static lemma ThrowAt(days: seq<(DayType, Day?)>, gaps: seq<seq<Timeslot>>, e: ErrorKind)
      requires EmptiedUpTo(days, gaps) && |gaps| < |days|
      requires days[|gaps|].1 != null && DayEmpty(days[|gaps|].1.entries, false, days[|gaps|].1.options) == Err(e)
      ensures FirstThrow(days, |gaps|, e)
    {
    }
  }
}
