/** `Day`: a `Map` from slot strings to a task or `null`, in insertion
    order, with a day of the week and, for one constructor branch only,
    series options. Its `set` is a plain store with no check, so the `Map`
    constructor adds initial entries unchanged. */
module Days {
  import opened Wrappers
  import opened Constants
  import Strings
  import T = TimeOfDay
  import opened Timeslots
  import opened SlotOrder
  import M = OrderedMaps
  import opened SeriesCore
  import Serie

  // ---------------------------------------------------------------------
  // Day labels and tasks

  datatype DayType = Monday | Tuesday | Wednesday | Thursday | Friday | Saturday | Sunday

  /** `DayLabels`: the keys of the label object, Monday first. */
  const DAY_LABELS: seq<DayType> := [Monday, Tuesday, Wednesday, Thursday, Friday, Saturday, Sunday]

  /** `DayLabels.indexOf(day)`, with `None` standing for `undefined`. */
  function LabelIndex(day: Option<DayType>): (i: int)
    ensures day.None? ==> i == -1
    ensures day.Some? ==> 0 <= i < 7 && DAY_LABELS[i] == day.value
  {
    match day
    case None => -1
    case Some(d) =>
      match d
      case Monday => 0
      case Tuesday => 1
      case Wednesday => 2
      case Thursday => 3
      case Friday => 4
      case Saturday => 5
      case Sunday => 6
  }

  /** `DayLabels[i]`: a label for an index in range, `undefined` for any
      other. */
  function LabelAt(i: int): (d: Option<DayType>)
    ensures d.Some? <==> 0 <= i < 7
    ensures d.Some? ==> LabelIndex(d) == i
  {
    if 0 <= i < 7 then Some(DAY_LABELS[i]) else None
  }

  /** Two labels have the same index only when they are the same. */
  lemma LabelIndexInjective(a: Option<DayType>, b: Option<DayType>)
    ensures LabelIndex(a) == LabelIndex(b) <==> a == b
  {
  }

  /** A task, kept only as an opaque value: its identity. */
  datatype Task = Task(id: nat)

  /** The entries of a day: slot strings to a task, or `None` for `null`. */
  type DayEntries = seq<(string, Option<Task>)>

  /** `toJSON()` of a day. */
  datatype DaySerializable = DaySerializable(dayOfWeek: Option<DayType>, timeslots: seq<TimeslotSerializable>)

  /** `Day.getDefaultTimeslotSerieOptions()`: merging allowed, limits 07:00
      and 20:00. */
  const DAY_START: T.Time := T.Time(7 * HOUR_MINUTES)
  const DAY_END: T.Time := T.Time(20 * HOUR_MINUTES)
  const DEFAULT_OPTIONS: SeriesOptions := SeriesOptions(Some(true), Some(DAY_START), Some(DAY_END), None)

  /** The default start limit is the time `07:00` reads as. */
  lemma DefaultStartParses()
    ensures T.FromString("07:00") == Ok(DAY_START)
  {
    assert T.Hours(DAY_START) == 7 && T.Minutes(DAY_START) == 0;
    T.StringRoundTrip(DAY_START);
    assert Strings.TwoDigits(7) == "07" && Strings.TwoDigits(0) == "00";
    assert T.ToString(DAY_START) == "07:00";
  }

  /** The default end limit is the time `20:00` reads as. */
  lemma DefaultEndParses()
    ensures T.FromString("20:00") == Ok(DAY_END)
  {
    assert T.Hours(DAY_END) == 20 && T.Minutes(DAY_END) == 0;
    T.StringRoundTrip(DAY_END);
    assert Strings.NatToDecimal(20) == "20" by {
      assert Strings.NatToDecimal(2) == [Strings.DigitChar(2)];
    }
    assert Strings.TwoDigits(20) == "20" && Strings.TwoDigits(0) == "00";
    assert T.ToString(DAY_END) == "20:00";
  }

  /** `Timeslot.toString()` called on the class instead of an instance
      gives the source text of the class. This constant stands in for that
      text: all the model uses of it is that it does not read as a slot. */
  const TIMESLOT_CLASS_TEXT: string := "class Timeslot { ... }"

  /** The class text never reads as a slot, so no key can match it. */
  lemma ClassTextIsNoSlot()
    ensures FromString(TIMESLOT_CLASS_TEXT).Err?
  {
    assert forall i :: 0 <= i < |TIMESLOT_CLASS_TEXT| ==> TIMESLOT_CLASS_TEXT[i] != INTERVAL_TIME_SEPARATOR;
    FromStringRejectsMissingSeparator(TIMESLOT_CLASS_TEXT);
  }

  // ---------------------------------------------------------------------
  // Keys read as slots

  /** Every key parses as a slot. */
  predicate AllKeysParse(entries: DayEntries)
  {
    forall i :: 0 <= i < |entries| ==> FromString(entries[i].0).Ok?
  }

  /** The slots the keys denote. */
  function KeySlots(entries: DayEntries): (r: seq<Timeslot>)
    requires AllKeysParse(entries)
    ensures |r| == |entries| && forall i :: 0 <= i < |entries| ==> r[i] == FromString(entries[i].0).value
  {
    seq(|entries|, i requires 0 <= i < |entries| => FromString(entries[i].0).value)
  }

  /** What a day built by `fromString` or from records of disjoint slots
      has and `insert` keeps: every key reads as a slot, and no two of those
      slots overlap. It says nothing about covering a span; that is what
      `GapsTile` and `AfterInsertTiling` state. */
  predicate ReadableDisjoint(entries: DayEntries)
  {
    AllKeysParse(entries) && Disjoint(KeySlots(entries))
  }

  /** Free entries for the slots, each under its string. */
  function FreeEntries(slots: seq<Timeslot>): (r: DayEntries)
    ensures |r| == |slots| && forall i :: 0 <= i < |slots| ==> r[i] == (ToString(slots[i]), None)
  {
    seq(|slots|, i requires 0 <= i < |slots| => (ToString(slots[i]), None))
  }

  /** The keys of free entries for well-formed slots read back as the
      slots. */
  lemma FreeEntriesSlots(slots: seq<Timeslot>)
    requires AllWellFormed(slots)
    ensures AllKeysParse(FreeEntries(slots)) && KeySlots(FreeEntries(slots)) == slots
  {
    var e := FreeEntries(slots);
    forall i | 0 <= i < |slots|
      ensures FromString(e[i].0) == Ok(slots[i])
    {
      StringRoundTrip(slots[i]);
    }
  }

  /** `new Timeslot(record)` of each record. */
  function RecordResults(records: seq<TimeslotSerializable>): (r: seq<Result<Timeslot>>)
    ensures |r| == |records| && forall i :: 0 <= i < |records| ==> r[i] == FromSerializable(records[i])
  {
    seq(|records|, i requires 0 <= i < |records| => FromSerializable(records[i]))
  }

  /** `timeslots.map((t) => [new Timeslot(t).toString(), null])`: each
      record through the record constructor, keyed by its string, free. */
  function RecordPairs(records: seq<TimeslotSerializable>): (r: Result<DayEntries>)
    ensures r.Ok? <==> forall i :: 0 <= i < |records| ==> FromSerializable(records[i]).Ok?
    ensures r.Ok? ==> r.value == FreeEntries(AllOk(RecordResults(records)).value)
  {
    var slots :- AllOk(RecordResults(records));
    Ok(FreeEntries(slots))
  }

  /** Records that read back as the slots give them as free entries. */
  lemma RecordPairsOf(records: seq<TimeslotSerializable>, slots: seq<Timeslot>)
    requires |records| == |slots| && forall i :: 0 <= i < |records| ==> FromSerializable(records[i]) == Ok(slots[i])
    ensures RecordPairs(records) == Ok(FreeEntries(slots))
  {
    var rs := RecordResults(records);
    assert forall i :: 0 <= i < |rs| ==> rs[i] == Ok(slots[i]);
    assert AllOk(rs).value == slots;
  }

  /** The records of a series' `toJSON()` give its sorted slots as free
      entries. */
  lemma RecordPairsOfSeries(entries: Entries)
    ensures RecordPairs(SeriesJSON(entries)) == Ok(FreeEntries(SeriesCore.ToArray(entries)))
  {
    var sorted := SeriesCore.ToArray(entries);
    assert |sorted| == |multiset(M.Values(entries))| == |entries|;
    RecordPairsOf(SeriesJSON(entries), sorted);
  }

  /** Distinct slot strings make free entries with distinct keys, which a
      `Map` keeps as they are. */
  lemma FreeEntriesMap(slots: seq<Timeslot>)
    requires M.UniqueKeys(CanonicalEntries(slots))
    ensures M.UniqueKeys(FreeEntries(slots)) && M.FromPairs(FreeEntries(slots)) == FreeEntries(slots)
  {
    var ce, fe := CanonicalEntries(slots), FreeEntries(slots);
    forall i, j | 0 <= i < j < |fe|
      ensures fe[i].0 != fe[j].0
    {
      assert fe[i].0 == ce[i].0 && fe[j].0 == ce[j].0;
    }
    M.FromPairsUnique(fe);
  }

  // ---------------------------------------------------------------------
  // toString and fromString

  /** What `formatString` is given as the day: a label, a number, or
      `undefined`, which prints as the word. */
  datatype DayRef = Named(dayLabel: DayType) | Numbered(n: int) | Unset

  /** The day a `Day` passes to `formatString`: its label, or `undefined`. */
  function DayRefOf(day: Option<DayType>): DayRef
  {
    if day.Some? then Named(day.value) else Unset
  }

  /** `${dayIndex}`: the index of a label, the number, or `undefined`. */
  function PrefixText(day: DayRef): (r: string)
    ensures DAY_TIME_SEPARATOR !in r && TIMESLOT_SERIES_SEPARATOR !in r
    ensures day.Named? ==> Strings.ParseInt(r) == Some(LabelIndex(Some(day.dayLabel)))
    ensures day.Numbered? ==> Strings.ParseInt(r) == Some(day.n)
    ensures day.Unset? ==> Strings.ParseInt(r) == None
  {
    match day
    case Named(d) => Strings.IntToDecimal(LabelIndex(Some(d)))
    case Numbered(n) => Strings.IntToDecimal(n)
    case Unset => "undefined"
  }

  /** `Day.formatString(day, timeslots)`: `index;timeslots`. */
  function FormatString(day: DayRef, timeslots: string): (r: string)
    ensures DAY_TIME_SEPARATOR !in timeslots ==> Strings.Split(r, DAY_TIME_SEPARATOR) == [PrefixText(day), timeslots]
  {
    assert DAY_TIME_SEPARATOR !in timeslots
      ==> (Strings.Split(PrefixText(day) + [DAY_TIME_SEPARATOR] + timeslots, DAY_TIME_SEPARATOR) == [PrefixText(day), timeslots]) by {
      if DAY_TIME_SEPARATOR !in timeslots {
        Strings.SplitTwo(PrefixText(day), DAY_TIME_SEPARATOR, timeslots);
      }
    }
    PrefixText(day) + [DAY_TIME_SEPARATOR] + timeslots
  }

  /** `day.toString()`, and `day.toString({ includeDay })` whatever
      `includeDay` is: the keys in insertion order, joined by `,`, after
      the day's index. */
  function DayString(day: Option<DayType>, entries: DayEntries): (r: string)
    ensures (forall i :: 0 <= i < |entries| ==> DAY_TIME_SEPARATOR !in entries[i].0)
      ==> var parts := Strings.Split(r, DAY_TIME_SEPARATOR);
          && |parts| == 2 && Strings.ParseInt(parts[0]) == (if day.Some? then Some(LabelIndex(day)) else None)
          && parts[1] == Strings.Join(M.Keys(entries), [TIMESLOT_SERIES_SEPARATOR])
  {
    assert (forall i :: 0 <= i < |entries| ==> DAY_TIME_SEPARATOR !in entries[i].0)
      ==> DAY_TIME_SEPARATOR !in Strings.Join(M.Keys(entries), [TIMESLOT_SERIES_SEPARATOR]) by {
      if forall i :: 0 <= i < |entries| ==> DAY_TIME_SEPARATOR !in entries[i].0 {
        Strings.JoinAvoids(M.Keys(entries), TIMESLOT_SERIES_SEPARATOR, DAY_TIME_SEPARATOR);
      }
    }
    FormatString(DayRefOf(day), Strings.Join(M.Keys(entries), [TIMESLOT_SERIES_SEPARATOR]))
  }

  /** A label prints as its one-digit index, and a number's decimal form
      is the label's when the number is that index. */
  lemma LabelPrefix(d: DayType)
    ensures PrefixText(Named(d)) == [Strings.DigitChar(LabelIndex(Some(d)))]
    ensures PrefixText(Named(d)) == PrefixText(Numbered(LabelIndex(Some(d))))
  {
  }

  /** `Day.fromString(value)`: the part before the first `;` picks the label
      (Monday when empty; `parseInt` of it otherwise, `undefined` when out
      of range); the part after it must be a series string, whose sorted
      slots become free entries. A value without `;` hands `undefined` to
      the series parser, which fails on reading its length. */
  function FromStringParts(value: string): (r: Result<(Option<DayType>, DayEntries)>)
    ensures var parts := Strings.Split(value, DAY_TIME_SEPARATOR);
      && (|parts| < 2 ==> r == Err(RuntimeTypeError))
      && (|parts| >= 2 && Serie.FromStringEntries(parts[1]).Err? ==> r == Err(Serie.FromStringEntries(parts[1]).error))
      && (|parts| >= 2 && Serie.FromStringEntries(parts[1]).Ok? ==> r.Ok?)
    ensures r.Ok? ==> M.UniqueKeys(r.value.1)
    ensures var head := Strings.Split(value, DAY_TIME_SEPARATOR)[0];
      && (r.Ok? && |head| == 0 ==> r.value.0 == Some(Monday))
      && (r.Ok? && |head| > 0 ==>
            (r.value.0.Some? <==> Strings.ParseInt(head).Some? && 0 <= Strings.ParseInt(head).value < 7)
            && (r.value.0.Some? ==> LabelIndex(r.value.0) == Strings.ParseInt(head).value))
  {
    var parts := Strings.Split(value, DAY_TIME_SEPARATOR);
    var day := if |parts[0]| == 0 then Some(Monday)
      else match Strings.ParseInt(parts[0])
        case None => None
        case Some(i) => LabelAt(i);
    if |parts| < 2 then Err(RuntimeTypeError)
    else
      var serie :- Serie.FromStringEntries(parts[1]);
      RecordPairsOfSeries(serie);
      var pairs := RecordPairs(SeriesJSON(serie)).value;
      Ok((day, M.FromPairs(pairs)))
  }

  /** The index's digit reads back as the index. */
  lemma ParseDigit(i: int)
    requires 0 <= i < 7
    ensures Strings.ParseInt([Strings.DigitChar(i)]) == Some(i)
  {
    Strings.ParseNatToDecimal(i);
  }

  /** A day string splits at its one `;`. */
  lemma DayStringSplits(i: int, slots: seq<Timeslot>)
    requires 0 <= i < 7
    ensures var rest := Strings.Join(SlotStrings(slots), [TIMESLOT_SERIES_SEPARATOR]);
      Strings.Split(FormatString(Numbered(i), rest), DAY_TIME_SEPARATOR) == [[Strings.DigitChar(i)], rest]
  {
    var rest := Strings.Join(SlotStrings(slots), [TIMESLOT_SERIES_SEPARATOR]);
    var prefix := [Strings.DigitChar(i)];
    assert Strings.IntToDecimal(i) == prefix;
    assert DAY_TIME_SEPARATOR !in prefix;
    NoDaySeparator(slots);
    Strings.SplitTwo(prefix, DAY_TIME_SEPARATOR, rest);
  }

  /** Joined slot strings have no `;`. */
  lemma NoDaySeparator(slots: seq<Timeslot>)
    ensures DAY_TIME_SEPARATOR !in Strings.Join(SlotStrings(slots), [TIMESLOT_SERIES_SEPARATOR])
  {
    forall k | 0 <= k < |slots|
      ensures DAY_TIME_SEPARATOR !in SlotStrings(slots)[k]
    {
      SlotStringAvoids(slots[k], DAY_TIME_SEPARATOR);
    }
    Strings.JoinAvoids(SlotStrings(slots), TIMESLOT_SERIES_SEPARATOR, DAY_TIME_SEPARATOR);
  }

  /** `Day.fromString(s).toString() == s` for the string of a labelled day
      whose slots are well-formed, sorted, distinct and non-overlapping:
      `fromString` gives that label and the slots as free entries, which
      print back as `s`. */
  lemma DayStringRoundTrip(i: int, slots: seq<Timeslot>)
    requires 0 <= i < 7 && |slots| > 0
    requires AllWellFormed(slots) && Sorted(slots) && Disjoint(slots) && M.UniqueKeys(CanonicalEntries(slots))
    ensures var s := FormatString(Numbered(i), Strings.Join(SlotStrings(slots), [TIMESLOT_SERIES_SEPARATOR]));
      && FromStringParts(s) == Ok((Some(DAY_LABELS[i]), FreeEntries(slots)))
      && DayString(Some(DAY_LABELS[i]), FreeEntries(slots)) == s
  {
    DayStringParses(i, slots);
    DayStringPrints(i, slots);
  }

  /** The parsing half of `DayStringRoundTrip`. */
  lemma DayStringParses(i: int, slots: seq<Timeslot>)
    requires 0 <= i < 7 && |slots| > 0
    requires AllWellFormed(slots) && Sorted(slots) && Disjoint(slots) && M.UniqueKeys(CanonicalEntries(slots))
    ensures FromStringParts(FormatString(Numbered(i), Strings.Join(SlotStrings(slots), [TIMESLOT_SERIES_SEPARATOR])))
      == Ok((Some(DAY_LABELS[i]), FreeEntries(slots)))
  {
    var rest := Strings.Join(SlotStrings(slots), [TIMESLOT_SERIES_SEPARATOR]);
    DayStringSplits(i, slots);
    ParseDigit(i);
    SeriesPartParses(slots);
    PartsParse(FormatString(Numbered(i), rest), [Strings.DigitChar(i)], rest, i,
      CanonicalEntries(slots), FreeEntries(slots));
  }

  /** A value that splits into a day number and a series part that parses
      reads as that day and the series' free entries. */
  lemma PartsParse(value: string, digits: string, rest: string, i: int, serie: Entries, free: DayEntries)
    requires Strings.Split(value, DAY_TIME_SEPARATOR) == [digits, rest]
    requires |digits| > 0 && Strings.ParseInt(digits) == Some(i) && 0 <= i < 7
    requires Serie.FromStringEntries(rest) == Ok(serie)
    requires RecordPairs(SeriesJSON(serie)) == Ok(free) && M.FromPairs(free) == free
    ensures FromStringParts(value) == Ok((Some(DAY_LABELS[i]), free))
  {
    var parts := Strings.Split(value, DAY_TIME_SEPARATOR);
    assert parts[0] == digits && parts[1] == rest && |parts| == 2;
    assert LabelAt(i) == Some(DAY_LABELS[i]);
  }

  /** The printing half of `DayStringRoundTrip`. */
  lemma DayStringPrints(i: int, slots: seq<Timeslot>)
    requires 0 <= i < 7
    ensures DayString(Some(DAY_LABELS[i]), FreeEntries(slots))
      == FormatString(Numbered(i), Strings.Join(SlotStrings(slots), [TIMESLOT_SERIES_SEPARATOR]))
  {
    FreeEntriesKeyList(slots);
    var d := DAY_LABELS[i];
    assert LabelIndex(Some(d)) == i;
    LabelPrefix(d);
  }

  /** The keys of free entries are the slots' strings. */
  lemma FreeEntriesKeyList(slots: seq<Timeslot>)
    ensures M.Keys(FreeEntries(slots)) == SlotStrings(slots)
  {
  }

  /** The part after `;` parses as the series of the slots, whose records
      give the slots back as free entries. */
  lemma SeriesPartParses(slots: seq<Timeslot>)
    requires |slots| > 0
    requires AllWellFormed(slots) && Sorted(slots) && Disjoint(slots) && M.UniqueKeys(CanonicalEntries(slots))
    ensures var ce := CanonicalEntries(slots);
      && Serie.FromStringEntries(Strings.Join(SlotStrings(slots), [TIMESLOT_SERIES_SEPARATOR])) == Ok(ce)
      && RecordPairs(SeriesJSON(ce)) == Ok(FreeEntries(slots))
      && M.FromPairs(FreeEntries(slots)) == FreeEntries(slots)
  {
    var ce := CanonicalEntries(slots);
    CanonicalSorted(slots);
    assert SeriesString(ce) == Strings.Join(SlotStrings(slots), [TIMESLOT_SERIES_SEPARATOR]);
    Serie.StringRoundTrip(ce);
    RecordPairsOfSeries(ce);
    FreeEntriesMap(slots);
  }

  /** Canonical entries of sorted slots list them in their order. */
  lemma CanonicalSorted(slots: seq<Timeslot>)
    requires Sorted(slots)
    ensures SeriesCore.ToArray(CanonicalEntries(slots)) == slots
  {
    var ce := CanonicalEntries(slots);
    SortedUnique(SeriesCore.ToArray(ce), slots);
  }

  // ---------------------------------------------------------------------
  // tasks

  /** `tasks`: the values that are not `null`, in insertion order. */
  function TasksOf(entries: DayEntries): (r: seq<Task>)
    ensures |r| <= |entries|
  {
    if |entries| == 0 then []
    else (if entries[0].1.Some? then [entries[0].1.value] else []) + TasksOf(entries[1..])
  }

  /** The tasks of two runs of entries, one after the other. */
  lemma {:induction false} TasksConcat(a: DayEntries, b: DayEntries)
    ensures TasksOf(a + b) == TasksOf(a) + TasksOf(b)
    decreases |a|
  {
    if |a| > 0 {
      var h := if a[0].1.Some? then [a[0].1.value] else [];
      assert (a + b)[0] == a[0] && (a + b)[1..] == a[1..] + b;
      assert TasksOf(a) == h + TasksOf(a[1..]);
      assert TasksOf(a + b) == h + TasksOf(a[1..] + b);
      TasksConcat(a[1..], b);
    } else {
      assert a + b == b;
    }
  }

  /** Free entries hold no task. */
  lemma {:induction false} TasksOfFree(slots: seq<Timeslot>)
    ensures TasksOf(FreeEntries(slots)) == []
    decreases |slots|
  {
    if |slots| > 0 {
      assert FreeEntries(slots)[1..] == FreeEntries(slots[1..]);
      TasksOfFree(slots[1..]);
    }
  }

  /** Every task is the value of some entry, and every entry with a task
      contributes it. */
  lemma {:induction false} TasksAreValues(entries: DayEntries)
    ensures forall x :: x in TasksOf(entries) <==> exists i :: 0 <= i < |entries| && entries[i].1 == Some(x)
    decreases |entries|
  {
    if |entries| > 0 {
      TasksAreValues(entries[1..]);
      forall x
        ensures x in TasksOf(entries) <==> exists i :: 0 <= i < |entries| && entries[i].1 == Some(x)
      {
        if exists i :: 0 <= i < |entries| && entries[i].1 == Some(x) {
          var i :| 0 <= i < |entries| && entries[i].1 == Some(x);
          if i > 0 {
            assert entries[1..][i - 1] == entries[i];
          }
        }
        if x in TasksOf(entries[1..]) {
          var i :| 0 <= i < |entries[1..]| && entries[1..][i].1 == Some(x);
          assert entries[i + 1].1 == Some(x);
        }
      }
    }
  }

  // ---------------------------------------------------------------------
  // insert

  /** `Timeslot.fromString` of each key. */
  function KeyResults(entries: DayEntries): (r: seq<Result<Timeslot>>)
    ensures |r| == |entries| && forall i :: 0 <= i < |entries| ==> r[i] == FromString(entries[i].0)
  {
    seq(|entries|, i requires 0 <= i < |entries| => FromString(entries[i].0))
  }

  /** Entry `j` is free and its key, read as `parsed[j]`, is a slot
      containing `t`. */
  predicate FreeContainerAt(parsed: seq<Result<Timeslot>>, entries: DayEntries, j: int, t: Timeslot)
    requires |parsed| == |entries| && 0 <= j < |entries|
  {
    entries[j].1.None? && parsed[j].Ok? && ContainsSlot(parsed[j].value, t)
  }

  /** Entry `j` is free and its key reads as a slot containing `t`. */
  predicate IsFreeContainer(entries: DayEntries, j: int, t: Timeslot)
    requires 0 <= j < |entries|
  {
    FreeContainerAt(KeyResults(entries), entries, j, t)
  }

  /** The `find` of `insert`, from position `k` on, with `parsed` holding
      what `Timeslot.fromString` gives for each key: the keys are tried in
      turn and the first free entry whose slot contains `t` is taken; an
      unreadable key met before it fails the search. */
  function FindFreeFrom(parsed: seq<Result<Timeslot>>, entries: DayEntries, t: Timeslot, k: nat): (r: Result<Option<nat>>)
    requires |parsed| == |entries| && k <= |entries|
    ensures r.Ok? && r.value.Some? ==> k <= r.value.value < |entries| && FreeContainerAt(parsed, entries, r.value.value, t)
    ensures r.Ok? ==> forall j :: k <= j < (if r.value.Some? then r.value.value else |entries|) ==>
      parsed[j].Ok? && !FreeContainerAt(parsed, entries, j, t)
    ensures (forall j :: k <= j < |entries| ==> parsed[j].Ok?) ==> r.Ok?
    decreases |entries| - k
  {
    if k == |entries| then Ok(None)
    else match parsed[k]
      case Err(e) => Err(e)
      case Ok(s) =>
        if ContainsSlot(s, t) && entries[k].1.None? then Ok(Some(k))
        else FindFreeFrom(parsed, entries, t, k + 1)
  }

  /** `[...keys()].find(...)` over the whole day. */
  function FindFree(entries: DayEntries, t: Timeslot): (r: Result<Option<nat>>)
    ensures r.Ok? && r.value.Some? ==> var k := r.value.value;
      k < |entries| && IsFreeContainer(entries, k, t) && forall j :: 0 <= j < k ==> !IsFreeContainer(entries, j, t)
    ensures AllKeysParse(entries) ==> r.Ok?
    ensures r.Ok? ==> (r.value.None? <==> forall j :: 0 <= j < |entries| ==> !IsFreeContainer(entries, j, t))
  {
    var parsed := KeyResults(entries);
    assert forall j :: 0 <= j < |entries| ==> (IsFreeContainer(entries, j, t) <==> FreeContainerAt(parsed, entries, j, t));
    FindFreeFrom(parsed, entries, t, 0)
  }

  /** Free entries are the slots' strings each paired with `null`. */
  lemma FreeEntriesKeys(slots: seq<Timeslot>)
    ensures FreeEntries(slots) == M.PairsWith(SlotStrings(slots), None)
  {
  }

  /** The entries after an `insert` and what it returned or threw. */
  datatype Inserted = Inserted(entries: DayEntries, result: Result<Timeslot>)

  /** `insert(key, task)`: parse the key, find the first free container,
      delete it, and set the merged slot with the task and each leftover
      with `null`. The container is deleted before merging, so when the
      merge throws (a zero-length slot at one of its ends) the container
      is gone. */
  function InsertOutcome(entries: DayEntries, ref: SlotRef, task: Task): (r: Inserted)
    ensures SlotOf(ref).Err? ==> r == Inserted(entries, Err(SlotOf(ref).error))
    ensures r.result.Ok? ==> r.result == SlotOf(ref)
    ensures AllKeysParse(entries) && SlotOf(ref).Ok?
      && (forall j :: 0 <= j < |entries| ==> !IsFreeContainer(entries, j, SlotOf(ref).value))
      ==> r == Inserted(entries, Err(NoContainingFreeTimeslot))
    ensures ReadableDisjoint(entries) && SlotOf(ref).Ok? && WellFormed(SlotOf(ref).value) ==>
      (r.result.Ok? <==>
        exists j :: 0 <= j < |entries| && IsFreeContainer(entries, j, SlotOf(ref).value) && Overlaps(KeySlots(entries)[j], SlotOf(ref).value))
  {
    match SlotOf(ref)
    case Err(e) => Inserted(entries, Err(e))
    case Ok(t) =>
      match FindFree(entries, t)
      case Err(e) => Inserted(entries, Err(e))
      case Ok(None) => Inserted(entries, Err(NoContainingFreeTimeslot))
      case Ok(Some(k)) =>
        var key := entries[k].0;
        FoundContainer(entries, t, k);
        var removed := M.Remove(entries, key);
        match MergeTimeslotIntersection(FromString(key).value, t)
        case Err(e) => Inserted(removed, Err(e))
        case Ok((merged, rest)) => Inserted(M.PutAll(M.Put(removed, ToString(merged), Some(task)), SlotStrings(rest), None), Ok(merged))
  }

  /** The entry the search finds contains the slot; on a tiled day it
      overlaps the slot exactly when some free container does. */
  lemma FoundContainer(entries: DayEntries, t: Timeslot, k: nat)
    requires FindFree(entries, t) == Ok(Some(k))
    ensures k < |entries| && FromString(entries[k].0).Ok? && ContainsSlot(FromString(entries[k].0).value, t)
    ensures ReadableDisjoint(entries) && WellFormed(t) ==>
      (Overlaps(FromString(entries[k].0).value, t) <==>
        exists j :: 0 <= j < |entries| && IsFreeContainer(entries, j, t) && Overlaps(KeySlots(entries)[j], t))
  {
    assert KeyResults(entries)[k] == FromString(entries[k].0);
    if ReadableDisjoint(entries) && WellFormed(t) {
      assert FromString(entries[k].0).value == KeySlots(entries)[k];
      FirstContainerDecides(entries, t, k);
    }
  }

  /** What `insert` does once the search has found entry `k`. */
  lemma InsertFound(entries: DayEntries, ref: SlotRef, task: Task, k: nat)
    requires SlotOf(ref).Ok? && FindFree(entries, SlotOf(ref).value) == Ok(Some(k))
    ensures k < |entries|
    ensures var key := entries[k].0;
      var removed := M.Remove(entries, key);
      var merge := MergeTimeslotIntersection(FromString(key).value, SlotOf(ref).value);
      InsertOutcome(entries, ref, task) ==
        if merge.Err? then Inserted(removed, Err(merge.error))
        else Inserted(M.PutAll(M.Put(removed, ToString(merge.value.0), Some(task)), SlotStrings(merge.value.1), None), Ok(merge.value.0))
  {
  }

  /** The leftovers of merging `t` into container `c`, none when they do
      not overlap. */
  function Leftovers(c: Timeslot, t: Timeslot): seq<Timeslot>
  {
    match MergeTimeslotIntersection(c, t)
    case Ok((_, rest)) => rest
    case Err(_) => []
  }

  /** A slot clear of a container is clear of everything inside it. */
  lemma OutsideContainer(s: Timeslot, c: Timeslot, x: Timeslot)
    requires !Overlaps(s, c) && ContainsSlot(c, x)
    ensures !Overlaps(s, x) && !Overlaps(x, s)
  {
  }

  /** A positive slot inside a container overlaps it. */
  lemma InsideOverlaps(c: Timeslot, x: Timeslot)
    requires ContainsSlot(c, x) && Duration(x) > 0
    ensures Overlaps(c, x) && Overlaps(x, c)
  {
  }

  /** The slots left after the container is removed, the inserted slot and
      the leftovers do not overlap. */
  lemma DisjointAfterInsert(others: seq<Timeslot>, c: Timeslot, t: Timeslot, rest: seq<Timeslot>)
    requires Disjoint(others) && forall i :: 0 <= i < |others| ==> !Overlaps(others[i], c)
    requires ContainsSlot(c, t)
    requires forall i :: 0 <= i < |rest| ==> ContainsSlot(c, rest[i]) && !Overlaps(rest[i], t)
    requires forall i, j :: 0 <= i < j < |rest| ==> !Overlaps(rest[i], rest[j])
    ensures Disjoint(others + [t] + rest)
  {
    var all := others + [t] + rest;
    forall i, j | 0 <= i < j < |all|
      ensures !Overlaps(all[i], all[j])
    {
      if j < |others| {
        assert all[i] == others[i] && all[j] == others[j];
      } else if i < |others| {
        assert all[i] == others[i];
        if j == |others| {
          OutsideContainer(others[i], c, t);
        } else {
          assert all[j] == rest[j - |others| - 1];
          OutsideContainer(others[i], c, rest[j - |others| - 1]);
        }
      } else if i == |others| {
        assert all[j] == rest[j - |others| - 1];
      } else {
        assert all[i] == rest[i - |others| - 1] && all[j] == rest[j - |others| - 1];
      }
    }
  }

  /** Removing the entry at `k` from distinct keys drops exactly it. */
  lemma RemoveAt(entries: DayEntries, k: int)
    requires M.UniqueKeys(entries) && 0 <= k < |entries|
    ensures M.Remove(entries, entries[k].0) == entries[..k] + entries[k + 1..]
  {
    assert M.IndexOf(entries, entries[k].0) == Some(k);
  }

  /** The key slots of two runs of entries, one after the other. */
  lemma KeySlotsConcat(a: DayEntries, b: DayEntries)
    requires AllKeysParse(a) && AllKeysParse(b)
    ensures AllKeysParse(a + b) && KeySlots(a + b) == KeySlots(a) + KeySlots(b)
  {
    assert forall i :: 0 <= i < |a + b| ==> (a + b)[i] == if i < |a| then a[i] else b[i - |a|];
  }

  /** The key slots of a prefix are the prefix of the key slots. */
  lemma PrefixSlots(entries: DayEntries, k: int)
    requires AllKeysParse(entries) && 0 <= k <= |entries|
    ensures AllKeysParse(entries[..k]) && KeySlots(entries[..k]) == KeySlots(entries)[..k]
  {
    var pre := entries[..k];
    forall i | 0 <= i < k
      ensures FromString(pre[i].0) == FromString(entries[i].0)
    {
      assert pre[i] == entries[i];
    }
  }

  /** The key slots of a suffix are the suffix of the key slots. */
  lemma SuffixSlots(entries: DayEntries, k: int)
    requires AllKeysParse(entries) && 0 <= k <= |entries|
    ensures AllKeysParse(entries[k..]) && KeySlots(entries[k..]) == KeySlots(entries)[k..]
  {
    var post := entries[k..];
    forall i | 0 <= i < |post|
      ensures FromString(post[i].0) == FromString(entries[k + i].0)
    {
      assert post[i] == entries[k + i];
    }
  }

  /** The key slots once entry `k` is taken out. */
  lemma RemovedSlots(entries: DayEntries, k: int)
    requires AllKeysParse(entries) && 0 <= k < |entries|
    ensures var removed := entries[..k] + entries[k + 1..];
      AllKeysParse(removed) && KeySlots(removed) == KeySlots(entries)[..k] + KeySlots(entries)[k + 1..]
  {
    PrefixSlots(entries, k);
    SuffixSlots(entries, k + 1);
    KeySlotsConcat(entries[..k], entries[k + 1..]);
  }

  /** Total duration adds up over concatenation. */
  lemma {:induction false} TotalConcat(a: seq<Timeslot>, b: seq<Timeslot>)
    ensures TotalDuration(a + b) == TotalDuration(a) + TotalDuration(b)
    decreases |a|
  {
    if |a| > 0 {
      assert (a + b)[0] == a[0] && (a + b)[1..] == a[1..] + b;
      assert TotalDuration(a) == Duration(a[0]) + TotalDuration(a[1..]);
      assert TotalDuration(a + b) == Duration(a[0]) + TotalDuration(a[1..] + b);
      TotalConcat(a[1..], b);
    } else {
      assert a + b == b;
    }
  }

  /** The other slots of a tiling, with the container at `k` taken out. */
  lemma OthersClear(slots: seq<Timeslot>, k: int)
    requires Disjoint(slots) && 0 <= k < |slots|
    ensures var o := slots[..k] + slots[k + 1..];
      Disjoint(o) && forall i :: 0 <= i < |o| ==> !Overlaps(o[i], slots[k])
  {
    var o := slots[..k] + slots[k + 1..];
    forall i | 0 <= i < |o|
      ensures o[i] == if i < k then slots[i] else slots[i + 1]
    {
    }
  }

  /** No key of the other entries reads as the inserted slot or a leftover,
      and the new keys are distinct. */
  lemma NewKeysFresh(others: DayEntries, c: Timeslot, t: Timeslot, rest: seq<Timeslot>, task: Task)
    requires AllKeysParse(others) && forall i :: 0 <= i < |others| ==> !Overlaps(KeySlots(others)[i], c)
    requires WellFormed(t) && Overlaps(c, t)
    requires forall i :: 0 <= i < |rest| ==>
      Duration(rest[i]) > 0 && WellFormed(rest[i]) && ContainsSlot(c, rest[i]) && !Overlaps(rest[i], t)
    requires forall i, j :: 0 <= i < j < |rest| ==> !Overlaps(rest[i], rest[j])
    ensures forall j :: 0 <= j < |others| ==> others[j].0 != ToString(t)
    ensures var m := others + [(ToString(t), Some(task))];
      forall i, j :: 0 <= i < |rest| && 0 <= j < |m| ==> m[j].0 != ToString(rest[i])
    ensures forall i, j :: 0 <= i < j < |rest| ==> ToString(rest[i]) != ToString(rest[j])
  {
    ClearKey(others, c, t);
    var m := others + [(ToString(t), Some(task))];
    forall i, j | 0 <= i < |rest| && 0 <= j < |m|
      ensures m[j].0 != ToString(rest[i])
    {
      if j < |others| {
        InsideOverlaps(c, rest[i]);
        ClearKey(others, c, rest[i]);
        assert m[j] == others[j];
      } else {
        ClearKeysDiffer(rest[i], t);
      }
    }
    forall i, j | 0 <= i < j < |rest|
      ensures ToString(rest[i]) != ToString(rest[j])
    {
      ClearKeysDiffer(rest[i], rest[j]);
    }
  }

  /** A slot of positive length and a slot clear of it have different
      strings. */
  lemma ClearKeysDiffer(x: Timeslot, y: Timeslot)
    requires Overlaps(x, x) && !Overlaps(x, y)
    ensures ToString(x) != ToString(y)
  {
    if ToString(x) == ToString(y) {
      ToStringInjective(x, y);
    }
  }

  /** A key of the other entries cannot be the string of a slot that
      overlaps the container. */
  lemma ClearKey(others: DayEntries, c: Timeslot, x: Timeslot)
    requires AllKeysParse(others) && forall i :: 0 <= i < |others| ==> !Overlaps(KeySlots(others)[i], c)
    requires WellFormed(x) && Overlaps(c, x)
    ensures forall j :: 0 <= j < |others| ==> others[j].0 != ToString(x)
  {
    StringRoundTrip(x);
    forall j | 0 <= j < |others|
      ensures others[j].0 != ToString(x)
    {
      assert FromString(others[j].0) == Ok(KeySlots(others)[j]);
    }
  }

  /** What merging `t` into its container `c` leaves: `t` itself, inside
      and overlapping `c`, and leftovers of positive length inside `c`,
      clear of `t` and of each other, that make up the rest of `c`. */
  predicate Partition(c: Timeslot, t: Timeslot, rest: seq<Timeslot>)
  {
    && WellFormed(t) && ContainsSlot(c, t) && Overlaps(c, t)
    && Duration(t) + TotalDuration(rest) == Duration(c)
    && (forall i :: 0 <= i < |rest| ==>
          Duration(rest[i]) > 0 && WellFormed(rest[i]) && ContainsSlot(c, rest[i]) && !Overlaps(rest[i], t))
    && (forall i, j :: 0 <= i < j < |rest| ==> !Overlaps(rest[i], rest[j]))
  }

  /** Merging a slot into a container that holds it gives the slot and the container's leftovers around it. */
  lemma MergeIntoContainer(c: Timeslot, t: Timeslot)
    requires WellFormed(c) && WellFormed(t) && ContainsSlot(c, t) && Overlaps(c, t)
    ensures MergeTimeslotIntersection(c, t) == Ok((t, Leftovers(c, t)))
    ensures Partition(c, t, Leftovers(c, t))
  {
    MergePartitionsContainer(c, t);
  }

  /** Setting the slot with its task and then each leftover free appends
      them, since none of their strings is a key already. */
  lemma InsertEntries(others: DayEntries, c: Timeslot, t: Timeslot, rest: seq<Timeslot>, task: Task)
    requires AllKeysParse(others) && forall i :: 0 <= i < |others| ==> !Overlaps(KeySlots(others)[i], c)
    requires Partition(c, t, rest)
    ensures M.PutAll(M.Put(others, ToString(t), Some(task)), SlotStrings(rest), None)
      == others + [(ToString(t), Some(task))] + FreeEntries(rest)
  {
    NewKeysFresh(others, c, t, rest, task);
    M.AbsentKey(others, ToString(t), Some(task));
    var m := others + [(ToString(t), Some(task))];
    M.PutAllAppends(m, SlotStrings(rest), None);
    FreeEntriesKeys(rest);
  }

  /** The other slots, the inserted slot and the leftovers tile what the
      other slots and the container did. */
  lemma InsertTiling(others: DayEntries, c: Timeslot, t: Timeslot, rest: seq<Timeslot>, task: Task)
    requires AllKeysParse(others) && Disjoint(KeySlots(others))
    requires forall i :: 0 <= i < |others| ==> !Overlaps(KeySlots(others)[i], c)
    requires Partition(c, t, rest)
    ensures var after := others + [(ToString(t), Some(task))] + FreeEntries(rest);
      && ReadableDisjoint(after)
      && TotalDuration(KeySlots(after)) == TotalDuration(KeySlots(others)) + Duration(c)
  {
    InsertedSlots(others, t, rest, task);
    DisjointAfterInsert(KeySlots(others), c, t, rest);
    TotalConcat(KeySlots(others) + [t], rest);
    TotalConcat(KeySlots(others), [t]);
  }

  /** The keys after the insertion read as the other slots, the inserted
      slot and the leftovers. */
  lemma InsertedSlots(others: DayEntries, t: Timeslot, rest: seq<Timeslot>, task: Task)
    requires AllKeysParse(others) && WellFormed(t) && AllWellFormed(rest)
    ensures var after := others + [(ToString(t), Some(task))] + FreeEntries(rest);
      AllKeysParse(after) && KeySlots(after) == KeySlots(others) + [t] + rest
  {
    var one := [(ToString(t), Some(task))];
    StringRoundTrip(t);
    assert AllKeysParse(one) && KeySlots(one) == [t];
    KeySlotsConcat(others, one);
    FreeEntriesSlots(rest);
    KeySlotsConcat(others + one, FreeEntries(rest));
  }

  /** Taking out entry `k` takes its slot's minutes out of the total. */
  lemma RemovedTotal(entries: DayEntries, k: int)
    requires AllKeysParse(entries) && 0 <= k < |entries|
    ensures var removed := entries[..k] + entries[k + 1..];
      AllKeysParse(removed)
      && TotalDuration(KeySlots(entries)) == TotalDuration(KeySlots(removed)) + Duration(KeySlots(entries)[k])
  {
    RemovedSlots(entries, k);
    TotalRemoveAt(KeySlots(entries), k);
  }

  /** Taking the slot at `k` out takes its duration out of the total. */
  lemma TotalRemoveAt(slots: seq<Timeslot>, k: int)
    requires 0 <= k < |slots|
    ensures TotalDuration(slots) == TotalDuration(slots[..k] + slots[k + 1..]) + Duration(slots[k])
  {
    SplitAt(slots, k);
    TotalSkip(slots[..k], slots[k], slots[k + 1..]);
  }

  /** A sequence is its part before `k`, its element at `k` and its part after. */
  lemma SplitAt<X>(s: seq<X>, k: int)
    requires 0 <= k < |s|
    ensures s == s[..k] + [s[k]] + s[k + 1..]
  {
  }

  /** Leaving one slot out of the middle takes its duration out of the total. */
  lemma TotalSkip(a: seq<Timeslot>, x: Timeslot, b: seq<Timeslot>)
    ensures TotalDuration(a + [x] + b) == TotalDuration(a + b) + Duration(x)
  {
    TotalConcat(a + [x], b);
    TotalConcat(a, [x]);
    TotalConcat(a, b);
    assert [x][1..] == [];
  }

  /** The tasks of one entry. */
  lemma TasksSingle(e: (string, Option<Task>))
    ensures TasksOf([e]) == if e.1.Some? then [e.1.value] else []
  {
    assert [e][1..] == [];
  }

  /** Taking out a free entry keeps the tasks. */
  lemma RemovedTasks(entries: DayEntries, k: int)
    requires 0 <= k < |entries| && entries[k].1.None?
    ensures TasksOf(entries[..k] + entries[k + 1..]) == TasksOf(entries)
  {
    assert entries == entries[..k] + [entries[k]] + entries[k + 1..];
    SkipFree(entries[..k], entries[k], entries[k + 1..]);
  }

  /** A free entry in the middle contributes no task. */
  lemma SkipFree(a: DayEntries, e: (string, Option<Task>), b: DayEntries)
    requires e.1.None?
    ensures TasksOf(a + [e] + b) == TasksOf(a + b)
  {
    TasksConcat(a + [e], b);
    TasksConcat(a, [e]);
    TasksSingle(e);
    TasksConcat(a, b);
  }

  /** Appending an entry with a task and free entries adds that one task. */
  lemma AppendedTasks(others: DayEntries, key: string, task: Task, rest: seq<Timeslot>)
    ensures TasksOf(others + [(key, Some(task))] + FreeEntries(rest)) == TasksOf(others) + [task]
  {
    var one := [(key, Some(task))];
    TasksConcat(others + one, FreeEntries(rest));
    TasksConcat(others, one);
    TasksSingle((key, Some(task)));
    TasksOfFree(rest);
  }

  /** The entries after inserting `t` into the free container `k` of a
      tiled day with distinct keys. */
  function AfterInsert(entries: DayEntries, k: int, t: Timeslot, task: Task): DayEntries
    requires ReadableDisjoint(entries) && 0 <= k < |entries|
  {
    entries[..k] + entries[k + 1..] + [(ToString(t), Some(task))] + FreeEntries(Leftovers(KeySlots(entries)[k], t))
  }

  /** Those entries are still a tiling, of the same minutes. */
  lemma AfterInsertTiling(entries: DayEntries, k: int, t: Timeslot, task: Task)
    requires ReadableDisjoint(entries) && 0 <= k < |entries|
    requires WellFormed(t) && ContainsSlot(KeySlots(entries)[k], t) && Overlaps(KeySlots(entries)[k], t)
    ensures var after := AfterInsert(entries, k, t, task);
      ReadableDisjoint(after) && TotalDuration(KeySlots(after)) == TotalDuration(KeySlots(entries))
  {
    var c := KeySlots(entries)[k];
    var removed := entries[..k] + entries[k + 1..];
    MergeIntoContainer(c, t);
    RemovedSlots(entries, k);
    OthersClear(KeySlots(entries), k);
    InsertTiling(removed, c, t, Leftovers(c, t), task);
    RemovedTotal(entries, k);
  }

  /** Those entries hold the old tasks and the new one. */
  lemma AfterInsertTasks(entries: DayEntries, k: int, t: Timeslot, task: Task)
    requires ReadableDisjoint(entries) && 0 <= k < |entries| && entries[k].1.None?
    ensures TasksOf(AfterInsert(entries, k, t, task)) == TasksOf(entries) + [task]
  {
    RemovedTasks(entries, k);
    AppendedTasks(entries[..k] + entries[k + 1..], ToString(t), task, Leftovers(KeySlots(entries)[k], t));
  }

  /** How `insert` reaches those entries: the found container is removed
      and the slot and leftovers are set, which appends them. */
  lemma InsertReaches(entries: DayEntries, k: int, t: Timeslot, task: Task)
    requires M.UniqueKeys(entries) && ReadableDisjoint(entries) && 0 <= k < |entries|
    requires WellFormed(t) && ContainsSlot(KeySlots(entries)[k], t) && Overlaps(KeySlots(entries)[k], t)
    ensures var c := KeySlots(entries)[k];
      && MergeTimeslotIntersection(c, t) == Ok((t, Leftovers(c, t)))
      && M.PutAll(M.Put(M.Remove(entries, entries[k].0), ToString(t), Some(task)), SlotStrings(Leftovers(c, t)), None)
         == AfterInsert(entries, k, t, task)
      && M.UniqueKeys(AfterInsert(entries, k, t, task))
  {
    var c := KeySlots(entries)[k];
    MergeIntoContainer(c, t);
    var rest := Leftovers(c, t);
    RemoveAt(entries, k);
    var removed := entries[..k] + entries[k + 1..];
    RemovedSlots(entries, k);
    OthersClear(KeySlots(entries), k);
    InsertEntries(removed, c, t, rest, task);
    M.RemoveSpec(entries, entries[k].0);
    M.PutSpec(removed, ToString(t), Some(task));
    M.PutAllUnique(M.Put(removed, ToString(t), Some(task)), SlotStrings(rest), None);
  }

  /** `insert` into a tiled day, when it succeeds: it returns the slot it
      was given; the first free container gives way to that slot, holding
      the task, followed by the free leftovers; the day stays tiled with
      distinct keys, covers the same minutes, and holds the old tasks and
      the new one. */
  lemma InsertKeepsTiling(entries: DayEntries, ref: SlotRef, task: Task)
    requires M.UniqueKeys(entries) && ReadableDisjoint(entries)
    requires SlotOf(ref).Ok? && WellFormed(SlotOf(ref).value)
    requires InsertOutcome(entries, ref, task).result.Ok?
    ensures var t := SlotOf(ref).value;
      var o := InsertOutcome(entries, ref, task);
      && o.result == Ok(t)
      && M.UniqueKeys(o.entries) && ReadableDisjoint(o.entries)
      && TotalDuration(KeySlots(o.entries)) == TotalDuration(KeySlots(entries))
      && TasksOf(o.entries) == TasksOf(entries) + [task]
      && exists k :: 0 <= k < |entries| && IsFreeContainer(entries, k, t) && o.entries == AfterInsert(entries, k, t, task)
  {
    var t := SlotOf(ref).value;
    var k := FindFree(entries, t).value.value;
    assert FromString(entries[k].0) == Ok(KeySlots(entries)[k]);
    InsertReaches(entries, k, t, task);
    AfterInsertTiling(entries, k, t, task);
    AfterInsertTasks(entries, k, t, task);
  }

  /** Two containers of a slot that overlaps one of them overlap each
      other. */
  lemma SharedInside(a: Timeslot, b: Timeslot, t: Timeslot)
    requires WellFormed(t) && ContainsSlot(a, t) && ContainsSlot(b, t) && Overlaps(b, t)
    ensures Overlaps(a, b) && Overlaps(b, a)
  {
  }

  /** On a tiled day, the first free container of a slot overlaps it
      exactly when some free container does. */
  lemma FirstContainerDecides(entries: DayEntries, t: Timeslot, k: int)
    requires ReadableDisjoint(entries) && WellFormed(t)
    requires 0 <= k < |entries| && IsFreeContainer(entries, k, t)
    requires forall j :: 0 <= j < k ==> !IsFreeContainer(entries, j, t)
    ensures Overlaps(KeySlots(entries)[k], t) <==>
      exists j :: 0 <= j < |entries| && IsFreeContainer(entries, j, t) && Overlaps(KeySlots(entries)[j], t)
  {
    var slots := KeySlots(entries);
    if Overlaps(slots[k], t) {
      assert IsFreeContainer(entries, k, t) && Overlaps(slots[k], t);
    }
    if exists j :: 0 <= j < |entries| && IsFreeContainer(entries, j, t) && Overlaps(slots[j], t) {
      var j :| 0 <= j < |entries| && IsFreeContainer(entries, j, t) && Overlaps(slots[j], t);
      ContainerSlot(entries, j, t);
      ContainerSlot(entries, k, t);
      SharedInside(slots[k], slots[j], t);
      DisjointAt(slots, k, j);
    }
  }

  /** A free container's slot contains the slot looked for. */
  lemma ContainerSlot(entries: DayEntries, j: int, t: Timeslot)
    requires AllKeysParse(entries) && 0 <= j < |entries| && IsFreeContainer(entries, j, t)
    ensures ContainsSlot(KeySlots(entries)[j], t)
  {
    assert KeyResults(entries)[j] == FromString(entries[j].0);
  }

  /** Two overlapping slots of a disjoint sequence are one. */
  lemma DisjointAt(slots: seq<Timeslot>, k: int, j: int)
    requires Disjoint(slots) && 0 <= k <= j < |slots| && Overlaps(slots[k], slots[j])
    ensures k == j
  {
  }

  /** `insert` returns when the search finds a container and the merge
      with it succeeds. */
  lemma InsertResult(entries: DayEntries, ref: SlotRef, task: Task)
    requires SlotOf(ref).Ok?
    ensures var t := SlotOf(ref).value;
      var f := FindFree(entries, t);
      InsertOutcome(entries, ref, task).result.Ok? <==>
        f.Ok? && f.value.Some? && Overlaps(FromString(entries[f.value.value].0).value, t)
  {
  }

  /** A positive-length slot inside a free entry can always be inserted. */
  lemma InsertPositiveSucceeds(entries: DayEntries, ref: SlotRef, task: Task, j: int)
    requires ReadableDisjoint(entries) && SlotOf(ref).Ok? && Duration(SlotOf(ref).value) > 0
    requires 0 <= j < |entries| && IsFreeContainer(entries, j, SlotOf(ref).value)
    ensures InsertOutcome(entries, ref, task).result.Ok?
  {
    var t := SlotOf(ref).value;
    InsideOverlaps(KeySlots(entries)[j], t);
  }

  /** When the first free container does not overlap the slot, which for a
      well-formed slot means a zero-length one at an end of the container,
      `insert` deletes the container before the merge throws: the day loses
      that entry. */
  lemma InsertLosesContainer(entries: DayEntries, ref: SlotRef, task: Task, k: int)
    requires M.UniqueKeys(entries) && ReadableDisjoint(entries) && SlotOf(ref).Ok? && WellFormed(SlotOf(ref).value)
    requires 0 <= k < |entries| && IsFreeContainer(entries, k, SlotOf(ref).value)
    requires forall j :: 0 <= j < k ==> !IsFreeContainer(entries, j, SlotOf(ref).value)
    requires !Overlaps(KeySlots(entries)[k], SlotOf(ref).value)
    ensures InsertOutcome(entries, ref, task) == Inserted(entries[..k] + entries[k + 1..], Err(TimeslotsDoNotOverlap))
    ensures Duration(SlotOf(ref).value) == 0 && |InsertOutcome(entries, ref, task).entries| == |entries| - 1
  {
    var t := SlotOf(ref).value;
    assert FromString(entries[k].0).value == KeySlots(entries)[k];
    RemoveAt(entries, k);
  }

  /** A day whose one entry is 08:00-09:00, free: inserting the instant
      09:00, at the container's end, deletes the entry and throws, while
      the instant 08:30 inside it is inserted. */
  lemma ZeroLengthInsertExample(task: Task)
    ensures var entries := [(ToString(Timeslot(T.Time(480), T.Time(540))), None)];
      && InsertOutcome(entries, BySlot(Timeslot(T.Time(540), T.Time(540))), task) == Inserted([], Err(TimeslotsDoNotOverlap))
      && InsertOutcome(entries, BySlot(Timeslot(T.Time(510), T.Time(510))), task).result == Ok(Timeslot(T.Time(510), T.Time(510)))
  {
    var c := Timeslot(T.Time(480), T.Time(540));
    var entries: DayEntries := [(ToString(c), None)];
    StringRoundTrip(c);
    assert KeySlots(entries) == [c];
    assert IsFreeContainer(entries, 0, Timeslot(T.Time(540), T.Time(540)));
    InsertLosesContainer(entries, BySlot(Timeslot(T.Time(540), T.Time(540))), task, 0);
    var inner := Timeslot(T.Time(510), T.Time(510));
    assert IsFreeContainer(entries, 0, inner) && Overlaps(c, inner);
    InsertKeepsTiling(entries, BySlot(inner), task);
  }

  // ---------------------------------------------------------------------
  // empty

  /** The keys of a day whose keys all read as slots parse to its slots,
      which are well-formed. */
  lemma ParseKeys(entries: DayEntries)
    requires AllKeysParse(entries)
    ensures ParseSegments(M.Keys(entries)) == Ok(KeySlots(entries)) && AllWellFormed(KeySlots(entries))
  {
    var keys, slots := M.Keys(entries), KeySlots(entries);
    assert forall i :: 0 <= i < |keys| ==> FromString(keys[i]) == Ok(slots[i]);
    assert ParseSegments(keys).value == slots;
  }

  /** Sorting keeps every slot well-formed. */
  lemma SortKeepsWellFormed(s: seq<Timeslot>)
    requires AllWellFormed(s)
    ensures AllWellFormed(Sort(s))
  {
    var r := Sort(s);
    forall i | 0 <= i < |r|
      ensures WellFormed(r[i])
    {
      assert r[i] in multiset(r);
      assert r[i] in multiset(s);
      var k :| 0 <= k < |s| && s[k] == r[i];
    }
  }

  /** `empty(extendToLimit)`: the keys sorted by their slots, the gap from
      each slot to the next (a gap that does not read as a slot throws),
      and with `extendToLimit` the stretches to the stored limits. With two
      or more keys the sort reads every key, so one that does not read as
      a slot throws; a single key is read only for the limits. */
  function DayEmpty(entries: DayEntries, extendToLimit: bool, options: Option<SeriesOptions>): (r: Result<seq<Timeslot>>)
    ensures !extendToLimit ==> (r.Ok? <==> |entries| <= 1 || ReadableDisjoint(entries))
    ensures !extendToLimit && |entries| == 1 && FromString(entries[0].0).Err? ==> r == Ok([])
    ensures AllKeysParse(entries) && !Disjoint(KeySlots(entries)) ==> r == Err(InvalidTimeslotRange)
  {
    var keys := M.Keys(entries);
    assert AllKeysParse(entries)
      ==> (ParseSegments(keys) == Ok(KeySlots(entries))
           && (Consecutive(Sort(KeySlots(entries))) <==> Disjoint(KeySlots(entries)))) by {
      if AllKeysParse(entries) {
        var slots := KeySlots(entries);
        var sorted := Sort(slots);
        ParseKeys(entries);
        SortKeepsWellFormed(slots);
        if Disjoint(slots) {
          DisjointPermutation(slots, sorted);
        }
        if Disjoint(sorted) {
          DisjointPermutation(sorted, slots);
        }
        SortedConsecutiveIffDisjoint(sorted);
      }
    }
    if |keys| == 1 && FromString(keys[0]).Err? then
      if !extendToLimit then Ok([])
      else if options.None? then Err(RuntimeTypeError)
      else Err(FromString(keys[0]).error)
    else
      var slots :- ParseSegments(keys);
      var sorted := Sort(slots);
      if !Consecutive(sorted) then Err(InvalidTimeslotRange)
      else if extendToLimit then ExtendToLimits(Gaps(sorted), sorted, options)
      else Ok(Gaps(sorted))
  }

  /** On a tiled day, `empty()` lists the gaps between the sorted slots,
      which together with the slots cover the span from the first start
      to the last end; `empty(true)` adds the stretches to the limits. */
  lemma DayEmptyTiled(entries: DayEntries, options: Option<SeriesOptions>)
    requires ReadableDisjoint(entries)
    ensures var sorted := Sort(KeySlots(entries));
      && DayEmpty(entries, false, options) == Ok(Gaps(sorted))
      && DayEmpty(entries, true, options) == ExtendToLimits(Gaps(sorted), sorted, options)
      && (|entries| > 0 ==>
            TotalDuration(sorted) + TotalDuration(Gaps(sorted))
              == sorted[|sorted| - 1].end.globalMinutes - sorted[0].start.globalMinutes)
  {
    var slots := KeySlots(entries);
    var sorted := Sort(slots);
    ParseKeys(entries);
    SortKeepsWellFormed(slots);
    DisjointPermutation(slots, sorted);
    SortedConsecutiveIffDisjoint(sorted);
    assert |sorted| == |multiset(slots)| == |entries|;
    if |entries| > 0 {
      GapsTile(sorted);
    }
  }

  // ---------------------------------------------------------------------
  // toJSON and the record constructor

  /** `toJSON()`: the day and each key read back as a slot, in insertion
      order; a key that does not read as a slot throws. */
  function DayJSON(day: Option<DayType>, entries: DayEntries): (r: Result<DaySerializable>)
    ensures r.Ok? <==> AllKeysParse(entries)
    ensures r.Ok? ==> r.value.dayOfWeek == day && |r.value.timeslots| == |entries|
  {
    var slots :- ParseSegments(M.Keys(entries));
    Ok(DaySerializable(day, seq(|slots|, i requires 0 <= i < |slots| => ToJSON(slots[i]))))
  }

  /** The entries `new Day({ dayOfWeek, timeslots })` starts with: each
      record through the record constructor, keyed by its string, free,
      through the `Map` constructor. */
  function FromRecords(records: seq<TimeslotSerializable>): (r: Result<DayEntries>)
    ensures r.Ok? <==> forall i :: 0 <= i < |records| ==> FromSerializable(records[i]).Ok?
    ensures r.Ok? ==> M.UniqueKeys(r.value) && TasksOf(r.value) == []
  {
    var pairs :- RecordPairs(records);
    FreeAfterMap(pairs);
    Ok(M.FromPairs(pairs))
  }

  /** Pairs whose values are all `null` stay so through the `Map`
      constructor. */
  lemma {:induction false} FreeAfterMap(pairs: DayEntries)
    requires forall i :: 0 <= i < |pairs| ==> pairs[i].1.None?
    ensures forall i :: 0 <= i < |M.FromPairs(pairs)| ==> M.FromPairs(pairs)[i].1.None?
    ensures TasksOf(M.FromPairs(pairs)) == []
    decreases |pairs|
  {
    if |pairs| > 0 {
      var prefix := pairs[..|pairs| - 1];
      FreeAfterMap(prefix);
      var m := M.FromPairs(prefix);
      var last := pairs[|pairs| - 1];
      assert M.FromPairs(pairs) == M.Put(m, last.0, last.1);
    }
    NoTasks(M.FromPairs(pairs));
  }

  /** Entries that are all free hold no task. */
  lemma {:induction false} NoTasks(entries: DayEntries)
    requires forall i :: 0 <= i < |entries| ==> entries[i].1.None?
    ensures TasksOf(entries) == []
  {
    if |entries| > 0 {
      NoTasks(entries[1..]);
    }
  }

  /** Every key the string of the slot it reads as, as `insert` and the
      string and record constructors write them. */
  predicate CanonicalKeys(entries: DayEntries)
  {
    AllKeysParse(entries) && forall i :: 0 <= i < |entries| ==> entries[i].0 == ToString(KeySlots(entries)[i])
  }

  /** `new Day(day.toJSON())` keeps the keys of a day with distinct,
      canonical keys in their order, and frees them all: the tasks are not
      serialized. */
  lemma DayJsonRoundTrip(day: Option<DayType>, entries: DayEntries)
    requires M.UniqueKeys(entries) && CanonicalKeys(entries)
    ensures DayJSON(day, entries).Ok?
    ensures FromRecords(DayJSON(day, entries).value.timeslots) == Ok(M.PairsWith(M.Keys(entries), None))
  {
    var slots := KeySlots(entries);
    DayJsonRecords(day, entries);
    RecordPairsOf(DayJSON(day, entries).value.timeslots, slots);
    CanonicalFree(entries);
    M.FromPairsUnique(FreeEntries(slots));
  }

  /** The records of `toJSON()` read back as the slots of the keys. */
  lemma DayJsonRecords(day: Option<DayType>, entries: DayEntries)
    requires AllKeysParse(entries)
    ensures DayJSON(day, entries).Ok?
    ensures var records := DayJSON(day, entries).value.timeslots;
      |records| == |KeySlots(entries)| &&
      forall i :: 0 <= i < |records| ==> FromSerializable(records[i]) == Ok(KeySlots(entries)[i])
  {
    var slots := KeySlots(entries);
    ParseKeys(entries);
    var records := DayJSON(day, entries).value.timeslots;
    forall i | 0 <= i < |records|
      ensures FromSerializable(records[i]) == Ok(slots[i])
    {
      assert records[i] == ToJSON(slots[i]);
      JsonRoundTrip(slots[i]);
    }
  }

  /** Canonical keys with no task are the free entries of their slots. */
  lemma CanonicalFree(entries: DayEntries)
    requires CanonicalKeys(entries)
    ensures FreeEntries(KeySlots(entries)) == M.PairsWith(M.Keys(entries), None)
  {
  }

  /** `Day.fromTimeslotSerie(serie, day)`: the series' `toJSON()` records
      through the record constructor, which for a series with canonical
      keys gives its sorted slots as a tiled day of free entries. */
  lemma FromSerieTiled(entries: Entries)
    requires Serie.Invariant(entries) && Canonical(entries) && AllWellFormed(M.Values(entries))
    ensures var sorted := SeriesCore.ToArray(entries);
      && FromRecords(SeriesJSON(entries)) == Ok(FreeEntries(sorted))
      && ReadableDisjoint(FreeEntries(sorted)) && KeySlots(FreeEntries(sorted)) == sorted
  {
    var sorted := SeriesCore.ToArray(entries);
    RecordPairsOfSeries(entries);
    Serie.SortedKeysDistinct(entries);
    FreeEntriesMap(sorted);
    SeriesCore.SortedWellFormed(entries);
    FreeEntriesSlots(sorted);
    DisjointPermutation(M.Values(entries), sorted);
  }

  /** `new Day({ dayOfWeek, timeslots })` on the records of well-formed,
      pairwise non-overlapping slots with distinct strings: the slots, in
      the records' order, free, none overlapping another. */
  lemma RecordsTiled(slots: seq<Timeslot>)
    requires AllWellFormed(slots) && Disjoint(slots) && M.UniqueKeys(CanonicalEntries(slots))
    ensures FromRecords(SlotJSON(slots)) == Ok(FreeEntries(slots))
    ensures ReadableDisjoint(FreeEntries(slots)) && KeySlots(FreeEntries(slots)) == slots
  {
    var records := SlotJSON(slots);
    forall i | 0 <= i < |records|
      ensures FromSerializable(records[i]) == Ok(slots[i])
    {
      JsonRoundTrip(slots[i]);
    }
    RecordPairsOf(records, slots);
    FreeEntriesMap(slots);
    FreeEntriesSlots(slots);
  }

  /** What `Day.fromString` holds: the slots of its series part as that
      series stores them (sorted, each once), every one free, no two
      overlapping. */
  lemma FromStringDay(value: string)
    requires FromStringParts(value).Ok?
    ensures var parts := Strings.Split(value, DAY_TIME_SEPARATOR);
      |parts| >= 2 && Serie.FromStringEntries(parts[1]).Ok?
    ensures var parts := Strings.Split(value, DAY_TIME_SEPARATOR);
      var slots := M.Values(Serie.FromStringEntries(parts[1]).value);
      var entries := FromStringParts(value).value.1;
      && entries == FreeEntries(slots)
      && TasksOf(entries) == []
      && ReadableDisjoint(entries) && KeySlots(entries) == slots
  {
    var parts := Strings.Split(value, DAY_TIME_SEPARATOR);
    var e := Serie.FromStringEntries(parts[1]).value;
    Serie.FromStringSlots(parts[1]);
    FromSerieTiled(e);
    SortSorted(M.Values(e));
    assert FromStringParts(value).value.1 == FromRecords(SeriesJSON(e)).value;
  }

  // ---------------------------------------------------------------------
  // The constructor

  /** What `new Day(value, options)` is given: `null`, an object with
      `dayOfWeek` and `timeslots` as own properties or without one of them
      (`None`), a number, or a label. A `Day` goes through
      `Day.Copy`. */
  datatype DayValue =
    | NullValue
    | Parsable(dayOfWeek: Option<Option<DayType>>, timeslots: Option<seq<TimeslotSerializable>>)
    | IndexValue(n: int)
    | LabelValue(d: DayType)

  /** What a `Day` holds: its entries, its day of the week and its options. */
  datatype DayState = DayState(entries: DayEntries, dayOfWeek: Option<DayType>, options: Option<SeriesOptions>)

  /** The values no earlier branch of the constructor takes: a label, a
      number naming no day, an object lacking one of the two properties. */
  predicate FallsThrough(value: DayValue)
  {
    match value
    case NullValue => false
    case Parsable(day, records) => day.None? || records.None?
    case IndexValue(n) => !(0 <= n < 7)
    case LabelValue(_) => true
  }

  /** The branches of the constructor, in order. `null` gives an empty
      Monday and an object with both properties its records' slots and its
      day; a number naming a day gives that day. Anything else, a label
      included, falls through to the last branch, which sets no day and
      stores the options or, without them, the defaults; it is the only
      branch that stores options. */
  function InitialState(value: DayValue, options: Option<SeriesOptions>): (r: Result<DayState>)
    ensures r.Err? <==> value.Parsable? && value.dayOfWeek.Some? && value.timeslots.Some? && FromRecords(value.timeslots.value).Err?
    ensures r.Ok? ==> M.UniqueKeys(r.value.entries) && TasksOf(r.value.entries) == []
    ensures r.Ok? ==> (r.value.options.Some? <==> FallsThrough(value))
    ensures FallsThrough(value) ==> r == Ok(DayState([], None, Some(OrDefault(options, DEFAULT_OPTIONS))))
    ensures value.IndexValue? && 0 <= value.n < 7 ==> r == Ok(DayState([], Some(DAY_LABELS[value.n]), None))
  {
    match value
    case NullValue => Ok(DayState([], Some(Monday), None))
    case Parsable(Some(day), Some(records)) =>
      var entries :- FromRecords(records);
      Ok(DayState(entries, day, None))
    case IndexValue(n) =>
      if 0 <= n < 7 then Ok(DayState([], LabelAt(n), None))
      else Ok(DayState([], None, Some(OrDefault(options, DEFAULT_OPTIONS))))
    case _ => Ok(DayState([], None, Some(OrDefault(options, DEFAULT_OPTIONS))))
  }

  // ---------------------------------------------------------------------
  // equals, compareTo, delete

  /** The text before a `;` that neither prefix holds is fixed, and so is
      the text after it. */
  lemma SeparatorSplitsUniquely(p: string, q: string, x: string, y: string)
    requires DAY_TIME_SEPARATOR !in p && DAY_TIME_SEPARATOR !in q
    requires p + [DAY_TIME_SEPARATOR] + x == q + [DAY_TIME_SEPARATOR] + y
    ensures p == q && x == y
  {
    var s := p + [DAY_TIME_SEPARATOR] + x;
    assert forall i :: 0 <= i < |p| ==> s[i] == p[i];
    assert forall i :: 0 <= i < |q| ==> s[i] == q[i];
    assert s[|p|] == DAY_TIME_SEPARATOR && s[|q|] == DAY_TIME_SEPARATOR;
    assert |p| == |q|;
    assert p == s[..|p|] && q == s[..|q|];
    assert x == s[|p| + 1..] && y == s[|q| + 1..];
  }

  /** A day's prefix holds no `;`, and different days have different
      prefixes. */
  lemma PrefixTextDistinct(a: Option<DayType>, b: Option<DayType>)
    ensures DAY_TIME_SEPARATOR !in PrefixText(DayRefOf(a))
    ensures PrefixText(DayRefOf(a)) == PrefixText(DayRefOf(b)) ==> a == b
  {
    assert DAY_TIME_SEPARATOR !in "undefined";
    if a.Some? {
      LabelPrefix(a.value);
    }
    if b.Some? {
      LabelPrefix(b.value);
    }
    if a.Some? && b.Some? && PrefixText(DayRefOf(a)) == PrefixText(DayRefOf(b)) {
      assert Strings.DigitValue(PrefixText(DayRefOf(a))[0]) == LabelIndex(a);
      LabelIndexInjective(a, b);
    }
  }

  /** Two days print the same exactly when they have the same day and
      their keys join to the same text: tasks and options play no part. */
  lemma DayStringEquality(a: Option<DayType>, ea: DayEntries, b: Option<DayType>, eb: DayEntries)
    ensures DayString(a, ea) == DayString(b, eb) <==>
      a == b && Strings.Join(M.Keys(ea), [TIMESLOT_SERIES_SEPARATOR]) == Strings.Join(M.Keys(eb), [TIMESLOT_SERIES_SEPARATOR])
  {
    PrefixTextDistinct(a, b);
    PrefixTextDistinct(b, a);
    if DayString(a, ea) == DayString(b, eb) {
      SeparatorSplitsUniquely(PrefixText(DayRefOf(a)), PrefixText(DayRefOf(b)),
        Strings.Join(M.Keys(ea), [TIMESLOT_SERIES_SEPARATOR]), Strings.Join(M.Keys(eb), [TIMESLOT_SERIES_SEPARATOR]));
    }
  }

  /** The key `delete` looks up: a string is itself, while a slot is
      replaced by `Timeslot.toString()`, the class text. */
  function DeleteKey(ref: SlotRef): (k: string)
    ensures ref.ByString? ==> k == ref.text
    ensures ref.BySlot? ==> FromString(k).Err?
  {
    match ref
    case ByString(text) => text
    case BySlot(_) => ClassTextIsNoSlot(); TIMESLOT_CLASS_TEXT
  }

  /** So `delete(slot)` removes nothing from a day whose keys all read as
      slots, whatever the slot. */
  lemma DeleteSlotRemovesNothing(entries: DayEntries, s: Timeslot)
    requires AllKeysParse(entries)
    ensures !M.Has(entries, DeleteKey(BySlot(s))) && M.Remove(entries, DeleteKey(BySlot(s))) == entries
  {
    assert forall j :: 0 <= j < |entries| ==> entries[j].0 != TIMESLOT_CLASS_TEXT;
  }

  // ---------------------------------------------------------------------
  // The class

  class Day {
    var entries: DayEntries
    var dayOfWeek: Option<DayType>
    /** `_options`: set only by the last branch of the constructor. */
    var options: Option<SeriesOptions>

    ghost predicate Valid()
      reads this
    {
      M.UniqueKeys(entries)
    }

    /** The day's fields as one value. */
    function State(): DayState
      reads this
    {
      DayState(entries, dayOfWeek, options)
    }

    /** A day holding the given state. */
    constructor FromState(s: DayState)
      ensures State() == s
    {
      entries, dayOfWeek, options := s.entries, s.dayOfWeek, s.options;
    }

    /** `new Day(value, options)`. */
    static method Create(value: DayValue, options: Option<SeriesOptions>) returns (r: Result<Day>)
      ensures r.Ok? <==> InitialState(value, options).Ok?
      ensures r.Ok? ==> fresh(r.value) && r.value.State() == InitialState(value, options).value && r.value.Valid()
    {
      var s :- InitialState(value, options);
      var day := new Day.FromState(s);
      return Ok(day);
    }

    /** `new Day(day)`: the entries go through the `Map` constructor and the
      day is kept, but not the options. */
    constructor Copy(other: Day)
      ensures entries == M.FromPairs(other.entries) && dayOfWeek == other.dayOfWeek && options == None
      ensures other.Valid() ==> entries == other.entries
      ensures Valid()
    {
      if M.UniqueKeys(other.entries) {
        M.FromPairsUnique(other.entries);
      }
      entries := M.FromPairs(other.entries);
      dayOfWeek := other.dayOfWeek;
      options := None;
    }

    /** `Day.fromString(value)`. */
    static method FromString(value: string) returns (r: Result<Day>)
      ensures r.Ok? <==> FromStringParts(value).Ok?
      ensures r.Ok? ==> var (day, parsed) := FromStringParts(value).value;
        fresh(r.value) && r.value.State() == DayState(parsed, day, None) && r.value.Valid()
      ensures r.Ok? ==> TasksOf(r.value.entries) == [] && ReadableDisjoint(r.value.entries)
    {
      var parts :- FromStringParts(value);
      FromStringDay(value);
      var day := new Day.FromState(DayState(parts.1, parts.0, None));
      return Ok(day);
    }

    /** `Day.fromTimeslotSerie(serie, day)`: the series' records through the
      record constructor, which cannot fail on them. */
    static method FromTimeslotSerie(serie: Serie.TimeslotSerie, d: DayType) returns (day: Day)
      ensures fresh(day) && day.dayOfWeek == Some(d) && day.options == None && day.Valid()
      ensures FromRecords(SeriesJSON(serie.entries)) == Ok(day.entries)
      ensures Serie.Invariant(serie.entries) && Canonical(serie.entries) && AllWellFormed(M.Values(serie.entries)) ==>
        day.entries == FreeEntries(SeriesCore.ToArray(serie.entries)) && ReadableDisjoint(day.entries)
    {
      var records := serie.ToJSON();
      RecordPairsOfSeries(serie.entries);
      if Serie.Invariant(serie.entries) && Canonical(serie.entries) && AllWellFormed(M.Values(serie.entries)) {
        FromSerieTiled(serie.entries);
      }
      var parsed := FromRecords(records);
      day := new Day.FromState(DayState(parsed.value, Some(d), None));
    }

    /** `set(key, task)`: a plain store under the key string, with no check;
      `insert` also stores `null` through it. */
    method Set(ref: SlotRef, value: Option<Task>)
      modifies this
      ensures entries == M.Put(old(entries), KeyOf(ref), value)
      ensures dayOfWeek == old(dayOfWeek) && options == old(options)
      ensures old(Valid()) ==> Valid()
    {
      var key := KeyOf(ref);
      M.PutKeepsUnique(entries, key, value);
      entries := M.Put(entries, key, value);
    }

    /** `delete(key)`: removes the entry under `DeleteKey(key)` and says
      whether there was one. */
    method Delete(ref: SlotRef) returns (removed: bool)
      modifies this
      ensures removed == M.Has(old(entries), DeleteKey(ref))
      ensures entries == M.Remove(old(entries), DeleteKey(ref))
      ensures dayOfWeek == old(dayOfWeek) && options == old(options)
      ensures old(Valid()) ==> Valid()
    {
      removed := M.Has(entries, DeleteKey(ref));
      if M.UniqueKeys(entries) {
        M.RemoveSpec(entries, DeleteKey(ref));
      }
      entries := M.Remove(entries, DeleteKey(ref));
    }

    /** `insert(key, task)`. The key found comes from the day's own keys,
      so deleting it always succeeds. */
    method Insert(ref: SlotRef, task: Task) returns (r: Result<Timeslot>)
      modifies this
      ensures Inserted(entries, r) == InsertOutcome(old(entries), ref, task)
      ensures dayOfWeek == old(dayOfWeek) && options == old(options)
      ensures old(Valid()) ==> Valid()
    {
      var slot := SlotOf(ref);
      if slot.Err? {
        return Err(slot.error);
      }
      var t := slot.value;
      var found := FindFree(entries, t);
      if found.Err? {
        return Err(found.error);
      }
      if found.value.None? {
        return Err(NoContainingFreeTimeslot);
      }
      var key := entries[found.value.value].0;
      InsertFound(entries, ref, task, found.value.value);
      r := ReplaceContainer(key, Timeslots.FromString(key).value, t, task);
    }

    /** The part of `insert` after the search: delete the container's key,
      merge, and store the slot with the task and each leftover free. */
    method ReplaceContainer(key: string, container: Timeslot, t: Timeslot, task: Task) returns (r: Result<Timeslot>)
      modifies this
      ensures var removed := M.Remove(old(entries), key);
        var merge := MergeTimeslotIntersection(container, t);
        Inserted(entries, r) ==
          if merge.Err? then Inserted(removed, Err(merge.error))
          else Inserted(M.PutAll(M.Put(removed, Timeslots.ToString(merge.value.0), Some(task)), SlotStrings(merge.value.1), None), Ok(merge.value.0))
      ensures dayOfWeek == old(dayOfWeek) && options == old(options)
      ensures old(Valid()) ==> Valid()
    {
      var _ := Delete(ByString(key));
      var merge := MergeTimeslotIntersection(container, t);
      if merge.Err? {
        return Err(merge.error);
      }
      var (merged, rest) := merge.value;
      Set(BySlot(merged), Some(task));
      SetFree(rest);
      return Ok(merged);
    }

    /** The loop of `insert` that stores each leftover with `null`. */
    method SetFree(rest: seq<Timeslot>)
      modifies this
      ensures entries == M.PutAll(old(entries), SlotStrings(rest), None)
      ensures dayOfWeek == old(dayOfWeek) && options == old(options)
      ensures old(Valid()) ==> Valid()
    {
      ghost var keys := SlotStrings(rest);
      ghost var target := M.PutAll(entries, keys, None);
      assert keys[0..] == keys;
      for i := 0 to |rest|
        invariant M.PutAll(entries, keys[i..], None) == target
        invariant dayOfWeek == old(dayOfWeek) && options == old(options)
        invariant old(Valid()) ==> Valid()
      {
        M.PutAllStep(entries, keys, i, None);
        Set(BySlot(rest[i]), None);
      }
    }

    /** `empty(extendToLimit)`. */
    method Empty(extendToLimit: bool) returns (r: Result<seq<Timeslot>>)
      ensures r == DayEmpty(entries, extendToLimit, options)
    {
      var keys := M.Keys(entries);
      if |keys| == 1 && Timeslots.FromString(keys[0]).Err? {
        if !extendToLimit {
          return Ok([]);
        }
        if options.None? {
          return Err(RuntimeTypeError);
        }
        return Err(Timeslots.FromString(keys[0]).error);
      }
      var slots :- ParseSegments(keys);
      var sorted := Sort(slots);
      var gaps :- EmptyGaps(sorted);
      if extendToLimit {
        r := ExtendToLimits(gaps, sorted, options);
      } else {
        r := Ok(gaps);
      }
    }

    /** `tasks`: the tasks held, in insertion order. */
    function Tasks(): (r: seq<Task>)
      reads this
      ensures forall x :: x in r <==> exists i :: 0 <= i < |entries| && entries[i].1 == Some(x)
    {
      TasksAreValues(entries);
      TasksOf(entries)
    }

    /** `toJSON()`. */
    function ToJSON(): (r: Result<DaySerializable>)
      reads this
      ensures r.Ok? <==> AllKeysParse(entries)
    {
      DayJSON(dayOfWeek, entries)
    }

    /** `toString({ includeDay })`: the day prefix is there either way. */
    function ToString(includeDay: bool): (s: string)
      reads this
      ensures s == DayString(dayOfWeek, entries)
    {
      DayString(dayOfWeek, entries)
    }

    /** `compareTo(that)`: how far apart the two days are in the week, an
      unset day counting as the one before Monday. */
    function CompareTo(that: Day): (c: int)
      reads this, that
      ensures -7 <= c <= 7
      ensures c == 0 <==> dayOfWeek == that.dayOfWeek
      ensures c == LabelIndex(dayOfWeek) - LabelIndex(that.dayOfWeek)
    {
      LabelIndexInjective(dayOfWeek, that.dayOfWeek);
      LabelIndex(dayOfWeek) - LabelIndex(that.dayOfWeek)
    }

    /** `isAfter(that)`: later in the week; an unset day is after none. */
    function IsAfter(that: Day): (b: bool)
      reads this, that
      ensures b <==> LabelIndex(dayOfWeek) > LabelIndex(that.dayOfWeek)
      ensures dayOfWeek.None? ==> !b
    {
      CompareTo(that) > 0
    }

    /** `equals(that)`: the same strings, which is the same day and the
      same joined keys whatever the tasks. */
    function Equals(that: Day): (b: bool)
      reads this, that
      ensures b <==> (dayOfWeek == that.dayOfWeek &&
        Strings.Join(M.Keys(entries), [TIMESLOT_SERIES_SEPARATOR]) == Strings.Join(M.Keys(that.entries), [TIMESLOT_SERIES_SEPARATOR]))
    {
      DayStringEquality(dayOfWeek, entries, that.dayOfWeek, that.entries);
      ToString(true) == that.ToString(true)
    }
  }
}
