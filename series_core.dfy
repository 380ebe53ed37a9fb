/** What the two timeslot series revisions share: the entries of the `Map`
    they extend, their options record, and the read-only operations, which
    are the same text in both files. Each class in its own module forwards
    to these. */
module SeriesCore {
  import opened Wrappers
  import opened Constants
  import opened Strings
  import T = TimeOfDay
  import opened Timeslots
  import opened SlotOrder
  import M = OrderedMaps

  /** A series' entries: slot strings mapped to slots, in insertion order. */
  type Entries = seq<(string, Timeslot)>

  /** `TimeslotSerieOptions` / `TimeslotSeriesOptions`; `None` is a field
      left undefined (the older record has no overlap flag). */
  datatype SeriesOptions = SeriesOptions(
    allowTimeslotMerging: Option<bool>,
    defaultStartLimit: Option<T.Time>,
    defaultEndLimit: Option<T.Time>,
    enforceOverlappingCheck: Option<bool>)

  /** `options ?? defaults`, and `if (options) ... else defaults`: an
      options record, when given, replaces the defaults as a whole. */
  function OrDefault(options: Option<SeriesOptions>, defaults: SeriesOptions): SeriesOptions
  {
    if options.Some? then options.value else defaults
  }

  /** The default limits are written `Time.fromString('00:00')` and
      `Time.fromString('23:59')`. */
  const MIDNIGHT: T.Time := T.Time(0)
  const LAST_MINUTE: T.Time := T.Time(MINUTES_DAY - 1)

  /** The default limits are the times their strings read as. */
  lemma DefaultLimitsParse()
    ensures T.FromString("00:00") == Ok(MIDNIGHT)
    ensures T.FromString("23:59") == Ok(LAST_MINUTE)
  {
    T.StringRoundTrip(MIDNIGHT);
    T.StringRoundTrip(LAST_MINUTE);
    MidnightString();
    LastMinuteString();
  }

  /** Midnight prints as `00:00`. */
  lemma MidnightString()
    ensures T.ToString(MIDNIGHT) == "00:00"
  {
    assert T.Hours(MIDNIGHT) == 0 && T.Minutes(MIDNIGHT) == 0;
    Strings.TwoDigitsOf(0);
  }

  /** The last minute prints as `23:59`. */
  lemma LastMinuteString()
    ensures T.ToString(LAST_MINUTE) == "23:59"
  {
    assert T.Hours(LAST_MINUTE) == 23 && T.Minutes(LAST_MINUTE) == 59;
    Strings.TwoDigitsOf(23);
    Strings.TwoDigitsOf(59);
  }

  // ---------------------------------------------------------------------
  // Arguments given as a slot or as its string

  /** An argument given as a slot string or as a slot. */
  datatype SlotRef = ByString(text: string) | BySlot(slot: Timeslot)

  /** `timeSlotOrString(ref)`, and equally `ref.toString()`, which a string
      answers with itself. */
  function KeyOf(ref: SlotRef): string
  {
    match ref
    case ByString(text) => text
    case BySlot(slot) => ToString(slot)
  }

  /** The slot `set` and `overlapsWith` work with: a string goes through
      `Timeslot.fromString`. */
  function SlotOf(ref: SlotRef): Result<Timeslot>
  {
    match ref
    case ByString(text) => FromString(text)
    case BySlot(slot) => Ok(slot)
  }

  /** The key of a reference to a well-formed slot reads back as that slot,
      and a string that reads as a slot is that slot's own string in all
      but spelling: it is well-formed and its string reads back to it. */
  lemma KeyReadsBack(ref: SlotRef)
    ensures SlotOf(ref).Ok? && WellFormed(SlotOf(ref).value) ==> FromString(KeyOf(ref)) == SlotOf(ref)
    ensures ref.ByString? && SlotOf(ref).Ok? ==> WellFormed(SlotOf(ref).value) && FromString(ToString(SlotOf(ref).value)) == SlotOf(ref)
  {
    if ref.BySlot? {
      StringRoundTrip(ref.slot);
    } else if FromString(ref.text).Ok? {
      StringRoundTrip(FromString(ref.text).value);
    }
  }

  /** A slot given by its own string denotes that slot exactly when its ends
      are in order; the key is then the same either way. */
  lemma SlotOfCanonicalString(s: Timeslot)
    ensures KeyOf(ByString(ToString(s))) == KeyOf(BySlot(s))
    ensures SlotOf(ByString(ToString(s))) == (if WellFormed(s) then Ok(s) else Err(InvalidTimeslotFormat))
  {
    StringRoundTrip(s);
  }

  // ---------------------------------------------------------------------
  // Invariants of a series

  /** No two slots overlap. */
  predicate Disjoint(slots: seq<Timeslot>)
  {
    forall i, j :: 0 <= i < j < |slots| ==> !Overlaps(slots[i], slots[j])
  }

  /** Storing a slot that overlaps none of the stored ones keeps the slots
      pairwise disjoint. */
  lemma PutDisjoint(entries: Entries, k: string, slot: Timeslot)
    requires M.UniqueKeys(entries) && Disjoint(M.Values(entries))
    requires forall i :: 0 <= i < |entries| ==> !Overlaps(entries[i].1, slot)
    ensures Disjoint(M.Values(M.Put(entries, k, slot)))
  {
    M.PutSpec(entries, k, slot);
    var vs, ws := M.Values(entries), M.Values(M.Put(entries, k, slot));
    forall i, j | 0 <= i < j < |ws|
      ensures !Overlaps(ws[i], ws[j])
    {
      if M.Has(entries, k) {
        var x := M.IndexOf(entries, k).value;
        if i == x {
          assert ws[i] == slot && ws[j] == vs[j];
          assert !Overlaps(entries[j].1, slot);
        } else if j == x {
          assert ws[j] == slot && ws[i] == vs[i];
          assert !Overlaps(entries[i].1, slot);
        } else {
          assert ws[i] == vs[i] && ws[j] == vs[j];
        }
      } else if j == |entries| {
        assert ws[j] == slot && ws[i] == vs[i];
        assert !Overlaps(entries[i].1, slot);
      } else {
        assert ws[i] == vs[i] && ws[j] == vs[j];
      }
    }
  }

  /** Every slot has its ends in order. */
  predicate AllWellFormed(slots: seq<Timeslot>)
  {
    forall i :: 0 <= i < |slots| ==> WellFormed(slots[i])
  }

  /** Every key is the string of its slot, as the constructors and `set`
      with a slot store them. */
  predicate Canonical(entries: Entries)
  {
    forall i :: 0 <= i < |entries| ==> entries[i].0 == ToString(entries[i].1)
  }

  /** Every stored key holds the slot it parses to, as `set(key)` with a
      string stores it, whatever value the key came with. */
  ghost predicate KeysReparsed(entries: Entries)
  {
    forall k :: M.Has(entries, k) ==> FromString(k).Ok? && M.Get(entries, k) == Some(FromString(k).value)
  }

  // ---------------------------------------------------------------------
  // Read-only views

  /** `toArray()`: the slots in ascending `compareTo` order. */
  function ToArray(entries: Entries): (r: seq<Timeslot>)
    ensures Sorted(r) && multiset(r) == multiset(M.Values(entries))
  {
    Sort(M.Values(entries))
  }

  /** The exposed order does not depend on the order of insertion. */
  lemma ToArrayOrderIndependent(a: Entries, b: Entries)
    requires multiset(M.Values(a)) == multiset(M.Values(b))
    ensures ToArray(a) == ToArray(b)
  {
    SortPermutationInvariant(M.Values(a), M.Values(b));
  }

  /** A slot is in `toArray()` exactly when it is a stored value. */
  lemma InToArray(entries: Entries, v: Timeslot)
    ensures v in ToArray(entries) <==> exists i :: 0 <= i < |entries| && entries[i].1 == v
  {
    var vs := M.Values(entries);
    assert v in ToArray(entries) <==> v in multiset(vs);
    if v in vs {
      var i :| 0 <= i < |vs| && vs[i] == v;
      assert entries[i].1 == v;
    }
  }

  /** The strings of the slots, in order. */
  function SlotStrings(slots: seq<Timeslot>): (r: seq<string>)
    ensures |r| == |slots| && forall i :: 0 <= i < |slots| ==> r[i] == ToString(slots[i])
  {
    seq(|slots|, i requires 0 <= i < |slots| => ToString(slots[i]))
  }

  /** `toString()`: the sorted slots' strings joined with `,`. `toLocalString()`
      is the same text, as `Time` has no locale-specific form of its own. */
  function SeriesString(entries: Entries): (r: string)
    ensures |r| == 0 <==> |entries| == 0
    ensures |entries| > 0 ==> Strings.Split(r, TIMESLOT_SERIES_SEPARATOR) == SlotStrings(ToArray(entries))
  {
    var parts := SlotStrings(ToArray(entries));
    assert |ToArray(entries)| == |multiset(M.Values(entries))| == |entries|;
    if |entries| > 0 then
      forall i | 0 <= i < |parts|
        ensures TIMESLOT_SERIES_SEPARATOR !in parts[i]
      {
        NoSeriesSeparator(ToArray(entries)[i]);
      }
      SplitJoin(parts, TIMESLOT_SERIES_SEPARATOR);
      JoinLength(parts);
      Join(parts, [TIMESLOT_SERIES_SEPARATOR])
    else
      Join(parts, [TIMESLOT_SERIES_SEPARATOR])
  }

  /** A slot string is made of digits, `:` and `-` only. */
  lemma SlotStringAvoids(s: Timeslot, c: char)
    requires c != TIME_SEPARATOR && c != INTERVAL_TIME_SEPARATOR && !IsDigit(c)
    ensures c !in ToString(s)
  {
    var r := ToString(s);
    var a, b := T.ToString(s.start), T.ToString(s.end);
    forall i | 0 <= i < |r|
      ensures r[i] != c
    {
      if i < 5 {
        assert r[i] == a[i];
        if i < 2 { assert a[i] == a[..2][i]; } else if i > 2 { assert a[i] == a[3..][i - 3]; }
      } else if i > 5 {
        assert r[i] == b[i - 6];
        var k := i - 6;
        if k < 2 { assert b[k] == b[..2][k]; } else if k > 2 { assert b[k] == b[3..][k - 3]; }
      }
    }
  }

  /** A slot string has no `,`. */
  lemma NoSeriesSeparator(s: Timeslot)
    ensures TIMESLOT_SERIES_SEPARATOR !in ToString(s)
  {
    SlotStringAvoids(s, TIMESLOT_SERIES_SEPARATOR);
  }

  /** `equals` compares `toString()`, so two series are equal exactly when
      they hold the same slots, whatever their keys and insertion order. */
  lemma SeriesStringsEqual(a: Entries, b: Entries)
    ensures SeriesString(a) == SeriesString(b) <==> multiset(M.Values(a)) == multiset(M.Values(b))
  {
    if multiset(M.Values(a)) == multiset(M.Values(b)) {
      ToArrayOrderIndependent(a, b);
    }
    if SeriesString(a) == SeriesString(b) {
      SameStringSameSlots(a, b);
    }
  }

  /** Two series that print the same list the same slots. */
  lemma SameStringSameSlots(a: Entries, b: Entries)
    requires SeriesString(a) == SeriesString(b)
    ensures ToArray(a) == ToArray(b)
  {
    var sa, sb := ToArray(a), ToArray(b);
    assert |sa| == |multiset(M.Values(a))| == |a|;
    assert |sb| == |multiset(M.Values(b))| == |b|;
    if |a| > 0 {
      SlotStringsInjective(sa, sb);
    }
  }

  /** Slots with the same strings are the same slots. */
  lemma SlotStringsInjective(sa: seq<Timeslot>, sb: seq<Timeslot>)
    requires SlotStrings(sa) == SlotStrings(sb)
    ensures sa == sb
  {
    forall i | 0 <= i < |sa|
      ensures sa[i] == sb[i]
    {
      assert SlotStrings(sa)[i] == SlotStrings(sb)[i];
      ToStringInjective(sa[i], sb[i]);
    }
  }

  /** A join is at least as long as its first piece. */
  lemma JoinLength(parts: seq<string>)
    requires |parts| > 0
    ensures |Join(parts, [TIMESLOT_SERIES_SEPARATOR])| >= |parts[0]|
  {
  }

  /** `toJSON().timeslots`: the sorted slots as records, each reading back to
      its slot. */
  function SeriesJSON(entries: Entries): (r: seq<TimeslotSerializable>)
    ensures |r| == |entries|
    ensures forall i :: 0 <= i < |r| ==> FromSerializable(r[i]) == Ok(ToArray(entries)[i])
  {
    var slots := ToArray(entries);
    assert |slots| == |multiset(M.Values(entries))| == |entries|;
    seq(|slots|, i requires 0 <= i < |slots| => ToJSON(slots[i]))
  }

  /** `first`: the least slot; an empty series fails. */
  function First(entries: Entries): (r: Result<Timeslot>)
    ensures r.Ok? <==> |entries| > 0
    ensures r.Ok? ==> (exists i :: 0 <= i < |entries| && entries[i].1 == r.value)
    ensures r.Ok? ==> forall i :: 0 <= i < |entries| ==> Le(r.value, entries[i].1)
  {
    var slots := ToArray(entries);
    ValuesInToArray(entries);
    if |slots| == 0 then Err(EmptySeries)
    else
      FirstLeast(entries);
      Ok(slots[0])
  }

  /** The first sorted slot is stored and is at most every stored slot. */
  lemma FirstLeast(entries: Entries)
    requires |entries| > 0
    ensures |ToArray(entries)| == |entries|
    ensures exists i :: 0 <= i < |entries| && entries[i].1 == ToArray(entries)[0]
    ensures forall i :: 0 <= i < |entries| ==> Le(ToArray(entries)[0], entries[i].1)
  {
    var slots := ToArray(entries);
    ValuesInToArray(entries);
    InToArray(entries, slots[0]);
    forall i | 0 <= i < |entries|
      ensures Le(slots[0], entries[i].1)
    {
      var m :| 0 <= m < |slots| && slots[m] == entries[i].1;
      if m > 0 { assert Le(slots[0], slots[m]); }
    }
  }

  /** `last`: the greatest slot; an empty series fails. */
  function Last(entries: Entries): (r: Result<Timeslot>)
    ensures r.Ok? <==> |entries| > 0
    ensures r.Ok? ==> (exists i :: 0 <= i < |entries| && entries[i].1 == r.value)
    ensures r.Ok? ==> forall i :: 0 <= i < |entries| ==> Le(entries[i].1, r.value)
  {
    var slots := ToArray(entries);
    ValuesInToArray(entries);
    if |slots| == 0 then Err(EmptySeries)
    else
      LastGreatest(entries);
      Ok(slots[|slots| - 1])
  }

  /** The last sorted slot is stored and is at least every stored slot. */
  lemma LastGreatest(entries: Entries)
    requires |entries| > 0
    ensures |ToArray(entries)| == |entries|
    ensures exists i :: 0 <= i < |entries| && entries[i].1 == ToArray(entries)[|entries| - 1]
    ensures forall i :: 0 <= i < |entries| ==> Le(entries[i].1, ToArray(entries)[|entries| - 1])
  {
    var slots := ToArray(entries);
    ValuesInToArray(entries);
    InToArray(entries, slots[|slots| - 1]);
    forall i | 0 <= i < |entries|
      ensures Le(entries[i].1, slots[|slots| - 1])
    {
      SortedLastGreatest(slots, entries[i].1);
    }
  }

  /** `toArray()` has one slot per entry, and every stored slot is in it. */
  lemma ValuesInToArray(entries: Entries)
    ensures |ToArray(entries)| == |entries|
    ensures forall i :: 0 <= i < |entries| ==> entries[i].1 in ToArray(entries)
  {
    assert |ToArray(entries)| == |multiset(M.Values(entries))| == |entries|;
    forall i | 0 <= i < |entries|
      ensures entries[i].1 in ToArray(entries)
    {
      InToArray(entries, entries[i].1);
    }
  }

  // ---------------------------------------------------------------------
  // Scans

  /** The argument of `contains`: a time or a slot. */
  datatype Probe = AtTime(time: T.Time) | Within(slot: Timeslot)

  /** `r.contains(value)`. */
  predicate Holds(s: Timeslot, p: Probe)
  {
    match p
    case AtTime(t) => ContainsTime(s, t)
    case Within(that) => ContainsSlot(s, that)
  }

  /** `slots.find((r) => r.contains(value))`. */
  function Find(slots: seq<Timeslot>, p: Probe): (r: Option<Timeslot>)
    ensures r.None? <==> forall i :: 0 <= i < |slots| ==> !Holds(slots[i], p)
    ensures r.Some? ==> exists i :: 0 <= i < |slots| && slots[i] == r.value && Holds(r.value, p) && forall j :: 0 <= j < i ==> !Holds(slots[j], p)
  {
    if |slots| == 0 then None
    else if Holds(slots[0], p) then Some(slots[0])
    else
      var r := Find(slots[1..], p);
      assert forall i :: 1 <= i < |slots| ==> slots[i] == slots[1..][i - 1];
      if r.Some? then
        var i :| 0 <= i < |slots[1..]| && slots[1..][i] == r.value && Holds(r.value, p)
          && forall j :: 0 <= j < i ==> !Holds(slots[1..][j], p);
        assert slots[i + 1] == r.value;
        r
      else r
  }

  /** `contains(value, true)`: the least stored slot containing `value`, or
      nothing when no slot does. */
  function ContainsExtract(entries: Entries, p: Probe): (r: Option<Timeslot>)
    ensures r.None? <==> forall i :: 0 <= i < |entries| ==> !Holds(entries[i].1, p)
    ensures r.Some? ==> Holds(r.value, p) && exists i :: 0 <= i < |entries| && entries[i].1 == r.value
    ensures r.Some? ==> forall i :: 0 <= i < |entries| && Holds(entries[i].1, p) ==> Le(r.value, entries[i].1)
  {
    FindInEntries(entries, p);
    Find(ToArray(entries), p)
  }

  /** What `Find` answers on the sorted slots, read back on the entries. */
  lemma FindInEntries(entries: Entries, p: Probe)
    ensures var r := Find(ToArray(entries), p);
      && (r.None? <==> forall i :: 0 <= i < |entries| ==> !Holds(entries[i].1, p))
      && (r.Some? ==> Holds(r.value, p) && exists i :: 0 <= i < |entries| && entries[i].1 == r.value)
      && (r.Some? ==> forall i :: 0 <= i < |entries| && Holds(entries[i].1, p) ==> Le(r.value, entries[i].1))
  {
    var slots := ToArray(entries);
    var r := Find(slots, p);
    forall i | 0 <= i < |entries|
      ensures entries[i].1 in slots
    {
      InToArray(entries, entries[i].1);
    }
    if r.Some? {
      var k: int :| 0 <= k < |slots| && slots[k] == r.value && Holds(r.value, p)
        && forall j :: 0 <= j < k ==> !Holds(slots[j], p);
      InToArray(entries, slots[k]);
      forall i | 0 <= i < |entries| && Holds(entries[i].1, p)
        ensures Le(r.value, entries[i].1)
      {
        var m :| 0 <= m < |slots| && slots[m] == entries[i].1;
        assert k <= m;
        if k == m {
          assert Le(slots[k], slots[m]);
        }
      }
    } else {
      forall i | 0 <= i < |entries|
        ensures !Holds(entries[i].1, p)
      {
        var m :| 0 <= m < |slots| && slots[m] == entries[i].1;
      }
    }
  }


  /** `contains(value)`: some stored slot contains `value`. */
  function Contains(entries: Entries, p: Probe): (b: bool)
    ensures b <==> exists i :: 0 <= i < |entries| && Holds(entries[i].1, p)
  {
    var slots := ToArray(entries);
    forall i | 0 <= i < |entries|
      ensures entries[i].1 in slots
    {
      InToArray(entries, entries[i].1);
    }
    forall k | 0 <= k < |slots|
      ensures exists i :: 0 <= i < |entries| && entries[i].1 == slots[k]
    {
      InToArray(entries, slots[k]);
    }
    exists k :: 0 <= k < |slots| && Holds(slots[k], p)
  }

  /** The two forms of `contains` agree. */
  lemma ContainsForms(entries: Entries, p: Probe)
    ensures Contains(entries, p) <==> ContainsExtract(entries, p).Some?
  {
    if ContainsExtract(entries, p).Some? {
      var i :| 0 <= i < |entries| && entries[i].1 == ContainsExtract(entries, p).value;
      assert Holds(entries[i].1, p);
    }
  }

  /** `overlapsWith(x)`: some stored slot strictly overlaps `x`; a string
      is parsed first. */
  function OverlapsWith(entries: Entries, ref: SlotRef): (r: Result<bool>)
    ensures r.Ok? <==> SlotOf(ref).Ok?
    ensures r.Ok? ==> (r.value <==> exists i :: 0 <= i < |entries| && Overlaps(entries[i].1, SlotOf(ref).value))
  {
    var x :- SlotOf(ref);
    Ok(exists i :: 0 <= i < |entries| && Overlaps(entries[i].1, x))
  }

  /** A slot that only touches the stored slots at their ends does not
      overlap the series. */
  lemma TouchingDoesNotOverlap(entries: Entries, x: Timeslot)
    requires AllWellFormed(M.Values(entries)) && WellFormed(x)
    requires forall i :: 0 <= i < |entries| ==>
      entries[i].1.end.globalMinutes <= x.start.globalMinutes || x.end.globalMinutes <= entries[i].1.start.globalMinutes
    ensures OverlapsWith(entries, BySlot(x)) == Ok(false)
  {
    forall i | 0 <= i < |entries|
      ensures !Overlaps(entries[i].1, x)
    {
      assert M.Values(entries)[i] == entries[i].1;
    }
  }

  // ---------------------------------------------------------------------
  // Gaps

  /** Each slot ends no later than the next one starts. */
  predicate Consecutive(slots: seq<Timeslot>)
  {
    forall i :: 0 <= i < |slots| - 1 ==> slots[i].end.globalMinutes <= slots[i + 1].start.globalMinutes
  }

  /** The gaps between consecutive slots. */
  function Gaps(slots: seq<Timeslot>): (r: seq<Timeslot>)
    ensures |r| == (if |slots| == 0 then 0 else |slots| - 1)
    ensures forall i :: 0 <= i < |r| ==> r[i] == Timeslot(slots[i].end, slots[i + 1].start)
  {
    if |slots| == 0 then []
    else seq(|slots| - 1, i requires 0 <= i < |slots| - 1 => Timeslot(slots[i].end, slots[i + 1].start))
  }

  /** The loop of `getEmptyTimeslots`: one `new Timeslot(current.end,
      next.start)` per neighbouring pair, which fails as soon as a slot ends
      after the next one starts. */
  method EmptyGaps(sorted: seq<Timeslot>) returns (r: Result<seq<Timeslot>>)
    ensures r == if Consecutive(sorted) then Ok(Gaps(sorted)) else Err(InvalidTimeslotRange)
  {
    var gaps: seq<Timeslot> := [];
    var i := 0;
    while i < |sorted|
      invariant 0 <= i <= |sorted|
      invariant |gaps| == (if i == 0 then 0 else if i < |sorted| then i else i - 1)
      invariant forall k :: 0 <= k < |gaps| ==> gaps[k] == Timeslot(sorted[k].end, sorted[k + 1].start)
      invariant forall k :: 0 <= k < |gaps| ==> sorted[k].end.globalMinutes <= sorted[k + 1].start.globalMinutes
    {
      if i + 1 < |sorted| {
        var gap := New(sorted[i].end, sorted[i + 1].start);
        if gap.Err? {
          return Err(gap.error);
        }
        gaps := gaps + [gap.value];
      }
      i := i + 1;
    }
    assert gaps == Gaps(sorted);
    r := Ok(gaps);
  }

  /** The slots and the gaps between them tile the span from the first start
      to the last end. */
  lemma {:induction false} GapsTile(slots: seq<Timeslot>)
    requires |slots| > 0
    ensures TotalDuration(slots) + TotalDuration(Gaps(slots))
      == slots[|slots| - 1].end.globalMinutes - slots[0].start.globalMinutes
    decreases |slots|
  {
    if |slots| > 1 {
      GapsTile(slots[1..]);
      GapsFirst(slots);
    }
  }

  /** The first gap, then the gaps of the rest. */
  lemma GapsFirst(slots: seq<Timeslot>)
    requires |slots| > 1
    ensures TotalDuration(Gaps(slots))
      == Duration(Timeslot(slots[0].end, slots[1].start)) + TotalDuration(Gaps(slots[1..]))
  {
    var g, rest := Gaps(slots), Gaps(slots[1..]);
    forall i | 0 <= i < |rest|
      ensures g[1..][i] == rest[i]
    {
      assert slots[1..][i] == slots[i + 1] && slots[1..][i + 1] == slots[i + 2];
    }
    assert g[1..] == rest;
  }

  /** For sorted slots with ordered ends, the gaps exist (they are
      consecutive) exactly when no two slots overlap. */
  lemma SortedConsecutiveIffDisjoint(slots: seq<Timeslot>)
    requires Sorted(slots) && AllWellFormed(slots)
    ensures Consecutive(slots) <==> Disjoint(slots)
  {
    if Consecutive(slots) {
      forall i, j | 0 <= i < j < |slots|
        ensures !Overlaps(slots[i], slots[j])
      {
        ChainBound(slots, i, j);
      }
    }
    if Disjoint(slots) {
      forall i | 0 <= i < |slots| - 1
        ensures slots[i].end.globalMinutes <= slots[i + 1].start.globalMinutes
      {
        assert Le(slots[i], slots[i + 1]);
        assert !Overlaps(slots[i], slots[i + 1]);
      }
    }
  }

  /** In consecutive slots, a slot ends no later than any later slot starts. */
  lemma {:induction false} ChainBound(slots: seq<Timeslot>, i: int, j: int)
    requires Consecutive(slots) && AllWellFormed(slots)
    requires 0 <= i < j < |slots|
    ensures slots[i].end.globalMinutes <= slots[j].start.globalMinutes
    decreases j - i
  {
    if j > i + 1 {
      ChainBound(slots, i, j - 1);
    }
  }

  /** `extendsToLimit`: `[startLimit, first.start]` and `[last.end,
      endLimit]` go after the gaps. Reading a limit fails with a type error
      when no options were stored and on an empty series; a missing start
      limit does too, and a missing end limit makes a five-minute slot. */
  function ExtendToLimits(gaps: seq<Timeslot>, sorted: seq<Timeslot>, options: Option<SeriesOptions>): (r: Result<seq<Timeslot>>)
    ensures r.Ok? <==> (
      && options.Some? && |sorted| > 0 && options.value.defaultStartLimit.Some?
      && options.value.defaultStartLimit.value.globalMinutes <= sorted[0].start.globalMinutes
      && (options.value.defaultEndLimit.Some? ==>
            sorted[|sorted| - 1].end.globalMinutes <= options.value.defaultEndLimit.value.globalMinutes)
      && (options.value.defaultEndLimit.None? ==> sorted[|sorted| - 1].end.globalMinutes < MINUTES_DAY - 5))
    ensures r.Ok? ==> (
      && |r.value| == |gaps| + 2 && r.value[..|gaps|] == gaps
      && r.value[|gaps|] == Timeslot(options.value.defaultStartLimit.value, sorted[0].start)
      && r.value[|gaps| + 1].start == sorted[|sorted| - 1].end
      && (options.value.defaultEndLimit.Some? ==> r.value[|gaps| + 1].end == options.value.defaultEndLimit.value)
      && (options.value.defaultEndLimit.None? ==> Duration(r.value[|gaps| + 1]) == 5))
    ensures options.None? || |sorted| == 0 ==> r == Err(RuntimeTypeError)
  {
    if options.None? || |sorted| == 0 then Err(RuntimeTypeError)
    else if options.value.defaultStartLimit.None? then Err(RuntimeTypeError)
    else
      var beginning :- New(options.value.defaultStartLimit.value, sorted[0].start);
      var last := sorted[|sorted| - 1];
      var ending :- if options.value.defaultEndLimit.Some? then New(last.end, options.value.defaultEndLimit.value)
                    else FromStart(last.end);
      assert (gaps + [beginning, ending])[..|gaps|] == gaps;
      Ok(gaps + [beginning, ending])
  }

  /** `getEmptyTimeslots(extendsToLimit)` on the stored entries. */
  function EmptyTimeslots(entries: Entries, extendsToLimit: bool, options: Option<SeriesOptions>): (r: Result<seq<Timeslot>>)
    ensures AllWellFormed(M.Values(entries)) && !Disjoint(ToArray(entries)) ==> r == Err(InvalidTimeslotRange)
    ensures AllWellFormed(M.Values(entries)) && Disjoint(ToArray(entries)) && !extendsToLimit ==> r == Ok(Gaps(ToArray(entries)))
    ensures r.Ok? ==> Gaps(ToArray(entries)) <= r.value
  {
    var sorted := ToArray(entries);
    assert AllWellFormed(M.Values(entries)) ==> (Consecutive(sorted) <==> Disjoint(sorted)) by {
      if AllWellFormed(M.Values(entries)) {
        SortedWellFormed(entries);
        SortedConsecutiveIffDisjoint(sorted);
      }
    }
    if !Consecutive(sorted) then Err(InvalidTimeslotRange)
    else if extendsToLimit then ExtendToLimits(Gaps(sorted), sorted, options)
    else Ok(Gaps(sorted))
  }

  /** The sorted slots of a series whose slots are all ordered are ordered. */
  lemma SortedWellFormed(entries: Entries)
    requires AllWellFormed(M.Values(entries))
    ensures AllWellFormed(ToArray(entries))
  {
    var sorted := ToArray(entries);
    forall i | 0 <= i < |sorted|
      ensures WellFormed(sorted[i])
    {
      InToArray(entries, sorted[i]);
      var k :| 0 <= k < |entries| && entries[k].1 == sorted[i];
      assert M.Values(entries)[k] == sorted[i];
    }
  }

  /** A series of ordered, non-overlapping slots has its gaps, and they and
      the slots tile the span of the series. */
  lemma DisjointSeriesGaps(entries: Entries, options: Option<SeriesOptions>)
    requires AllWellFormed(M.Values(entries)) && Disjoint(ToArray(entries))
    ensures EmptyTimeslots(entries, false, options) == Ok(Gaps(ToArray(entries)))
    ensures |entries| > 0 ==> var sorted := ToArray(entries);
      TotalDuration(sorted) + TotalDuration(Gaps(sorted))
        == sorted[|sorted| - 1].end.globalMinutes - sorted[0].start.globalMinutes
  {
    var sorted := ToArray(entries);
    assert |sorted| == |multiset(M.Values(entries))| == |entries|;
    SortedWellFormed(entries);
    SortedConsecutiveIffDisjoint(sorted);
    if |entries| > 0 {
      GapsTile(sorted);
    }
  }

  /** Two slots stored out of order: `getEmptyTimeslots(true)` lists the gap
      between them, then the piece from the start limit to the earlier slot
      and the piece from the later slot to the end limit. */
  lemma TwoSlotGaps(keyA: string, a: Timeslot, keyB: string, b: Timeslot, options: SeriesOptions)
    requires WellFormed(a) && WellFormed(b) && b.end.globalMinutes <= a.start.globalMinutes
    requires options.defaultStartLimit.Some? && options.defaultEndLimit.Some?
    requires options.defaultStartLimit.value.globalMinutes <= b.start.globalMinutes
    requires a.end.globalMinutes <= options.defaultEndLimit.value.globalMinutes
    ensures EmptyTimeslots([(keyA, a), (keyB, b)], true, Some(options))
      == Ok([Timeslot(b.end, a.start), Timeslot(options.defaultStartLimit.value, b.start),
             Timeslot(a.end, options.defaultEndLimit.value)])
  {
    TwoSlotArray(keyA, a, keyB, b);
    TwoSlotsConsecutive(a, b);
    TwoSlotsExtend(a, b, options);
  }

  /** Two ordered slots are consecutive and leave the one gap between them. */
  lemma TwoSlotsConsecutive(a: Timeslot, b: Timeslot)
    requires WellFormed(a) && WellFormed(b) && b.end.globalMinutes <= a.start.globalMinutes
    ensures Consecutive([b, a]) && Gaps([b, a]) == [Timeslot(b.end, a.start)]
  {
  }

  /** The one gap of two ordered slots, extended to the limits. */
  lemma TwoSlotsExtend(a: Timeslot, b: Timeslot, options: SeriesOptions)
    requires WellFormed(a) && WellFormed(b)
    requires options.defaultStartLimit.Some? && options.defaultEndLimit.Some?
    requires options.defaultStartLimit.value.globalMinutes <= b.start.globalMinutes
    requires a.end.globalMinutes <= options.defaultEndLimit.value.globalMinutes
    ensures ExtendToLimits([Timeslot(b.end, a.start)], [b, a], Some(options))
      == Ok([Timeslot(b.end, a.start), Timeslot(options.defaultStartLimit.value, b.start),
             Timeslot(a.end, options.defaultEndLimit.value)])
  {
    var gaps := [Timeslot(b.end, a.start)];
    var r := ExtendToLimits(gaps, [b, a], Some(options));
    assert r.Ok?;
    assert r.value[0] == r.value[..1][0] == gaps[0];
    assert r.value[2] == Timeslot(a.end, options.defaultEndLimit.value);
    assert r.value == [r.value[0], r.value[1], r.value[2]];
  }

  /** Two stored slots come out of `toArray()` in `compareTo` order. */
  lemma TwoSlotArray(keyA: string, a: Timeslot, keyB: string, b: Timeslot)
    requires Le(b, a)
    ensures ToArray([(keyA, a), (keyB, b)]) == [b, a]
  {
    var entries := [(keyA, a), (keyB, b)];
    assert M.Values(entries) == [a, b];
    SortedPair(ToArray(entries), a, b);
  }

  /** `08:30-10:30,06:30-07:30` with the default limits gives `07:30-08:30`,
      `00:00-06:30` and `10:30-23:59`. */
  lemma EmptyTimeslotsExample(keyA: string, keyB: string)
    ensures var a := Timeslot(T.Time(8 * 60 + 30), T.Time(10 * 60 + 30));
      var b := Timeslot(T.Time(6 * 60 + 30), T.Time(7 * 60 + 30));
      var options := SeriesOptions(Some(true), Some(MIDNIGHT), Some(LAST_MINUTE), None);
      EmptyTimeslots([(keyA, a), (keyB, b)], true, Some(options))
        == Ok([Timeslot(T.Time(7 * 60 + 30), T.Time(8 * 60 + 30)), Timeslot(MIDNIGHT, T.Time(6 * 60 + 30)),
               Timeslot(T.Time(10 * 60 + 30), LAST_MINUTE)])
  {
    var a := Timeslot(T.Time(8 * 60 + 30), T.Time(10 * 60 + 30));
    var b := Timeslot(T.Time(6 * 60 + 30), T.Time(7 * 60 + 30));
    TwoSlotGaps(keyA, a, keyB, b, SeriesOptions(Some(true), Some(MIDNIGHT), Some(LAST_MINUTE), None));
  }

  // ---------------------------------------------------------------------
  // Parsing a series string and the order of its slots

  /** `parts.map((p) => Timeslot.fromString(p))`: the first failing part
      aborts. */
  function ParseSegments(parts: seq<string>): (r: Result<seq<Timeslot>>)
    ensures r.Ok? <==> forall i :: 0 <= i < |parts| ==> FromString(parts[i]).Ok?
    ensures r.Ok? ==> |r.value| == |parts| && forall i :: 0 <= i < |parts| ==> r.value[i] == FromString(parts[i]).value
  {
    if |parts| == 0 then Ok([])
    else
      SegmentsParseCons(parts);
      var head :- FromString(parts[0]);
      var tail :- ParseSegments(parts[1..]);
      SegmentValuesCons(parts, head, tail);
      Ok([head] + tail)
  }

  /** All the parts parse when the first does and all the rest do. */
  lemma SegmentsParseCons(parts: seq<string>)
    requires |parts| > 0
    ensures (forall i :: 0 <= i < |parts| ==> FromString(parts[i]).Ok?)
      <==> FromString(parts[0]).Ok? && forall i :: 0 <= i < |parts| - 1 ==> FromString(parts[1..][i]).Ok?
  {
    assert forall i :: 1 <= i < |parts| ==> parts[i] == parts[1..][i - 1];
  }

  /** The first part's slot in front of the rest's slots lines up with the
      parts. */
  lemma SegmentValuesCons(parts: seq<string>, head: Timeslot, tail: seq<Timeslot>)
    requires |parts| > 0 && FromString(parts[0]) == Ok(head) && |tail| == |parts| - 1
    requires forall i :: 0 <= i < |tail| ==> FromString(parts[1..][i]).Ok? && tail[i] == FromString(parts[1..][i]).value
    ensures forall i :: 0 <= i < |parts| ==> FromString(parts[i]).Ok? && ([head] + tail)[i] == FromString(parts[i]).value
  {
    forall i | 0 <= i < |parts|
      ensures FromString(parts[i]).Ok? && ([head] + tail)[i] == FromString(parts[i]).value
    {
      if i > 0 {
        assert parts[i] == parts[1..][i - 1] && ([head] + tail)[i] == tail[i - 1];
      }
    }
  }

  /** Two parts that parse give the two slots, in order. */
  lemma ParseTwo(x: string, y: string, a: Timeslot, b: Timeslot)
    requires FromString(x) == Ok(a) && FromString(y) == Ok(b)
    ensures ParseSegments([x, y]) == Ok([a, b])
  {
    var r := ParseSegments([x, y]);
    assert r.Ok? && |r.value| == 2 && r.value[0] == a && r.value[1] == b;
    assert r.value == [a, b];
  }

  /** The strings of well-formed slots parse back to the slots. */
  lemma ParseSlotStrings(slots: seq<Timeslot>)
    requires AllWellFormed(slots)
    ensures ParseSegments(SlotStrings(slots)) == Ok(slots)
  {
    var parts := SlotStrings(slots);
    forall i | 0 <= i < |parts|
      ensures FromString(parts[i]) == Ok(slots[i])
    {
      RoundTripAt(slots, i);
    }
    ParseEach(parts, slots);
  }

  /** Parts that each parse to the slot at their position parse to the
      slots. */
  lemma ParseEach(parts: seq<string>, slots: seq<Timeslot>)
    requires |parts| == |slots| && forall i :: 0 <= i < |parts| ==> FromString(parts[i]) == Ok(slots[i])
    ensures ParseSegments(parts) == Ok(slots)
  {
    var r := ParseSegments(parts);
    assert r.Ok? by {
      assert forall i :: 0 <= i < |parts| ==> FromString(parts[i]).Ok?;
    }
    forall i | 0 <= i < |slots|
      ensures r.value[i] == slots[i]
    {
      assert r.value[i] == FromString(parts[i]).value;
    }
    assert r.value == slots;
  }

  /** Each slot string reads back as its slot. */
  lemma RoundTripAt(slots: seq<Timeslot>, i: int)
    requires AllWellFormed(slots) && 0 <= i < |slots|
    ensures FromString(SlotStrings(slots)[i]) == Ok(slots[i])
  {
    StringRoundTrip(slots[i]);
  }

  /** Whether slots overlap does not depend on their order. */
  lemma DisjointPermutation(a: seq<Timeslot>, b: seq<Timeslot>)
    requires multiset(a) == multiset(b) && Disjoint(a)
    ensures Disjoint(b)
  {
    forall i, j | 0 <= i < j < |b|
      ensures !Overlaps(b[i], b[j])
    {
      assert b[i] in multiset(a) && b[j] in multiset(a);
      if b[i] == b[j] {
        Twice(b, i, j);
        var p, q := TwoPositions(a, b[i]);
        if p < q { assert !Overlaps(a[p], a[q]); } else { assert !Overlaps(a[q], a[p]); }
      } else {
        var p :| 0 <= p < |a| && a[p] == b[i];
        var q :| 0 <= q < |a| && a[q] == b[j];
        if p < q { assert !Overlaps(a[p], a[q]); } else { assert !Overlaps(a[q], a[p]); }
      }
    }
  }

  /** A slot found at two positions occurs at least twice. */
  lemma Twice(s: seq<Timeslot>, i: int, j: int)
    requires 0 <= i < j < |s| && s[i] == s[j]
    ensures multiset(s)[s[i]] >= 2
  {
    assert s == s[..i] + [s[i]] + s[i + 1..j] + [s[j]] + s[j + 1..];
    assert multiset(s) == multiset(s[..i]) + multiset{s[i]} + multiset(s[i + 1..j]) + multiset{s[j]} + multiset(s[j + 1..]);
  }

  /** A slot that occurs at least twice sits at two different positions. */
  lemma TwoPositions(s: seq<Timeslot>, x: Timeslot) returns (p: int, q: int)
    requires multiset(s)[x] >= 2
    ensures 0 <= p < |s| && 0 <= q < |s| && p != q && s[p] == x && s[q] == x
  {
    assert x in multiset(s);
    p :| 0 <= p < |s| && s[p] == x;
    var rest := s[..p] + s[p + 1..];
    assert s == s[..p] + [s[p]] + s[p + 1..];
    assert multiset(s) == multiset(s[..p]) + multiset{x} + multiset(s[p + 1..]);
    assert multiset(rest)[x] >= 1;
    assert x in multiset(rest);
    var k :| 0 <= k < |rest| && rest[k] == x;
    if k < p {
      q := k;
      assert s[q] == s[..p][k];
    } else {
      q := k + 1;
      assert s[q] == s[p + 1..][k - p];
    }
  }

  /** Canonical entries with distinct keys hold distinct slots. */
  lemma CanonicalDistinct(entries: Entries, i: int, j: int)
    requires Canonical(entries) && M.UniqueKeys(entries)
    requires 0 <= i < j < |entries|
    ensures entries[i].1 != entries[j].1
  {
  }

  /** Each slot keyed by its string, in the given order. */
  function CanonicalEntries(slots: seq<Timeslot>): (r: Entries)
    ensures |r| == |slots| && Canonical(r) && M.Values(r) == slots
    ensures forall i :: 0 <= i < |slots| ==> r[i] == (ToString(slots[i]), slots[i])
  {
    seq(|slots|, i requires 0 <= i < |slots| => (ToString(slots[i]), slots[i]))
  }

  /** `slot.toJSON()` of each slot. */
  function SlotJSON(slots: seq<Timeslot>): (r: seq<TimeslotSerializable>)
    ensures |r| == |slots| && forall i :: 0 <= i < |slots| ==> r[i] == ToJSON(slots[i])
  {
    seq(|slots|, i requires 0 <= i < |slots| => ToJSON(slots[i]))
  }

  // ---------------------------------------------------------------------
  // Repeated slots

  /** The slots in their order, each kept where it first occurs: what a
      `Map` keyed by slot strings keeps of them. */
  function Dedup(s: seq<Timeslot>): (r: seq<Timeslot>)
    ensures forall x :: x in r <==> x in s
    ensures forall i, j :: 0 <= i < j < |r| ==> r[i] != r[j]
    decreases |s|
  {
    if |s| == 0 then []
    else
      var p := Dedup(s[..|s| - 1]);
      var x := s[|s| - 1];
      assert s == s[..|s| - 1] + [x];
      if x in p then p else p + [x]
  }

  /** Dropping repeats keeps a sorted sequence sorted. */
  lemma {:induction false} DedupSorted(s: seq<Timeslot>)
    requires Sorted(s)
    ensures Sorted(Dedup(s))
    decreases |s|
  {
    if |s| > 0 {
      var pre := s[..|s| - 1];
      var x := s[|s| - 1];
      var p := Dedup(pre);
      DedupSorted(pre);
      if x !in p {
        forall i | 0 <= i < |p|
          ensures Le(p[i], x)
        {
          assert p[i] in pre;
          var k :| 0 <= k < |pre| && pre[k] == p[i];
          assert s[k] == p[i];
        }
      }
    }
  }

  /** Parsed segments are well-formed. */
  lemma ParsedWellFormed(parts: seq<string>)
    requires ParseSegments(parts).Ok?
    ensures AllWellFormed(ParseSegments(parts).value)
  {
    var slots := ParseSegments(parts).value;
    forall i | 0 <= i < |slots|
      ensures WellFormed(slots[i])
    {
      assert slots[i] == FromString(parts[i]).value;
    }
  }

  /** Sorting well-formed slots and keeping each once leaves them well-formed. */
  lemma DedupWellFormed(slots: seq<Timeslot>)
    requires AllWellFormed(slots)
    ensures AllWellFormed(Dedup(Sort(slots)))
  {
    var d := Dedup(Sort(slots));
    forall i | 0 <= i < |d|
      ensures WellFormed(d[i])
    {
      assert d[i] in Sort(slots);
      assert d[i] in multiset(slots);
    }
  }

  /** No two different slots overlap; equal ones may. */
  predicate NoneOverlap(slots: seq<Timeslot>)
  {
    forall a, b :: a in slots && b in slots && a != b ==> !Overlaps(a, b)
  }

  /** Sorting does not change which slots overlap. */
  lemma NoneOverlapSort(s: seq<Timeslot>)
    ensures NoneOverlap(Sort(s)) <==> NoneOverlap(s)
  {
    forall x
      ensures x in Sort(s) <==> x in s
    {
      assert x in multiset(Sort(s)) <==> x in multiset(s);
    }
  }

  /** Pairwise disjoint slots have no two different ones overlapping. */
  lemma DisjointNoneOverlap(s: seq<Timeslot>)
    requires Disjoint(s)
    ensures NoneOverlap(s)
  {
    forall a, b | a in s && b in s && a != b
      ensures !Overlaps(a, b)
    {
      var i :| 0 <= i < |s| && s[i] == a;
      var j :| 0 <= j < |s| && s[j] == b;
      OverlapsSymmetric(a, b);
      if i > j {
        assert !Overlaps(s[j], s[i]);
      }
    }
  }

  /** The slots kept once each are pairwise disjoint exactly when no two
      different slots overlap. */
  lemma DedupDisjoint(s: seq<Timeslot>)
    ensures Disjoint(Dedup(s)) <==> NoneOverlap(s)
  {
    var d := Dedup(s);
    if NoneOverlap(s) {
      forall i, j | 0 <= i < j < |d|
        ensures !Overlaps(d[i], d[j])
      {
        assert d[i] in s && d[j] in s;
      }
    }
    if Disjoint(d) {
      DisjointNoneOverlap(d);
      forall a, b | a in s && b in s && a != b
        ensures !Overlaps(a, b)
      {
        assert a in d && b in d;
      }
    }
  }

  /** Slots that are all different have all different strings. */
  lemma DistinctKeys(s: seq<Timeslot>)
    requires forall i, j :: 0 <= i < j < |s| ==> s[i] != s[j]
    ensures M.UniqueKeys(CanonicalEntries(s))
  {
    var ce := CanonicalEntries(s);
    forall i, j | 0 <= i < j < |ce|
      ensures ce[i].0 != ce[j].0
    {
      if ce[i].0 == ce[j].0 {
        ToStringInjective(s[i], s[j]);
      }
    }
  }

  /** `new Map` of the slots' canonical pairs keeps each slot once, where
      it first occurs. */
  lemma {:induction false} CanonicalDedup(s: seq<Timeslot>)
    ensures M.FromPairs(CanonicalEntries(s)) == CanonicalEntries(Dedup(s))
    decreases |s|
  {
    if |s| > 0 {
      var pre := s[..|s| - 1];
      var x := s[|s| - 1];
      CanonicalDedup(pre);
      CanonicalLast(s);
      PutCanonical(Dedup(pre), x);
    }
  }

  /** `new Map` of canonical pairs sets the last pair after the others. */
  lemma CanonicalLast(s: seq<Timeslot>)
    requires |s| > 0
    ensures M.FromPairs(CanonicalEntries(s))
      == M.Put(M.FromPairs(CanonicalEntries(s[..|s| - 1])), ToString(s[|s| - 1]), s[|s| - 1])
  {
    var ce := CanonicalEntries(s);
    assert ce[..|s| - 1] == CanonicalEntries(s[..|s| - 1]);
  }

  /** Setting a slot under its string in canonical pairs leaves them as
      they are when the slot is there already, and appends it otherwise. */
  lemma PutCanonical(d: seq<Timeslot>, x: Timeslot)
    requires forall i, j :: 0 <= i < j < |d| ==> d[i] != d[j]
    ensures M.Put(CanonicalEntries(d), ToString(x), x)
      == if x in d then CanonicalEntries(d) else CanonicalEntries(d + [x])
  {
    if x in d {
      PutPresent(d, x);
    } else {
      PutAbsent(d, x);
    }
  }

  /** A slot already held is set again under the same key to itself. */
  lemma PutPresent(d: seq<Timeslot>, x: Timeslot)
    requires x in d && forall i, j :: 0 <= i < j < |d| ==> d[i] != d[j]
    ensures M.Put(CanonicalEntries(d), ToString(x), x) == CanonicalEntries(d)
  {
    var cd := CanonicalEntries(d);
    var i :| 0 <= i < |d| && d[i] == x;
    DistinctKeys(d);
    M.PutSame(cd, i);
  }

  /** A slot not held gets a new key, appended. */
  lemma PutAbsent(d: seq<Timeslot>, x: Timeslot)
    requires x !in d
    ensures M.Put(CanonicalEntries(d), ToString(x), x) == CanonicalEntries(d + [x])
  {
    var cd := CanonicalEntries(d);
    KeyAbsent(d, x);
    M.InKeys(cd, ToString(x));
    CanonicalAppend(d, x);
  }

  /** A slot not held has a string that is no key. */
  lemma KeyAbsent(d: seq<Timeslot>, x: Timeslot)
    requires x !in d
    ensures ToString(x) !in M.Keys(CanonicalEntries(d))
  {
    var ks := M.Keys(CanonicalEntries(d));
    forall j | 0 <= j < |d|
      ensures ks[j] != ToString(x)
    {
      if ks[j] == ToString(x) {
        ToStringInjective(d[j], x);
      }
    }
  }

  /** The canonical pairs of one more slot. */
  lemma CanonicalAppend(d: seq<Timeslot>, x: Timeslot)
    ensures CanonicalEntries(d) + [(ToString(x), x)] == CanonicalEntries(d + [x])
  {
  }
}
