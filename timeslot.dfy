/** `Timeslot`: an immutable pair of times, `start` and `end`. The
    constructors from two times check the order; the record form does not,
    so a reversed slot can exist and the operations below are defined on
    every pair. */
module Timeslots {
  import opened Wrappers
  import opened Constants
  import opened Strings
  import T = TimeOfDay

  datatype Timeslot = Timeslot(start: T.Time, end: T.Time)

  /** The `{ start, end }` record `toJSON` produces. */
  datatype TimeslotSerializable = TimeslotSerializable(start: T.TimeSerializable, end: T.TimeSerializable)

  /** The slot's ends are in order. */
  predicate WellFormed(s: Timeslot)
  {
    s.start.globalMinutes <= s.end.globalMinutes
  }

  // ---------------------------------------------------------------------
  // Construction

  /** `new Timeslot(start, end)` and `new Timeslot([start, end])`: both
      reject a start after the end. */
  function New(start: T.Time, end: T.Time): (r: Result<Timeslot>)
    ensures r.Ok? <==> start.globalMinutes <= end.globalMinutes
    ensures r.Ok? ==> r.value.start == start && r.value.end == end && WellFormed(r.value)
  {
    if T.IsAfter(start, end) then Err(InvalidTimeslotRange) else Ok(Timeslot(start, end))
  }

  /** `new Timeslot(start)`: a five-minute slot. It fails from 23:55 on,
      where `start.add(5)` lands on 24:00 to 24:04 and is rejected. */
  function FromStart(start: T.Time): (r: Result<Timeslot>)
    ensures r.Ok? <==> start.globalMinutes < MINUTES_DAY - 5
    ensures r.Ok? ==> r.value.start == start && Duration(r.value) == 5
  {
    var end :- T.Add(start, 5);
    New(start, end)
  }

  /** `new Timeslot({ start, end })` with serialised times: each end goes
      through the `Time` constructor, and the order is not checked. */
  function FromSerializable(value: TimeslotSerializable): (r: Result<Timeslot>)
    ensures r.Ok? <==> T.FromSerializable(value.start).Ok? && T.FromSerializable(value.end).Ok?
    ensures r.Ok? ==> ToJSON(r.value) == value
  {
    var start :- T.FromSerializable(value.start);
    var end :- T.FromSerializable(value.end);
    Ok(Timeslot(start, end))
  }

  /** A slot whose end lies before its start, which only the record form
      can build. */
  lemma RecordFormSkipsOrderCheck()
    ensures var r := FromSerializable(TimeslotSerializable(T.TimeSerializable(12, 0), T.TimeSerializable(8, 0)));
      r.Ok? && !WellFormed(r.value)
  {
  }

  // ---------------------------------------------------------------------
  // Accessors and serialisation

  /** `slot.duration`, computed from the hour and minute parts: the signed
      number of minutes from start to end. */
  function Duration(s: Timeslot): (d: int)
    ensures d == s.end.globalMinutes - s.start.globalMinutes
    ensures WellFormed(s) <==> d >= 0
  {
    var hours := T.Hours(s.end) - T.Hours(s.start);
    var minutes := T.Minutes(s.end) - T.Minutes(s.start);
    hours * 60 + minutes
  }

  /** `slot.toJSON()`. */
  function ToJSON(s: Timeslot): (v: TimeslotSerializable)
    ensures T.FromSerializable(v.start) == Ok(s.start) && T.FromSerializable(v.end) == Ok(s.end)
  {
    T.JsonRoundTrip(s.start);
    T.JsonRoundTrip(s.end);
    TimeslotSerializable(T.ToJSON(s.start), T.ToJSON(s.end))
  }

  /** Every slot reads back from its serialised record. */
  lemma JsonRoundTrip(s: Timeslot)
    ensures FromSerializable(ToJSON(s)) == Ok(s)
  {
  }

  /** `slot.toString()`: `HH:MM-HH:MM`. */
  function ToString(s: Timeslot): (r: string)
    ensures |r| == 11 && r[5] == INTERVAL_TIME_SEPARATOR
    ensures r[..5] == T.ToString(s.start) && r[6..] == T.ToString(s.end)
  {
    var a := T.ToString(s.start);
    var b := T.ToString(s.end);
    var r := a + [INTERVAL_TIME_SEPARATOR] + b;
    assert r[..5] == a && r[6..] == b;
    r
  }

  /** Distinct slots have distinct strings, which is what lets a series key
      its entries by string. */
  lemma ToStringInjective(a: Timeslot, b: Timeslot)
    requires ToString(a) == ToString(b)
    ensures a == b
  {
    T.StringRoundTrip(a.start);
    T.StringRoundTrip(b.start);
    T.StringRoundTrip(a.end);
    T.StringRoundTrip(b.end);
    assert T.ToString(a.start) == ToString(a)[..5] == T.ToString(b.start);
    assert T.ToString(a.end) == ToString(a)[6..] == T.ToString(b.end);
  }

  /** `Timeslot.fromString(value)`: exactly one `-`, two valid times, and
      the start not after the end. */
  function FromString(value: string): (r: Result<Timeslot>)
    ensures var parts := Strings.Split(value, INTERVAL_TIME_SEPARATOR);
      r.Ok? <==>
        |parts| == 2 && T.FromString(parts[0]).Ok? && T.FromString(parts[1]).Ok?
        && T.FromString(parts[0]).value.globalMinutes <= T.FromString(parts[1]).value.globalMinutes
    ensures r.Ok? ==> WellFormed(r.value)
    ensures r.Ok? ==> var parts := Strings.Split(value, INTERVAL_TIME_SEPARATOR);
      r.value == Timeslot(T.FromString(parts[0]).value, T.FromString(parts[1]).value)
  {
    var parts := Strings.Split(value, INTERVAL_TIME_SEPARATOR);
    if |parts| != 2 then Err(InvalidTimeslotFormat)
    else
      var start :- T.FromString(parts[0]);
      var end :- T.FromString(parts[1]);
      if T.IsAfter(start, end) then Err(InvalidTimeslotFormat)
      else FromSerializable(TimeslotSerializable(T.ToJSON(start), T.ToJSON(end)))
  }

  /** A slot reads back from its string form exactly when its ends are in
      order. */
  lemma StringRoundTrip(s: Timeslot)
    ensures FromString(ToString(s)) == (if WellFormed(s) then Ok(s) else Err(InvalidTimeslotFormat))
  {
    var a := T.ToString(s.start);
    var b := T.ToString(s.end);
    assert ToString(s) == a + [INTERVAL_TIME_SEPARATOR] + b;
    assert INTERVAL_TIME_SEPARATOR !in a by {
      assert forall i :: 0 <= i < |a| && i != 2 ==> IsDigit(a[i]) by {
        assert forall i :: 0 <= i < 2 ==> a[i] == a[..2][i];
        assert forall i :: 3 <= i < 5 ==> a[i] == a[3..][i - 3];
      }
    }
    assert INTERVAL_TIME_SEPARATOR !in b by {
      assert forall i :: 0 <= i < |b| && i != 2 ==> IsDigit(b[i]) by {
        assert forall i :: 0 <= i < 2 ==> b[i] == b[..2][i];
        assert forall i :: 3 <= i < 5 ==> b[i] == b[3..][i - 3];
      }
    }
    SplitFirstSeparator(a, INTERVAL_TIME_SEPARATOR, b);
    SplitNoSeparator(b, INTERVAL_TIME_SEPARATOR);
    assert Strings.Split(ToString(s), INTERVAL_TIME_SEPARATOR) == [a, b];
    T.StringRoundTrip(s.start);
    T.StringRoundTrip(s.end);
  }

  /** A string without the separator, such as `08:3007:30`, is rejected. */
  lemma FromStringRejectsMissingSeparator(value: string)
    requires INTERVAL_TIME_SEPARATOR !in value
    ensures FromString(value).Err?
  {
    SplitNoSeparator(value, INTERVAL_TIME_SEPARATOR);
  }

  /** A reversed range such as `08:30-07:30` is rejected. */
  lemma FromStringRejectsReversed(s: Timeslot)
    requires s.end.globalMinutes < s.start.globalMinutes
    ensures FromString(ToString(s)).Err?
  {
    StringRoundTrip(s);
  }

  // ---------------------------------------------------------------------
  // Order

  /** `slot.compareTo(that)`: -1, 0 or 1, ordering by start and then by
      end. */
  function CompareTo(s: Timeslot, that: Timeslot): (c: int)
    ensures -1 <= c <= 1
    ensures c == 0 <==> s == that
    ensures c < 0 <==> s.start.globalMinutes < that.start.globalMinutes
                       || (s.start == that.start && s.end.globalMinutes < that.end.globalMinutes)
  {
    var start := T.CompareTo(s.start, that.start);
    var end := T.CompareTo(s.end, that.end);
    if start > 0 then 1
    else if start < 0 then -1
    else if end > 0 then 1
    else if end < 0 then -1
    else 0
  }

  /** `slot.equals(that)`. */
  function Equals(s: Timeslot, that: Timeslot): (b: bool)
    ensures b <==> s == that
  {
    CompareTo(s, that) == 0
  }

  /** Whether the `strict` argument asks for a strict comparison: `true` or
      leaving it out do, `false` does not. */
  predicate IsStrict(strict: Option<bool>)
  {
    strict == None || strict == Some(true)
  }

  /** `slot.isAfter(that, strict)`. */
  function IsAfter(s: Timeslot, that: Timeslot, strict: Option<bool> := None): (b: bool)
    ensures b <==> CompareTo(that, s) < 0 || (!IsStrict(strict) && s == that)
  {
    if IsStrict(strict) then CompareTo(s, that) > 0 else CompareTo(s, that) >= 0
  }

  /** `slot.isBefore(that, strict)`. */
  function IsBefore(s: Timeslot, that: Timeslot, strict: Option<bool> := None): (b: bool)
    ensures b <==> IsAfter(that, s, strict)
  {
    if IsStrict(strict) then CompareTo(s, that) < 0 else CompareTo(s, that) <= 0
  }

  /** The comparison is a total order: antisymmetric and transitive. */
  lemma {:induction false} CompareToTotalOrder(a: Timeslot, b: Timeslot, c: Timeslot)
    ensures CompareTo(a, b) == -CompareTo(b, a)
    ensures CompareTo(a, b) < 0 && CompareTo(b, c) < 0 ==> CompareTo(a, c) < 0
  {
  }

  // ---------------------------------------------------------------------
  // Containment and overlap

  /** `slot.contains(time)`: both ends inclusive. */
  function ContainsTime(s: Timeslot, t: T.Time): (b: bool)
    ensures b <==> s.start.globalMinutes <= t.globalMinutes <= s.end.globalMinutes
  {
    T.CompareTo(t, s.start) >= 0 && T.CompareTo(t, s.end) <= 0
  }

  /** `slot.contains(that)`: `that` lies within `s`, ends inclusive. */
  function ContainsSlot(s: Timeslot, that: Timeslot): (b: bool)
    ensures b <==> s.start.globalMinutes <= that.start.globalMinutes && that.end.globalMinutes <= s.end.globalMinutes
  {
    T.CompareTo(s.start, that.start) <= 0 && T.CompareTo(s.end, that.end) >= 0
  }

  /** `slot.overlaps(that)`: the two share more than an end point. */
  function Overlaps(s: Timeslot, that: Timeslot): (b: bool)
    ensures b <==> s.start.globalMinutes < that.end.globalMinutes && that.start.globalMinutes < s.end.globalMinutes
  {
    T.CompareTo(s.start, that.end) < 0 && T.CompareTo(s.end, that.start) > 0
  }

  /** Overlap is symmetric, and slots that touch at an end point do not
      overlap. */
  lemma OverlapsSymmetric(a: Timeslot, b: Timeslot)
    ensures Overlaps(a, b) == Overlaps(b, a)
    ensures a.end == b.start && WellFormed(a) ==> !Overlaps(a, b)
  {
  }

  /** For slots of positive length, overlap means the intersection has
      positive length: the later start comes before the earlier end. */
  lemma OverlapsIntersection(a: Timeslot, b: Timeslot)
    requires Duration(a) > 0 && Duration(b) > 0
    ensures var lo := if a.start.globalMinutes < b.start.globalMinutes then b.start.globalMinutes else a.start.globalMinutes;
      var hi := if a.end.globalMinutes < b.end.globalMinutes then a.end.globalMinutes else b.end.globalMinutes;
      Overlaps(a, b) <==> lo < hi
  {
  }

  /** A zero-length slot overlaps exactly the slots it lies strictly
      inside. */
  lemma PointOverlaps(a: Timeslot, b: Timeslot)
    requires a.start == a.end
    ensures Overlaps(a, b) <==> b.start.globalMinutes < a.start.globalMinutes < b.end.globalMinutes
  {
  }

  // ---------------------------------------------------------------------
  // Merge and split

  /** `Timeslot.mergeTimeslotIntersection(container, timeslot)`. Disjoint
      slots are rejected. When one contains the other, the result is the
      inner slot and the positive-length pieces of the outer slot before
      and after it; otherwise it is a copy of `timeslot` and the piece of
      it that lies outside `container`. */
  function MergeTimeslotIntersection(container: Timeslot, timeslot: Timeslot): (r: Result<(Timeslot, seq<Timeslot>)>)
    ensures r.Ok? <==> Overlaps(container, timeslot)
    ensures r.Ok? && ContainsSlot(container, timeslot) ==> r.value.0 == timeslot
    ensures r.Ok? && !ContainsSlot(container, timeslot) && ContainsSlot(timeslot, container) ==> r.value.0 == container
    ensures r.Ok? && !ContainsSlot(container, timeslot) && !ContainsSlot(timeslot, container) ==>
      r.value.0 == timeslot && |r.value.1| == 1
  {
    if !Overlaps(container, timeslot) then Err(TimeslotsDoNotOverlap)
    else if ContainsSlot(container, timeslot) || ContainsSlot(timeslot, container) then
      var inner := if ContainsSlot(container, timeslot) then timeslot else container;
      var outer := if ContainsSlot(container, timeslot) then container else timeslot;
      Ok((inner, OuterPieces(outer, inner)))
    else
      var merged := Timeslot(timeslot.start, timeslot.end);
      var tail := if T.IsAfter(timeslot.start, container.start) then [Timeslot(container.end, timeslot.end)] else [];
      var head := if T.IsBefore(timeslot.end, container.end) then [Timeslot(timeslot.start, container.start)] else [];
      Ok((merged, tail + head))
  }

  /** The sum of the slots' durations. */
  function TotalDuration(slots: seq<Timeslot>): int
  {
    if |slots| == 0 then 0 else Duration(slots[0]) + TotalDuration(slots[1..])
  }

  /** The positive-length pieces of `outer` before and after `inner`. */
  function OuterPieces(outer: Timeslot, inner: Timeslot): seq<Timeslot>
  {
    var before := Timeslot(outer.start, inner.start);
    var after := Timeslot(inner.end, outer.end);
    (if Duration(before) > 0 then [before] else []) + (if Duration(after) > 0 then [after] else [])
  }

  /** The leftovers of a slot within another have positive length, lie
      within the outer slot and overlap neither the inner slot nor each
      other, and with the inner slot their lengths add up to the outer
      slot's. */
  lemma OuterPiecesPartition(outer: Timeslot, inner: Timeslot)
    requires WellFormed(inner) && ContainsSlot(outer, inner)
    ensures var rest := OuterPieces(outer, inner);
      |rest| <= 2
      && (forall i :: 0 <= i < |rest| ==>
            Duration(rest[i]) > 0 && WellFormed(rest[i]) && ContainsSlot(outer, rest[i]) && !Overlaps(rest[i], inner))
      && (forall i, j :: 0 <= i < j < |rest| ==> !Overlaps(rest[i], rest[j]))
      && Duration(inner) + TotalDuration(rest) == Duration(outer)
  {
    var before := Timeslot(outer.start, inner.start);
    var after := Timeslot(inner.end, outer.end);
    assert ContainsSlot(outer, before) && !Overlaps(before, inner);
    assert ContainsSlot(outer, after) && !Overlaps(after, inner);
    assert !Overlaps(before, after);
    var rest := OuterPieces(outer, inner);
    TotalDurationSmall(rest);
    if Duration(before) > 0 && Duration(after) > 0 {
      assert rest == [before, after];
    } else if Duration(before) > 0 {
      assert rest == [before];
    } else if Duration(after) > 0 {
      assert rest == [after];
    } else {
      assert rest == [];
    }
  }

  /** The total length of no, one or two slots. */
  lemma TotalDurationSmall(slots: seq<Timeslot>)
    ensures |slots| == 0 ==> TotalDuration(slots) == 0
    ensures |slots| == 1 ==> TotalDuration(slots) == Duration(slots[0])
    ensures |slots| == 2 ==> TotalDuration(slots) == Duration(slots[0]) + Duration(slots[1])
  {
    if |slots| == 2 {
      assert TotalDuration(slots[1..]) == Duration(slots[1]) + TotalDuration(slots[2..]);
    }
  }

  /** In the containment case, the inner slot and the leftovers partition
      the outer slot (see `OuterPieces`). */
  lemma MergePartitionsContainer(container: Timeslot, timeslot: Timeslot)
    requires WellFormed(container) && WellFormed(timeslot)
    requires Overlaps(container, timeslot)
    requires ContainsSlot(container, timeslot) || ContainsSlot(timeslot, container)
    ensures var (inner, rest) := MergeTimeslotIntersection(container, timeslot).value;
      var outer := if ContainsSlot(container, timeslot) then container else timeslot;
      |rest| <= 2
      && (forall i :: 0 <= i < |rest| ==>
            Duration(rest[i]) > 0 && WellFormed(rest[i]) && ContainsSlot(outer, rest[i]) && !Overlaps(rest[i], inner))
      && (forall i, j :: 0 <= i < j < |rest| ==> !Overlaps(rest[i], rest[j]))
      && Duration(inner) + TotalDuration(rest) == Duration(outer)
  {
    if ContainsSlot(container, timeslot) {
      OuterPiecesPartition(container, timeslot);
    } else {
      OuterPiecesPartition(timeslot, container);
    }
  }

  /** In the partial-overlap case the single leftover lies within the
      second argument and does not overlap the container, and it starts or
      ends where the container does. */
  lemma MergePartialLeftover(container: Timeslot, timeslot: Timeslot)
    requires Overlaps(container, timeslot)
    requires !ContainsSlot(container, timeslot) && !ContainsSlot(timeslot, container)
    ensures var rest := MergeTimeslotIntersection(container, timeslot).value.1;
      |rest| == 1 && ContainsSlot(timeslot, rest[0]) && !Overlaps(rest[0], container)
      && (rest[0].start == container.end || rest[0].end == container.start)
      && Duration(rest[0]) > 0
  {
  }

  /** `Timeslot.split(slot, limits)`: consecutive pieces from `slot.start`
      through each limit, in the given order, to `slot.end`. */
  method Split(s: Timeslot, timeLimits: seq<T.Time>) returns (result: seq<Timeslot>)
    ensures Chained(result)
    ensures |result| == |timeLimits| + 1
    ensures result[0].start == s.start && result[|result| - 1].end == s.end
    ensures forall i :: 0 <= i < |timeLimits| ==> result[i].end == timeLimits[i]
  {
    var times := timeLimits + [s.end];
    result := [];
    var acc := s.start;
    var i := 0;
    while i < |times|
      invariant 0 <= i <= |times|
      invariant |result| == i
      invariant Chained(result)
      invariant i > 0 ==> result[0].start == s.start
      invariant acc == if i == 0 then s.start else result[i - 1].end
      invariant forall k :: 0 <= k < i ==> result[k].end == times[k]
    {
      var curr := times[i];
      result := result + [Timeslot(acc, curr)];
      acc := curr;
      i := i + 1;
    }
  }

  /** Each piece ends where the next one starts. */
  predicate Chained(slots: seq<Timeslot>)
  {
    forall i :: 0 <= i < |slots| - 1 ==> slots[i].end == slots[i + 1].start
  }

  /** The durations of chained pieces add up to the span from the first
      start to the last end; so the pieces of a split cover the slot. */
  lemma {:induction false} ChainedDuration(slots: seq<Timeslot>)
    requires |slots| >= 1 && Chained(slots)
    ensures TotalDuration(slots) == slots[|slots| - 1].end.globalMinutes - slots[0].start.globalMinutes
  {
    if |slots| > 1 {
      ChainedDuration(slots[1..]);
    } else {
      assert slots[1..] == [];
    }
  }

  /** `Timeslot.numberOfSlotsInRange(range, timeSlot)`: zero when the slot
      size or the range's length is not a multiple of five, or the size is
      not below the length; otherwise how many slots of that size make up
      the range. `None` stands for a quotient that is not an integer. */
  function NumberOfSlotsInRange(range: Timeslot, timeSlot: int): (r: Option<int>)
    ensures var d := Duration(range);
      (timeSlot % 5 != 0 || d % 5 != 0 || timeSlot >= d) ==> r == Some(0)
    ensures var d := Duration(range);
      !(timeSlot % 5 != 0 || d % 5 != 0 || timeSlot >= d) ==>
        (r.Some? <==> timeSlot != 0 && d % timeSlot == 0)
        && (r.Some? ==> r.value * timeSlot == d)
  {
    var d := Duration(range);
    if timeSlot % 5 != 0 || d % 5 != 0 || timeSlot >= d then Some(0)
    else if timeSlot != 0 && d % timeSlot == 0 then Some(d / timeSlot)
    else None
  }

  /** For an ordered range and a positive slot size, a non-zero count means
      at least two slots that exactly fill the range. */
  lemma SlotsFillRange(range: Timeslot, timeSlot: int)
    requires timeSlot > 0
    requires NumberOfSlotsInRange(range, timeSlot).Some? && NumberOfSlotsInRange(range, timeSlot).value != 0
    ensures NumberOfSlotsInRange(range, timeSlot).value >= 2
    ensures NumberOfSlotsInRange(range, timeSlot).value * timeSlot == Duration(range)
  {
  }
}
