/** `Time`: an immutable time of day with minute resolution, stored as the
    number of minutes since midnight. */
module TimeOfDay {
  import opened Wrappers
  import opened Constants
  import opened Strings
  import TimeUtil

  /** A minute of the day: every `Time` the constructors let through lies in
      this range, because `computeMinutes` guards each of them. */
  type DayMinute = m: int | 0 <= m < MINUTES_DAY

  datatype Time = Time(globalMinutes: DayMinute)

  /** The `{ hours, minutes }` record `toJSON` produces and one of the
      constructors accepts. */
  datatype TimeSerializable = TimeSerializable(hours: int, minutes: int)

  // ---------------------------------------------------------------------
  // Construction

  /** `new Time(hours, minutes)`, the minutes defaulting to 0. */
  function FromHours(hours: int, minutes: int := 0): (r: Result<Time>)
    ensures r.Ok? <==> 0 <= hours < DAY_HOURS && 0 <= minutes < HOUR_MINUTES
    ensures r.Ok? ==> Hours(r.value) == hours && Minutes(r.value) == minutes
  {
    var g :- TimeUtil.ComputeMinutes(hours, minutes);
    Ok(Time(g))
  }

  /** `new Time({ hours, minutes })`. */
  function FromSerializable(value: TimeSerializable): (r: Result<Time>)
    ensures r.Ok? <==> 0 <= value.hours < DAY_HOURS && 0 <= value.minutes < HOUR_MINUTES
    ensures r.Ok? ==> ToJSON(r.value) == value
  {
    FromHours(value.hours, value.minutes)
  }

  // ---------------------------------------------------------------------
  // Getters

  /** `time.hours`. */
  function Hours(t: Time): (h: int)
    ensures 0 <= h < DAY_HOURS
    ensures h == t.globalMinutes / HOUR_MINUTES
  {
    TimeUtil.RecomposeWithinDay(t.globalMinutes);
    TimeUtil.TotalMinutesToTimeHours(t.globalMinutes).value
  }

  /** `time.minutes`. */
  function Minutes(t: Time): (m: int)
    ensures 0 <= m < HOUR_MINUTES
    ensures Hours(t) * HOUR_MINUTES + m == t.globalMinutes
  {
    TimeUtil.TotalMinutesToTimeMinutes(t.globalMinutes).value
  }

  /** `time.totalMinutes`. */
  function TotalMinutes(t: Time): (n: int)
    ensures 0 <= n < MINUTES_DAY
    ensures n == Hours(t) * HOUR_MINUTES + Minutes(t)
  {
    t.globalMinutes
  }

  // ---------------------------------------------------------------------
  // Serialisation

  /** `time.toJSON()`; the record it gives builds the same time again. */
  function ToJSON(t: Time): (v: TimeSerializable)
    ensures 0 <= v.hours < DAY_HOURS && 0 <= v.minutes < HOUR_MINUTES
    ensures v.hours * HOUR_MINUTES + v.minutes == t.globalMinutes
  {
    TimeSerializable(Hours(t), Minutes(t))
  }

  /** `time.toString()`: `HH:MM`, both parts zero-padded to two digits. */
  function ToString(t: Time): (s: string)
    ensures |s| == 5 && s[2] == TIME_SEPARATOR
    ensures AllDigits(s[..2]) && AllDigits(s[3..])
  {
    TwoDigits(Hours(t)) + [TIME_SEPARATOR] + TwoDigits(Minutes(t))
  }

  /** `Time.fromString(value)`: exactly one separator, two characters on
      either side, both parts read by `parseInt`, neither negative, and
      the reading a valid clock time. */
  function FromString(value: string): (r: Result<Time>)
    ensures var parts := Split(value, TIME_SEPARATOR);
      r.Ok? <==>
        |parts| == 2 && |parts[0]| == 2 && |parts[1]| == 2
        && ParseInt(parts[0]).Some? && ParseInt(parts[1]).Some?
        && 0 <= ParseInt(parts[0]).value < DAY_HOURS
        && 0 <= ParseInt(parts[1]).value < HOUR_MINUTES
    ensures r.Ok? ==>
      var parts := Split(value, TIME_SEPARATOR);
      Hours(r.value) == ParseInt(parts[0]).value && Minutes(r.value) == ParseInt(parts[1]).value
  {
    var parts := Split(value, TIME_SEPARATOR);
    if |parts| != 2 then Err(InvalidTimeFormat)
    else if |parts[0]| != 2 || |parts[1]| != 2 then Err(InvalidTimeFormat)
    else
      match ParseInt(parts[0])
      case None => Err(InvalidTimeFormat)
      case Some(hours) =>
        match ParseInt(parts[1])
        case None => Err(InvalidTimeFormat)
        case Some(minutes) =>
          if hours < 0 || minutes < 0 then Err(InvalidTimeFormat)
          else FromSerializable(TimeSerializable(hours, minutes))
  }

  /** Every time reads back from its string form. */
  lemma StringRoundTrip(t: Time)
    ensures FromString(ToString(t)) == Ok(t)
  {
    ToStringSplits(t);
    PaddedTwoDigits(Hours(t));
    PaddedTwoDigits(Minutes(t));
  }

  /** A time's string splits at its one `:` into the two padded parts. */
  lemma ToStringSplits(t: Time)
    ensures Split(ToString(t), TIME_SEPARATOR) == [TwoDigits(Hours(t)), TwoDigits(Minutes(t))]
  {
    var hs := TwoDigits(Hours(t));
    var ms := TwoDigits(Minutes(t));
    assert ToString(t) == hs + [TIME_SEPARATOR] + ms;
    assert TIME_SEPARATOR !in hs && TIME_SEPARATOR !in ms;
    SplitFirstSeparator(hs, TIME_SEPARATOR, ms);
    SplitNoSeparator(ms, TIME_SEPARATOR);
  }

  /** A well-formed `HH:MM` string that parses is the string form of the
      time it parses to. */
  lemma CanonicalStringRoundTrip(s: string)
    requires |s| == 5 && s[2] == TIME_SEPARATOR && AllDigits(s[..2]) && AllDigits(s[3..])
    requires FromString(s).Ok?
    ensures ToString(FromString(s).value) == s
  {
    var hs, ms := s[..2], s[3..];
    assert s == hs + [TIME_SEPARATOR] + ms;
    assert TIME_SEPARATOR !in hs && TIME_SEPARATOR !in ms;
    SplitFirstSeparator(hs, TIME_SEPARATOR, ms);
    SplitNoSeparator(ms, TIME_SEPARATOR);
    assert Split(s, TIME_SEPARATOR) == [hs, ms];
    PaddedDecimalOfDigits(hs);
    PaddedDecimalOfDigits(ms);
    var t := FromString(s).value;
    assert Hours(t) == DecimalValue(hs) && Minutes(t) == DecimalValue(ms);
    assert TwoDigits(Hours(t)) == hs && TwoDigits(Minutes(t)) == ms;
  }

  /** Every time reads back from its serialised record. */
  lemma JsonRoundTrip(t: Time)
    ensures FromSerializable(ToJSON(t)) == Ok(t)
  {
  }

  // ---------------------------------------------------------------------
  // Comparison

  /** `time.compareTo(that)`: negative, zero or positive as `t` comes
      before, at or after `that` within the day. */
  function CompareTo(t: Time, that: Time): (c: int)
    ensures c < 0 <==> t.globalMinutes < that.globalMinutes
    ensures c == 0 <==> t == that
  {
    t.globalMinutes - that.globalMinutes
  }

  /** `time.isBefore(that)`: strictly earlier in the day. */
  predicate IsBefore(t: Time, that: Time): (b: bool)
    ensures b <==> t.globalMinutes < that.globalMinutes
  {
    CompareTo(t, that) < 0
  }

  /** `time.isAfter(that)`: strictly later in the day. */
  predicate IsAfter(t: Time, that: Time): (b: bool)
    ensures b <==> that.globalMinutes < t.globalMinutes
  {
    CompareTo(t, that) > 0
  }

  /** `time.equals(that)`: equality of the minute of the day, which is
      equality of the values. */
  function Equals(t: Time, that: Time): (b: bool)
    ensures b <==> t == that
  {
    t.globalMinutes == that.globalMinutes
  }

  /** The three comparisons form a strict total order. */
  lemma TotalOrder(a: Time, b: Time, c: Time)
    ensures IsBefore(a, b) || Equals(a, b) || IsAfter(a, b)
    ensures !(IsBefore(a, b) && IsAfter(a, b))
    ensures IsBefore(a, b) <==> IsAfter(b, a)
    ensures CompareTo(a, b) == -CompareTo(b, a)
    ensures IsBefore(a, b) && IsBefore(b, c) ==> IsBefore(a, c)
  {
  }

  // ---------------------------------------------------------------------
  // Arithmetic

  /** `Time.fromMinutes(totalMinutes)`: the count modulo one day, except
      that a negative count and the hour from 24:00 to 24:59 (which the
      hour helper keeps as 24) are rejected. */
  function FromMinutes(totalMinutes: int): (r: Result<Time>)
    ensures r.Ok? <==> totalMinutes >= 0 && totalMinutes / HOUR_MINUTES != DAY_HOURS
    ensures r.Ok? ==> r.value.globalMinutes == totalMinutes % MINUTES_DAY
  {
    if totalMinutes < 0 then Err(InvalidTimeValue)
    else
      var hours := TimeUtil.TotalMinutesToTimeHours(totalMinutes).value;
      var minutes := TimeUtil.TotalMinutesToTimeMinutes(totalMinutes).value;
      if totalMinutes < MINUTES_DAY then
        TimeUtil.RecomposeWithinDay(totalMinutes);
        FromHours(hours, minutes)
      else if totalMinutes / HOUR_MINUTES == DAY_HOURS then
        TimeUtil.RecomposeOverflow(totalMinutes);
        FromHours(hours, minutes)
      else
        TimeUtil.RecomposeBeyondDay(totalMinutes);
        FromHours(hours, minutes)
  }

  /** `time.add(minutes)`: the time that many minutes later, wrapping
      around midnight, except that it fails when the sum is negative or
      lands between 24:00 and 24:59. */
  function Add(t: Time, minutes: int): (r: Result<Time>)
    ensures var sum := t.globalMinutes + minutes;
      r.Ok? <==> sum >= 0 && !(MINUTES_DAY <= sum < MINUTES_DAY + HOUR_MINUTES)
    ensures r.Ok? ==> r.value.globalMinutes == (t.globalMinutes + minutes) % MINUTES_DAY
  {
    FromMinutes(t.globalMinutes + minutes)
  }

  /** `time.sub(minutes)`: the time that many minutes earlier, wrapping
      around midnight once. It fails when the difference is exactly zero
      (the wrap then lands on 24:00), when more than a day before midnight
      is asked for, and from 24:00 to 24:59. */
  function Sub(t: Time, minutes: int): (r: Result<Time>)
    ensures var diff := t.globalMinutes - minutes;
      r.Ok? <==> (0 < diff && !(MINUTES_DAY <= diff < MINUTES_DAY + HOUR_MINUTES))
                 || (-MINUTES_DAY <= diff < 0)
    ensures r.Ok? ==> r.value.globalMinutes == (t.globalMinutes - minutes) % MINUTES_DAY
  {
    var diff := t.globalMinutes - minutes;
    var nextMinutes := if diff > 0 then diff else MINUTES_DAY + diff;
    assert nextMinutes % MINUTES_DAY == diff % MINUTES_DAY;
    FromMinutes(nextMinutes)
  }

  /** Adding an hour to 23:30 fails instead of giving 00:30, while adding
      a day and an hour gives 00:30. */
  lemma AddNearMidnight()
    ensures Add(Time(23 * 60 + 30), 60).Err?
    ensures Add(Time(23 * 60 + 30), 24 * 60 + 60) == Ok(Time(30))
  {
  }

  /** Subtracting down to exactly midnight fails: 09:15 minus 555 minutes. */
  lemma SubToMidnight()
    ensures Sub(Time(9 * 60 + 15), 9 * 60 + 15).Err?
    ensures Sub(Time(9 * 60 + 15), 9 * 60 + 15 + MINUTES_DAY) == Ok(Time(0))
  {
  }

  /** Subtracting what was added gives the original time back, unless the
      original time is midnight. */
  lemma SubUndoesAdd(t: Time, minutes: int)
    requires 0 < t.globalMinutes && 0 <= minutes
    requires Add(t, minutes).Ok?
    ensures Sub(Add(t, minutes).value, minutes % MINUTES_DAY) == Ok(t)
  {
    var u := Add(t, minutes).value.globalMinutes;
    var m := minutes % MINUTES_DAY;
    var k := minutes / MINUTES_DAY;
    var a := (t.globalMinutes + minutes) / MINUTES_DAY;
    assert minutes == MINUTES_DAY * k + m;
    assert t.globalMinutes + minutes == MINUTES_DAY * a + u;
    assert u - m == MINUTES_DAY * (k - a) + t.globalMinutes;
    TimeUtil.ModuloUnique(u - m, k - a, t.globalMinutes);
  }

  /** A whole day subtracted leaves every time unchanged; a whole day
      added does so from 01:00 on and fails before it. */
  lemma WholeDay(t: Time)
    ensures Sub(t, MINUTES_DAY) == Ok(t)
    ensures Add(t, MINUTES_DAY) == (if t.globalMinutes < HOUR_MINUTES then Err(InvalidTimeValue) else Ok(t))
  {
  }
}
