/** The guard-then-arithmetic helpers behind `Time`: composing hours and
    minutes into minutes since midnight, and taking a minute count apart. */
module TimeUtil {
  import opened Wrappers
  import opened Constants

  /** `computeMinutes(hours, minutes)`: minutes since midnight of a valid
      clock reading, or a failure when either component is out of range. */
  function ComputeMinutes(hours: int, minutes: int): (r: Result<int>)
    ensures r.Ok? <==> 0 <= hours < DAY_HOURS && 0 <= minutes < HOUR_MINUTES
    ensures r.Ok? ==> 0 <= r.value < MINUTES_DAY
    ensures r.Ok? ==> r.value / HOUR_MINUTES == hours && r.value % HOUR_MINUTES == minutes
  {
    if hours < 0 || hours >= DAY_HOURS then Err(InvalidTimeValue)
    else if minutes < 0 || minutes >= HOUR_MINUTES then Err(InvalidTimeValue)
    else Ok(hours * HOUR_MINUTES + minutes)
  }

  /** `totalMinutesToTimeHours(num)`: the hour a minute count falls in,
      reduced modulo 24 only when it exceeds 24, so that 24 itself is kept. */
  function TotalMinutesToTimeHours(num: int): (r: Result<int>)
    ensures r.Ok? <==> num >= 0
    ensures r.Ok? ==> 0 <= r.value <= DAY_HOURS
    ensures r.Ok? ==> r.value % DAY_HOURS == (num / HOUR_MINUTES) % DAY_HOURS
    ensures r.Ok? ==> (r.value == DAY_HOURS <==> num / HOUR_MINUTES == DAY_HOURS)
  {
    if num < 0 then Err(InvalidTimeValue)
    else
      var hours := num / HOUR_MINUTES;
      Ok(if hours > DAY_HOURS then hours % DAY_HOURS else hours)
  }

  /** `totalMinutesToTimeMinutes(num)`: the minute within the hour. */
  function TotalMinutesToTimeMinutes(num: int): (r: Result<int>)
    ensures r.Ok? <==> num >= 0
    ensures r.Ok? ==> 0 <= r.value < HOUR_MINUTES && (num - r.value) % HOUR_MINUTES == 0
  {
    if num < 0 then Err(InvalidTimeValue) else Ok(num % HOUR_MINUTES)
  }

  /** Past 24:59 the hour helper wraps, and composing again gives the
      count modulo one day. */
  lemma RecomposeBeyondDay(n: int)
    requires n / HOUR_MINUTES > DAY_HOURS
    ensures TotalMinutesToTimeHours(n).Ok? && TotalMinutesToTimeMinutes(n).Ok?
    ensures ComputeMinutes(TotalMinutesToTimeHours(n).value, TotalMinutesToTimeMinutes(n).value) == Ok(n % MINUTES_DAY)
  {
    var q := n / HOUR_MINUTES;
    var r := n % HOUR_MINUTES;
    var a := q / DAY_HOURS;
    var b := q % DAY_HOURS;
    assert TotalMinutesToTimeHours(n).value == b;
    assert n == HOUR_MINUTES * q + r;
    assert q == DAY_HOURS * a + b;
    assert n == MINUTES_DAY * a + (HOUR_MINUTES * b + r);
    ModuloUnique(n, a, HOUR_MINUTES * b + r);
  }

  /** A remainder below one day is the count modulo one day. */
  lemma ModuloUnique(n: int, k: int, x: int)
    requires 0 <= x < MINUTES_DAY && n == MINUTES_DAY * k + x
    ensures n % MINUTES_DAY == x
  {
  }

  /** Taking a minute of the day apart and composing it again is the
      identity. */
  lemma RecomposeWithinDay(n: int)
    requires 0 <= n < MINUTES_DAY
    ensures TotalMinutesToTimeHours(n).Ok? && TotalMinutesToTimeMinutes(n).Ok?
    ensures ComputeMinutes(TotalMinutesToTimeHours(n).value, TotalMinutesToTimeMinutes(n).value) == Ok(n)
  {
    assert TotalMinutesToTimeHours(n).value == n / HOUR_MINUTES;
  }

  /** Between 24:00 and 24:59 the hour helper answers 24, which composing
      again rejects. */
  lemma RecomposeOverflow(n: int)
    requires MINUTES_DAY <= n < MINUTES_DAY + HOUR_MINUTES
    ensures TotalMinutesToTimeHours(n) == Ok(DAY_HOURS)
    ensures ComputeMinutes(TotalMinutesToTimeHours(n).value, TotalMinutesToTimeMinutes(n).value).Err?
  {
    assert n / HOUR_MINUTES == DAY_HOURS;
  }
}
