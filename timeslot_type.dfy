/** `isSlotAvailable`, the one function of the timeslot type definitions:
    whether `slot` ends no later than `range` ends plus an allowance. The
    allowance goes through `Time.add`, so the comparison inherits its wrap at
    midnight and its failure just past it. */
module TimeslotType {
  import opened Wrappers
  import opened Constants
  import T = TimeOfDay
  import opened Timeslots

  function IsSlotAvailable(slot: Timeslot, range: Timeslot, allowedMinutesOverflow: int): (r: Result<bool>)
    ensures var sum := range.end.globalMinutes + allowedMinutesOverflow;
      r.Ok? <==> sum >= 0 && !(MINUTES_DAY <= sum < MINUTES_DAY + HOUR_MINUTES)
    ensures var sum := range.end.globalMinutes + allowedMinutesOverflow;
      r.Ok? ==> (r.value <==> sum % MINUTES_DAY >= slot.end.globalMinutes)
  {
    var limit :- T.Add(range.end, allowedMinutesOverflow);
    Ok(T.CompareTo(limit, slot.end) >= 0)
  }

  /** Without an allowance it compares the two ends. */
  lemma NoOverflow(slot: Timeslot, range: Timeslot)
    ensures IsSlotAvailable(slot, range, 0) == Ok(slot.end.globalMinutes <= range.end.globalMinutes)
  {
  }

  /** While the allowance stays within the day, it is the plain
      comparison the name suggests. */
  lemma WithinDay(slot: Timeslot, range: Timeslot, allowedMinutesOverflow: int)
    requires 0 <= range.end.globalMinutes + allowedMinutesOverflow < MINUTES_DAY
    ensures IsSlotAvailable(slot, range, allowedMinutesOverflow)
      == Ok(slot.end.globalMinutes <= range.end.globalMinutes + allowedMinutesOverflow)
  {
  }

  /** A range ending at 23:50 with an allowance of 10 to 69 minutes makes the
      check fail: the sum lands on the 24th hour, which `add` rejects. */
  lemma FailsJustPastMidnight(slot: Timeslot, range: Timeslot, allowedMinutesOverflow: int)
    requires range.end == T.Time(23 * 60 + 50)
    requires 10 <= allowedMinutesOverflow < 70
    ensures IsSlotAvailable(slot, range, allowedMinutesOverflow).Err?
  {
  }

  /** A larger allowance wraps round midnight, so a slot ending at 23:30 is
      reported unavailable in a range ending at 23:00 with two hours to
      spare. */
  lemma WrapsDespiteAllowance(slot: Timeslot, range: Timeslot)
    requires range.end == T.Time(23 * 60) && slot.end == T.Time(23 * 60 + 30)
    ensures IsSlotAvailable(slot, range, 120) == Ok(false)
  {
  }

  /** Only the two ends and the allowance matter. */
  lemma DependsOnlyOnEnds(slot: Timeslot, range: Timeslot, slot': Timeslot, range': Timeslot, allowedMinutesOverflow: int)
    requires slot.end == slot'.end && range.end == range'.end
    ensures IsSlotAvailable(slot, range, allowedMinutesOverflow) == IsSlotAvailable(slot', range', allowedMinutesOverflow)
  {
  }
}
