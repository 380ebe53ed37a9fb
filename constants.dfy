/** The library's separators and calendar constants. The constants file of
    the repository is not part of this model; these values are the ones its
    tests and serialised examples use. */
module Constants {
  /** Between hours and minutes: `HH:MM`. */
  const TIME_SEPARATOR: char := ':'
  /** Between the two ends of a timeslot: `HH:MM-HH:MM`. */
  const INTERVAL_TIME_SEPARATOR: char := '-'
  /** Between the timeslots of a series or a day. */
  const TIMESLOT_SERIES_SEPARATOR: char := ','
  /** Between a day's index and its timeslots: `1;08:00-12:00`. */
  const DAY_TIME_SEPARATOR: char := ';'
  const HOUR_MINUTES: int := 60
  const DAY_HOURS: int := 24
  const MINUTES_DAY: int := 1440
  /** Between the seven days of a serialised week; its value is not known
      to the model, so nothing depends on it. */
  const WEEK_SEPARATOR: string
}
