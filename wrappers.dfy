/** Failure-carrying results. Every exception the library throws becomes an
    `Err` carrying a tag that names the kind of failure; the message text the
    library formats for a human is not modelled. */
module Wrappers {

  datatype Option<+T> = None | Some(value: T)

  /** The kinds of failure the library raises, one per throw site family. */
  datatype ErrorKind =
    | InvalidTimeValue          // computeMinutes / totalMinutesTo* guards
    | InvalidTimeFormat         // Time.fromString shape checks
    | InvalidTimeslotRange      // Timeslot constructor: start after end
    | InvalidTimeslotFormat     // Timeslot.fromString shape / order checks
    | TimeslotsDoNotOverlap     // mergeTimeslotIntersection on disjoint slots
    | OverlappingTimeslots      // series set / fromString overlap checks
    | EmptyInput                // series fromString on ''
    | EmptySeries               // first / last on an empty series
    | NoContainingFreeTimeslot  // Day.insert without a free container
    | RuntimeTypeError          // JavaScript TypeError: a member read on undefined

  datatype Result<+T> = Ok(value: T) | Err(error: ErrorKind) {
    predicate IsFailure() { Err? }

    function PropagateFailure<U>(): Result<U>
      requires Err?
    {
      Err(error)
    }

    function Extract(): T
      requires Ok?
    {
      value
    }
  }

  /** The values of the results when every one is `Ok`; the first error
      otherwise, as a loop that stops at the first throw gives. */
  function AllOk<T>(rs: seq<Result<T>>): (r: Result<seq<T>>)
    ensures r.Ok? <==> forall i :: 0 <= i < |rs| ==> rs[i].Ok?
    ensures r.Ok? ==> |r.value| == |rs| && forall i :: 0 <= i < |rs| ==> r.value[i] == rs[i].value
  {
    if |rs| == 0 then Ok([])
    else
      var head :- rs[0];
      var tail :- AllOk(rs[1..]);
      assert forall i :: 1 <= i < |rs| ==> rs[i] == rs[1..][i - 1];
      Ok([head] + tail)
  }

  /** The error `AllOk` reports is the first one. */
  lemma {:induction false} AllOkFirstError<T>(rs: seq<Result<T>>, i: int)
    requires 0 <= i < |rs| && rs[i].Err? && forall j :: 0 <= j < i ==> rs[j].Ok?
    ensures AllOk(rs) == Err(rs[i].error)
  {
    if i > 0 {
      assert forall j :: 0 <= j < i - 1 ==> rs[1..][j] == rs[j + 1];
      AllOkFirstError(rs[1..], i - 1);
    }
  }

  /** The outcome of an operation that changes state and returns no value
      (the library returns `this` for chaining). */
  datatype Outcome = Pass | Fail(error: ErrorKind)
}
