# week-data-structure, modelled in Dafny

This project models the core of week-data-structure, a TypeScript library for organising a week into time slots:

- A **`Time`** is an immutable time of day with minute resolution. It has clock, record and string forms, comparison, and `add`/`sub` with their wrap-around at midnight.
- A **`Timeslot`** is an immutable pair of times. It supports durations, ordering, containment, overlap, merging a slot into a container, and splitting.
- A **timeslot series** is a JavaScript `Map` from slot strings to slots. It comes in two revisions:
  - the older `TimeslotSerie`, whose `set` rejects overlap;
  - the newer `TimeslotSeries`, whose overlap check sits behind an option flag.
  
  Both offer `first`/`last`, `contains`, `overlapsWith`, the gaps between the slots (`getEmptyTimeslots`), string and record round trips, and `replace`.
- A **`Day`** is a `Map` from slot strings to a task or `null`, labelled with a day of the week. `insert` books a task into the free slot that contains the requested slot and splits the free slot around it; `empty` lists the gaps.
- A **`Week`** is a `Map` from the seven day labels to days, built from per-day records, from one day, or from one series.

The pure parts (time arithmetic and timeslot algebra, parsing, printing and ordering) are functions with lemmas. The three `Map` subclasses are Dafny classes:
- their entries are a `seq` field that the methods reassign;
- their loops (`getEmptyTimeslots`, the constructor loops, `split`, `insert`'s leftovers, the week's per-day loops) are `while` loops with invariants;
- each method's contract ties the new state to a specification function, and lemmas state the properties of those functions.

JavaScript `Map` semantics are modelled in `OrderedMaps`:
- entries are kept in insertion order;
- `set` on a present key replaces the value in place; on a new key it appends;
- `new Map(pairs)` calls the (possibly overridden) `set` once per pair.

A thrown exception becomes an `Err` that carries a tag naming the kind of failure.

Modules: `Constants`, `Wrappers`, `Strings` (split, join, `parseInt`, decimal printing, `padStart`), `OrderedMaps`, `TimeUtil`, `TimeOfDay`, `Timeslots`, `TimeslotType`, `SeriesUtil`, `SlotOrder` (sorting by `compareTo`), `SeriesCore` (what both series revisions share), `Serie`, `Series`, `Days`, `Weeks`.

## Where the code does not do what it appears to

In every case below, the model follows the code.

- **The old `TimeslotSerie.fromString` rejects overlapping segments.** Its body has no overlap check, but the `Map` constructor it ends in calls the overridden `set`, which throws on overlap. A segment given twice collapses into one entry instead (`Serie.FromStringRejectsOverlap`, `Serie.FromStringCollapsesDuplicate`).
- **In the new `TimeslotSeries`, setting the slots the constructor was given never checks overlap.** During `super(...)` the options field is still unassigned. Only `fromString`'s own pairwise check rejects overlap (`Series.BuildCanonical`, `Series.FromStringRejectsOverlap`).
- **With `enforceOverlappingCheck` on, `TimeslotSeries.set` always throws.** When something overlaps, it throws the overlap error. When nothing overlaps, it throws a `TypeError` instead, because it reads a field of the `undefined` that `find` returned (`Series.EnforcedSetAlwaysFails`). `replace` under the flag therefore always loses the replaced slot (`Series.EnforcedReplaceLosesSlot`).
- **`fromArray` (both revisions) stores no options**, whatever options it is given. It builds through the constructor's `Map` branch (`Serie.TimeslotSerie.FromArray`, `Series.TimeslotSeries.FromArray`).
- **`new Day(label)` sets no day.** A label is not one of the branches the constructor tests, so it falls through to the last branch. That branch stores only the options (`Days.InitialState`).
- **`Day.delete(slot)` with a `Timeslot` argument deletes nothing.** It calls `Timeslot.toString()` on the class (giving the class's source text) rather than on the slot (`Days.DeleteSlotRemovesNothing`).
- **`Day.insert` of a zero-length slot at an end of its free container loses the container.** The container is deleted, then `mergeTimeslotIntersection` throws (`Days.InsertLosesContainer`, `Days.ZeroLengthInsertExample`).
- **`Time.add` and `Time.sub` fail in these cases:**
  - `add` fails when the sum lands between 24:00 and 24:59, because `totalMinutesToTimeHours` keeps 24 there. So 23:30 plus an hour fails.
  - `sub` fails when the difference is exactly zero.
  
  (`TimeOfDay.AddNearMidnight`, `TimeOfDay.SubToMidnight`.)
- **`new Timeslot(start)` fails from 23:55 on.** This follows from the `add` failure (`Timeslots.FromStart`).

## Model

A day is called *tiled* below when every key reads as a slot and no two of those slots overlap (`Days.ReadableDisjoint`). Covering a span without holes is a separate statement (`SeriesCore.GapsTile`, `Days.AfterInsertTiling`).

| member | source | states |
|---|---|---|
| TimeUtil.ComputeMinutes | src/util/time.util.ts:4-10 | succeeds exactly for hours in [0,24) and minutes in [0,60); the result is the minute of the day whose hour and minute parts are the arguments |
| TimeUtil.TotalMinutesToTimeHours | src/util/time.util.ts:12-16 | defined for non-negative counts; the hour is within [0,24], congruent to the count's hour modulo 24, and is 24 exactly when the count's hour is 24 |
| TimeUtil.TotalMinutesToTimeMinutes | src/util/time.util.ts:18-22 | defined for non-negative counts; the minute within the hour, differing from the count by whole hours |
| TimeUtil.RecomposeWithinDay | src/util/time.util.ts:4-22 | taking a minute of the day apart and composing it again gives it back |
| TimeUtil.RecomposeBeyondDay | src/util/time.util.ts:4-22 | past 24:59 the helpers wrap and recomposing gives the count modulo one day |
| TimeUtil.RecomposeOverflow | src/util/time.util.ts:4-22 | from 24:00 to 24:59 the hour helper answers 24 and recomposing fails |
| TimeOfDay.FromHours | src/time.ts:70-73 | `new Time(h, m)` succeeds exactly on a valid clock reading, and the time's getters give back h and m |
| TimeOfDay.FromSerializable | src/time.ts:75 | the record constructor succeeds exactly on a valid reading, and `toJSON` gives the record back |
| TimeOfDay.Hours | src/time.ts:236-238 | the hour is in [0,24) and is the minute of the day divided by 60 |
| TimeOfDay.Minutes | src/time.ts:244-246 | the minute is in [0,60) and hour*60+minute is the minute of the day |
| TimeOfDay.TotalMinutes | src/time.ts:228-230 | in [0,1440) and equal to hours*60+minutes |
| TimeOfDay.ToJSON | src/time.ts:105-110 | the record holds a valid reading that denotes the time |
| TimeOfDay.ToString | src/time.ts:82-86 | five characters `HH:MM`, digits on either side of `:` |
| TimeOfDay.FromString | src/time.ts:204-222 | succeeds exactly on one `:` with two characters on either side, both parsing by `parseInt`, neither negative, and forming a valid reading, which it is then |
| TimeOfDay.StringRoundTrip | src/time.ts:82-86 | every time reads back from its string |
| TimeOfDay.CanonicalStringRoundTrip | src/time.ts:204-222 | a well-formed `HH:MM` that parses is the string of the time it parses to |
| TimeOfDay.JsonRoundTrip | src/time.ts:105-110 | every time reads back from its record |
| TimeOfDay.CompareTo | src/time.ts:145-147 | negative exactly when earlier, zero exactly when equal |
| TimeOfDay.Equals | src/time.ts:126-128 | true exactly for equal times |
| TimeOfDay.IsBefore | src/time.ts:117-119 | true exactly when the time is earlier in the day |
| TimeOfDay.IsAfter | src/time.ts:135-137 | true exactly when the time is later in the day |
| TimeOfDay.TotalOrder | src/time.ts:117-147 | `isBefore`, `equals` and `isAfter` form a strict total order and `compareTo` is antisymmetric |
| TimeOfDay.FromMinutes | src/time.ts:162-167 | succeeds exactly for a non-negative count whose hour is not 24, giving the count modulo one day |
| TimeOfDay.Add | src/time.ts:174-180 | succeeds exactly when the sum is non-negative and not within 24:00-24:59, giving the sum modulo one day |
| TimeOfDay.Sub | src/time.ts:188-196 | succeeds exactly when the difference is positive and outside 24:00-24:59, or negative by at most one day; the result is the difference modulo one day |
| TimeOfDay.AddNearMidnight | src/time.ts:174-180 | 23:30 plus 60 minutes fails; plus a day and an hour gives 00:30 |
| TimeOfDay.SubToMidnight | src/time.ts:188-196 | 09:15 minus 555 minutes fails; minus that and a day gives 00:00 |
| TimeOfDay.SubUndoesAdd | src/time.ts:174-196 | subtracting what was added gives the time back, for any time after midnight |
| TimeOfDay.WholeDay | src/time.ts:174-196 | subtracting a day is the identity; adding one is the identity from 01:00 and fails before |
| Timeslots.New | src/timeslot.ts:55-73 | the two-time and array constructors succeed exactly when the start is not after the end, keeping both ends |
| Timeslots.FromStart | src/timeslot.ts:55-63 | `new Timeslot(start)` succeeds exactly before 23:55, making a five-minute slot from start |
| Timeslots.FromSerializable | src/timeslot.ts:75-78 | the record constructor succeeds exactly when both times do, and `toJSON` gives the record back |
| Timeslots.RecordFormSkipsOrderCheck | src/timeslot.ts:75-78 | the record form builds a slot whose end is before its start |
| Timeslots.Duration | src/timeslot.ts:101-105 | the signed minutes from start to end; non-negative exactly for a well-formed slot |
| Timeslots.ToJSON | src/timeslot.ts:176-178 | both records read back as the slot's ends |
| Timeslots.JsonRoundTrip | src/timeslot.ts:75-78 | every slot reads back from its record |
| Timeslots.ToString | src/timeslot.ts:152-162 | eleven characters: the start's string, `-`, the end's string |
| Timeslots.ToStringInjective | src/timeslot.ts:160-162 | slots with the same string are the same slot |
| Timeslots.FromString | src/timeslot.ts:112-124 | succeeds exactly on one `-` between two times that parse, start not after end |
| Timeslots.StringRoundTrip | src/timeslot.ts:112-124 | a slot reads back from its string exactly when it is well-formed, and fails otherwise |
| Timeslots.FromStringRejectsMissingSeparator | src/timeslot.ts:112-124 | text without `-` is rejected |
| Timeslots.FromStringRejectsReversed | src/timeslot.ts:112-124 | a reversed range's string is rejected |
| Timeslots.CompareTo | src/timeslot.ts:195-206 | -1, 0 or 1, zero exactly for equal slots, negative exactly for an earlier start or the same start and an earlier end |
| Timeslots.Equals | src/timeslot.ts:185-187 | true exactly for equal slots |
| Timeslots.IsAfter | src/timeslot.ts:214-217 | after in `compareTo` order, or equal when not strict |
| Timeslots.IsBefore | src/timeslot.ts:225-228 | the mirror of `isAfter` |
| Timeslots.CompareToTotalOrder | src/timeslot.ts:195-206 | `compareTo` is antisymmetric and transitive |
| Timeslots.ContainsTime | src/timeslot.ts:235-241 | the time lies between the ends, inclusive |
| Timeslots.ContainsSlot | src/timeslot.ts:235-241 | the other slot lies within, ends inclusive |
| Timeslots.Overlaps | src/timeslot.ts:248-250 | each starts before the other ends |
| Timeslots.OverlapsSymmetric | src/timeslot.ts:248-250 | overlap is symmetric and touching slots do not overlap |
| Timeslots.OverlapsIntersection | src/timeslot.ts:248-250 | for positive slots, overlap means an intersection of positive length |
| Timeslots.PointOverlaps | src/timeslot.ts:248-250 | a zero-length slot overlaps exactly the slots it lies strictly inside |
| Timeslots.MergeTimeslotIntersection | src/timeslot.ts:260-288 | fails exactly on non-overlapping slots; gives the inner slot when one contains the other and `timeslot` with one leftover otherwise |
| Timeslots.OuterPiecesPartition | src/timeslot.ts:264-275 | the leftovers around an inner slot are positive, inside the outer slot, clear of the inner one and each other, and make up the outer slot's length with it |
| Timeslots.MergePartitionsContainer | src/timeslot.ts:264-275 | in the containment case the result partitions the outer slot |
| Timeslots.MergePartialLeftover | src/timeslot.ts:277-287 | in the partial case the leftover lies in `timeslot`, clear of the container |
| Timeslots.TotalDurationSmall | src/timeslot.ts:264-275 | the total length of zero, one or two slots |
| Timeslots.Split | src/timeslot.ts:296-304 | one more piece than limits, chained from the slot's start through each limit to its end |
| Timeslots.ChainedDuration | src/timeslot.ts:296-304 | chained pieces add up to the span they cover |
| Timeslots.NumberOfSlotsInRange | src/timeslot.ts:132-135 | zero unless size and length are multiples of five and the size is below the length; otherwise length divided by size, and no count (`None`) when the size is 0 or does not divide the length |
| Timeslots.SlotsFillRange | src/timeslot.ts:132-135 | a non-zero count is at least two slots that exactly fill the range |
| TimeslotType.IsSlotAvailable | src/type/timeslot.type.ts:16-18 | fails exactly where `Time.add` of the allowance fails; otherwise whether the slot ends by the range's end plus allowance, modulo one day |
| TimeslotType.NoOverflow | src/type/timeslot.type.ts:16-18 | without an allowance it compares the two ends |
| TimeslotType.WithinDay | src/type/timeslot.type.ts:16-18 | within the day it is the plain comparison |
| TimeslotType.FailsJustPastMidnight | src/type/timeslot.type.ts:16-18 | an allowance landing in the 24th hour fails |
| TimeslotType.WrapsDespiteAllowance | src/type/timeslot.type.ts:16-18 | a larger allowance wraps and reports a fitting slot unavailable |
| TimeslotType.DependsOnlyOnEnds | src/type/timeslot.type.ts:16-18 | only the two ends matter |
| SeriesUtil.MapToTimeslotSerieTuple | src/util/timeslot-series.util.ts:4-8 | the key is the slot's string; a string is parsed, a slot copied, a record built without an order check |
| SeriesUtil.SameKeySameRange | src/util/timeslot-series.util.ts:4-8 | two items share a key exactly when they denote the same slot |
| SeriesUtil.MapItems | src/util/timeslot-series.util.ts:4-8 | succeeds exactly when every item maps (each through `ItemResults`), with the pairs in item order |
| Wrappers.AllOk | src/util/timeslot-series.util.ts:4-8 | all results `Ok` gives their values in order; otherwise an error, the first one (`Wrappers.AllOkFirstError`) |
| Wrappers.AllOkFirstError | src/util/timeslot-series.util.ts:4-8 | the error reported is the first failing element's |
| SlotOrder.Sort | src/timeslot-serie.ts:203-207 | sorted by `compareTo` and a permutation of the input |
| SlotOrder.SortedUnique | src/timeslot-serie.ts:203-207 | two sorted permutations of the same slots are equal, so the exposed order does not depend on insertion order |
| SlotOrder.SameFirst | src/timeslot-serie.ts:38-43 | sorted permutations start with the same slot |
| SlotOrder.SortedLastGreatest | src/timeslot-serie.ts:45-50 | the last sorted slot is at least every slot |
| SlotOrder.SortPermutationInvariant | src/timeslot-serie.ts:203-207 | sorting depends only on the collection |
| SlotOrder.SortSorted | src/timeslot-serie.ts:203-207 | sorting a sorted sequence changes nothing |
| OrderedMaps.Put | src/timeslot-serie.ts:125 | `Map.set` replaces in place on a present key and appends a new one |
| OrderedMaps.PutSpec | src/timeslot-serie.ts:125 | after `set` the key maps to the value, others as before, keys distinct |
| OrderedMaps.Remove | src/timeslot-serie.ts:158-160 | `Map.delete` drops the entry and keeps the others' order |
| OrderedMaps.RemoveSpec | src/timeslot-serie.ts:158-160 | after `delete` the key is absent and the others unchanged |
| OrderedMaps.FromPairs | src/timeslot-serie.ts:22-25 | `new Map(pairs)` has distinct keys, exactly the pairs' keys |
| OrderedMaps.FromPairsUnique | src/timeslot-serie.ts:22-25 | pairs with distinct keys are kept as they are |
| OrderedMaps.PutAllAppends | src/day.ts:96-99 | setting new distinct keys appends them in order |
| Strings.SplitJoin | src/timeslot-serie.ts:73-90 | splitting a join of separator-free pieces gives the pieces |
| Strings.Split | src/timeslot-serie.ts:73-90 | `split` gives at least one piece and no piece holds the separator |
| Strings.JoinSplit | src/timeslot-serie.ts:181-185 | joining a split gives the string back |
| Strings.ParseNatToDecimal | src/time.ts:204-222 | `parseInt` reads back every decimal form |
| Strings.ParseInt | src/day.ts:182 | all digits read as their value, `-` and digits as its negative; any other first character that is not white space is NaN |
| Strings.ParseIntSkipsWhiteSpace | src/day.ts:182 | leading white space does not change what `parseInt` reads |
| Strings.IntToDecimal | src/day.ts:164-168 | the decimal form holds digits and `-` only, and `parseInt` reads it back |
| Strings.PaddedTwoDigits | src/time.ts:82-86 | the zero-padded form of a number below 100 reads back |
| Strings.SameTwoDigits | src/time.ts:204-222 | two-digit strings of equal value are equal |
| SeriesCore.DefaultLimitsParse | src/timeslot-serie.ts:96-102 | "00:00" and "23:59" parse to the default limits |
| SeriesCore.SlotOfCanonicalString | src/timeslot-serie.ts:92-94 | a slot and its string share a key, and the string denotes the slot exactly when it is well-formed |
| SeriesCore.KeyReadsBack | src/timeslot-serie.ts:92-111 | the key of a well-formed slot, or of a string that parses, reads back as the slot the argument denotes; a string that parses denotes a well-formed slot whose string reads back to it |
| SeriesCore.PutDisjoint | src/timeslot-serie.ts:110-127 | storing a slot clear of all stored ones keeps the slots disjoint |
| SeriesCore.ToArray | src/timeslot-serie.ts:203-207 | the stored slots, sorted |
| SeriesCore.ToArrayOrderIndependent | src/timeslot-serie.ts:203-207 | the array depends only on the stored slots |
| SeriesCore.InToArray | src/timeslot-serie.ts:203-207 | a slot is in the array exactly when it is stored |
| SeriesCore.SlotStringAvoids | src/timeslot.ts:152-162 | a slot string holds only digits, `:` and `-` |
| SeriesCore.NoSeriesSeparator | src/timeslot-serie.ts:181-185 | a slot string has no `,` |
| SeriesCore.SeriesString | src/timeslot-serie.ts:181-185 | empty exactly for the empty series; otherwise it splits at `,` back into the sorted slots' strings (`SlotStrings`) |
| SeriesCore.SeriesStringsEqual | src/timeslot-serie.ts:106-108 | two series print the same exactly when they hold the same slots |
| SeriesCore.SameStringSameSlots | src/timeslot-serie.ts:106-108 | equal strings mean equal sorted slots |
| SeriesCore.SlotStringsInjective | src/timeslot-serie.ts:181-185 | equal string lists mean equal slot lists |
| SeriesCore.SeriesJSON | src/timeslot-serie.ts:197-201 | one record per entry, each reading back to the sorted slot at its position |
| SeriesCore.First | src/timeslot-serie.ts:38-43 | fails exactly on an empty series; a stored slot at most every stored slot |
| SeriesCore.FirstLeast | src/timeslot-serie.ts:38-43 | the first sorted slot is stored and least |
| SeriesCore.Last | src/timeslot-serie.ts:45-50 | fails exactly on an empty series; a stored slot at least every stored slot |
| SeriesCore.LastGreatest | src/timeslot-serie.ts:45-50 | the last sorted slot is stored and greatest |
| SeriesCore.ValuesInToArray | src/timeslot-serie.ts:203-207 | the array has one slot per entry and holds every stored slot |
| SeriesCore.Find | src/timeslot-serie.ts:176-179 | nothing exactly when no slot matches; otherwise the first match |
| SeriesCore.ContainsExtract | src/timeslot-serie.ts:176-179 | with `extract`, the least stored slot containing the value, or nothing when none does |
| SeriesCore.FindInEntries | src/timeslot-serie.ts:176-179 | the search over the sorted slots, read back on the entries |
| SeriesCore.Contains | src/timeslot-serie.ts:176-179 | some stored slot contains the value |
| SeriesCore.ContainsForms | src/timeslot-serie.ts:176-179 | the boolean and extracting forms agree |
| SeriesCore.OverlapsWith | src/timeslot-serie.ts:152-156 | fails exactly on an unparsable string; otherwise whether some stored slot overlaps |
| SeriesCore.TouchingDoesNotOverlap | src/timeslot-serie.ts:152-156 | a slot only touching the stored ones does not overlap the series |
| SeriesCore.Gaps | src/timeslot-serie.ts:133-140 | one gap per neighbouring pair, from one's end to the next's start |
| SeriesCore.EmptyGaps | src/timeslot-serie.ts:133-140 | the loop gives the gaps when the slots are consecutive and fails otherwise |
| SeriesCore.GapsTile | src/timeslot-serie.ts:129-150 | slots and gaps tile the span from the first start to the last end |
| SeriesCore.SortedConsecutiveIffDisjoint | src/timeslot-serie.ts:129-150 | sorted well-formed slots have gaps exactly when they are disjoint |
| SeriesCore.ChainBound | src/timeslot-serie.ts:133-140 | in consecutive slots every slot ends before any later one starts |
| SeriesCore.ExtendToLimits | src/timeslot-serie.ts:143-147 | succeeds exactly with stored options, a non-empty series, a start limit, and limits outside the slots; appends the two end pieces |
| SeriesCore.DisjointSeriesGaps | src/timeslot-serie.ts:129-150 | a disjoint series gets its gaps, which tile its span with the slots |
| SeriesCore.EmptyTimeslots | src/timeslot-serie.ts:129-150 | overlapping well-formed slots make it fail with the range error; disjoint ones give exactly the gaps, and any success starts with the gaps |
| SeriesCore.TwoSlotGaps | src/timeslot-serie.ts:129-150 | for two slots stored out of order: the gap, then the two pieces to the limits |
| SeriesCore.EmptyTimeslotsExample | src/timeslot-serie.ts:129-150 | `08:30-10:30,06:30-07:30` gives `07:30-08:30`, `00:00-06:30`, `10:30-23:59` |
| SeriesCore.ParseSegments | src/timeslot-serie.ts:73-90 | succeeds exactly when every part parses, giving the slots in order |
| SeriesCore.ParseSlotStrings | src/timeslot-serie.ts:73-90 | the strings of well-formed slots parse back to them |
| SeriesCore.DisjointPermutation | src/timeslot-serie.ts:110-127 | disjointness does not depend on order |
| SeriesCore.CanonicalDistinct | src/util/timeslot-series.util.ts:4-8 | canonical entries with distinct keys hold distinct slots |
| SeriesCore.CanonicalEntries | src/util/timeslot-series.util.ts:4-8 | each slot keyed by its string, in order |
| Serie.SetEntries | src/timeslot-serie.ts:110-127 | succeeds exactly when the slot parses and overlaps no stored slot |
| Serie.SetSpec | src/timeslot-serie.ts:110-127 | a successful set keeps keys distinct and the slots disjoint, maps the key to the slot and leaves other keys alone |
| Serie.SetIffNoOverlap | src/timeslot-serie.ts:110-127 | `set` succeeds exactly when `overlapsWith` answers no |
| Serie.BuildFrom | src/timeslot-serie.ts:22-25 | a success means every key parsed; from a start with distinct keys and disjoint slots it keeps both, and its keys are the start's plus the pairs' |
| Serie.BuildValues | src/timeslot-serie.ts:110-127 | the constructor loop discards the `Map`'s values: from a start whose keys hold their parsed slots, every stored key holds the slot it parses to |
| Serie.BuildCanonical | src/timeslot-serie.ts:22-25 | canonical pairs of disjoint well-formed slots with new keys are stored as they are |
| Serie.ItemEntries | src/timeslot-serie.ts:27 | an item that does not map gives its error; a success keeps distinct keys and disjoint slots, its keys exactly the items' keys |
| Serie.FromStringEntries | src/timeslot-serie.ts:73-90 | the empty string fails, a segment that does not parse gives its error; a success keeps the invariant and its keys are exactly the parsed segments' strings (built from their records, `Records`) |
| Serie.FromStringSlots | src/timeslot-serie.ts:73-90 | succeeds exactly on a non-empty value whose segments all parse and no two different parsed slots overlap, and throws the overlap error when two do; a success holds the parsed slots sorted by `compareTo`, each once, well-formed, under their strings |
| Serie.BuildCanonicalOutcome | src/timeslot-serie.ts:110-127 | the constructor loop on canonical pairs with new keys appends them all or throws the overlap error |
| Serie.CanonicalBuild | src/timeslot-serie.ts:27 | the canonical pairs of different well-formed slots are stored exactly when no two overlap, otherwise the overlap error |
| SeriesCore.CanonicalDedup | src/timeslot-serie.ts:27 | `new Map` of the slots' canonical pairs keeps each slot once, where it first occurs (`Dedup`: the same slots, no repeats) |
| SeriesCore.DedupSorted | src/timeslot-serie.ts:82 | dropping repeats from sorted slots keeps them sorted |
| SeriesCore.DedupDisjoint | src/timeslot-serie.ts:115 | the slots kept once each are pairwise disjoint exactly when no two different slots overlap |
| Serie.MapRecords | src/timeslot-serie.ts:73-90 | the records map back to their canonical pairs |
| Serie.StringRoundTrip | src/timeslot-serie.ts:73-90 | `fromString(s.toString())` gives the series' slots, sorted and keyed by their strings, which print as `s` |
| Serie.SortedKeysDistinct | src/timeslot-serie.ts:73-90 | distinct canonical keys stay distinct once sorted |
| Serie.FromStringOfSegments | src/timeslot-serie.ts:73-90 | `fromString` builds the sorted parsed slots' records |
| Serie.SortedItems | src/timeslot-serie.ts:27 | disjoint well-formed slots with distinct strings become their canonical pairs |
| Serie.BuildFresh | src/timeslot-serie.ts:22-25 | canonical disjoint pairs build to themselves |
| Serie.FromStringRejectsOverlap | src/timeslot-serie.ts:73-90 | two different overlapping segments make `fromString` fail |
| Serie.TwoOverlappingItems | src/timeslot-serie.ts:27 | two different overlapping records fail at the second |
| Serie.FromStringCollapsesDuplicate | src/timeslot-serie.ts:73-90 | a segment given twice gives one entry |
| Serie.DuplicateItems | src/timeslot-serie.ts:27 | one record given twice is kept once |
| Serie.InvariantGaps | src/timeslot-serie.ts:129-150 | a stored series of well-formed slots has its gaps, and they tile its span |
| Serie.RemoveKeepsInvariant | src/timeslot-serie.ts:158-160 | `delete` keeps the invariant |
| Serie.ReplaceSpec | src/timeslot-serie.ts:162-167 | a successful replace removes the old key, maps the new one and leaves the rest |
| Serie.TimeslotSerie.Empty | src/timeslot-serie.ts:17-20 | an empty series without options |
| Serie.TimeslotSerie.FromMap | src/timeslot-serie.ts:22-25 | succeeds exactly when the constructor loop does, with its entries and no options; every stored key holds its own re-parsed slot |
| Serie.TimeslotSerie.Copy | src/timeslot-serie.ts:22-25 | the copy re-adds the entries through `set`, with no options; every stored key holds its own re-parsed slot |
| Serie.TimeslotSerie.FromRecords | src/timeslot-serie.ts:27-33 | the items' entries, with the options or the defaults |
| Serie.TimeslotSerie.FromArray | src/timeslot-serie.ts:54-71 | the items' entries, with no options stored |
| Serie.TimeslotSerie.FromString | src/timeslot-serie.ts:73-90 | the parsed entries, with the options or the defaults |
| Serie.TimeslotSerie.Set | src/timeslot-serie.ts:110-127 | passes exactly when `SetEntries` succeeds; the new entries are its result, or unchanged on failure |
| Serie.TimeslotSerie.Has | src/timeslot-serie.ts:169-171 | some entry has the key |
| Serie.TimeslotSerie.Delete | src/timeslot-serie.ts:158-160 | removes the key and says whether it was present |
| Serie.TimeslotSerie.Replace | src/timeslot-serie.ts:162-167 | a no-op unless the old key is present and the new absent; otherwise delete then set, losing the old slot when set fails |
| Serie.TimeslotSerie.ToArray | src/timeslot-serie.ts:203-207 | the stored slots, sorted |
| Serie.TimeslotSerie.First | src/timeslot-serie.ts:38-43 | the least stored slot, or an error when empty |
| Serie.TimeslotSerie.Last | src/timeslot-serie.ts:45-50 | the greatest stored slot, or an error when empty |
| Serie.TimeslotSerie.ToString | src/timeslot-serie.ts:181-191 | empty exactly for the empty series |
| Serie.TimeslotSerie.ToJSON | src/timeslot-serie.ts:197-201 | one record per entry, reading back to the sorted slots |
| Serie.TimeslotSerie.Equals | src/timeslot-serie.ts:106-108 | true exactly when both hold the same slots |
| Serie.TimeslotSerie.Contains | src/timeslot-serie.ts:176-179 | some stored slot contains the value |
| Serie.TimeslotSerie.ContainsExtract | src/timeslot-serie.ts:176-179 | the least stored slot containing the value |
| Serie.TimeslotSerie.OverlapsWith | src/timeslot-serie.ts:152-156 | whether a stored slot overlaps the parsed argument |
| Serie.TimeslotSerie.GetEmptyTimeslots | src/timeslot-serie.ts:129-150 | the gaps and, if asked, the limit pieces, as `EmptyTimeslots` |
| Series.SetEntries | src/timeslot-series.ts:167-186 | succeeds exactly when the slot parses and the overlap flag is off |
| Series.EnforcedSetAlwaysFails | src/timeslot-series.ts:172-179 | with the flag on, the overlap error when something overlaps, a type error otherwise |
| Series.SetSpec | src/timeslot-series.ts:167-186 | a successful set keeps keys distinct, maps the key and leaves the rest |
| Series.UncheckedSetStoresOverlap | src/timeslot-series.ts:167-186 | with the flag off an overlapping slot is stored |
| Series.BuildFrom | src/timeslot-series.ts:21-42 | the constructor loop succeeds exactly when every key parses; from distinct keys it keeps them distinct, with the old keys and the pairs' |
| Series.BuildValues | src/timeslot-series.ts:167-186 | the constructor loop discards the `Map`'s values: from a start whose keys hold their parsed slots, every stored key holds the slot it parses to |
| Series.BuildCanonical | src/timeslot-series.ts:21-42 | canonical well-formed pairs with new keys are stored as they are, overlapping or not |
| Series.ItemEntries | src/timeslot-series.ts:21-42 | an item that does not map gives its error; a success has distinct keys, exactly the items' keys |
| Series.SomeOverlap | src/timeslot-series.ts:111-121 | true exactly when some two segments overlap |
| Series.MapInstances | src/timeslot-series.ts:102-125 | the instances map to their canonical pairs |
| Series.FromStringOfSegments | src/timeslot-series.ts:102-125 | overlap fails; otherwise the sorted instances are built |
| Series.FromStringEntries | src/timeslot-series.ts:102-125 | the empty string fails; succeeds exactly on a value whose segments parse and are disjoint, with distinct keys, exactly the segments' strings (built from `Instances`) |
| Series.InstancesBuild | src/timeslot-series.ts:21-42 | any well-formed instances build |
| Series.StringRoundTrip | src/timeslot-series.ts:102-125 | `fromString(s.toString())` gives the series' sorted slots, which print as `s` |
| Series.SortedInstances | src/timeslot-series.ts:21-42 | well-formed slots with distinct strings become their canonical pairs |
| Series.BuildFresh | src/timeslot-series.ts:21-42 | canonical pairs with distinct keys build to themselves |
| Series.FromStringRejectsOverlap | src/timeslot-series.ts:111-121 | two overlapping segments fail in either order |
| Series.DuplicateRejected | src/timeslot-series.ts:111-121 | a positive segment given twice fails here but collapses in the older revision |
| Series.ReplaceSpec | src/timeslot-series.ts:242-247 | a successful replace removes the old key, maps the new one and leaves the rest |
| Series.EnforcedReplaceLosesSlot | src/timeslot-series.ts:242-247 | with the flag on, replace deletes the old slot and the set fails |
| Series.TimeslotSeries.Empty | src/timeslot-series.ts:21-42 | an empty series without options |
| Series.TimeslotSeries.FromMap | src/timeslot-series.ts:21-42 | succeeds exactly when the loop does, with its entries and no options; every stored key holds its own re-parsed slot |
| Series.TimeslotSeries.Copy | src/timeslot-series.ts:21-42 | the copy re-parses the keys and stores no options; every stored key holds its own re-parsed slot |
| Series.TimeslotSeries.FromRecords | src/timeslot-series.ts:21-42 | the items' entries, with the options or the defaults |
| Series.TimeslotSeries.FromArray | src/timeslot-series.ts:74-91 | the items' entries, with no options stored |
| Series.TimeslotSeries.FromString | src/timeslot-series.ts:102-125 | the parsed entries, with the options or the defaults |
| Series.TimeslotSeries.Set | src/timeslot-series.ts:167-186 | passes exactly when `SetEntries` succeeds under the stored options; the entries are its result or unchanged |
| Series.TimeslotSeries.Has | src/timeslot-series.ts:254-256 | some entry has the key |
| Series.TimeslotSeries.Delete | src/timeslot-series.ts:232-234 | removes the key and says whether it was present |
| Series.TimeslotSeries.Replace | src/timeslot-series.ts:242-247 | a no-op unless the old key is present and the new absent; otherwise delete then set |
| Series.TimeslotSeries.ToArray | src/timeslot-series.ts:324-328 | the stored slots, sorted |
| Series.TimeslotSeries.First | src/timeslot-series.ts:49-54 | the least stored slot, or an error when empty |
| Series.TimeslotSeries.Last | src/timeslot-series.ts:61-66 | the greatest stored slot, or an error when empty |
| Series.TimeslotSeries.ToString | src/timeslot-series.ts:281-297 | empty exactly for the empty series |
| Series.TimeslotSeries.ToJSON | src/timeslot-series.ts:313-317 | one record per entry, reading back to the sorted slots |
| Series.TimeslotSeries.Equals | src/timeslot-series.ts:157-159 | true exactly when both hold the same slots |
| Series.TimeslotSeries.Contains | src/timeslot-series.ts:270-273 | some stored slot contains the value |
| Series.TimeslotSeries.ContainsExtract | src/timeslot-series.ts:270-273 | the least stored slot containing the value |
| Series.TimeslotSeries.OverlapsWith | src/timeslot-series.ts:221-225 | whether a stored slot overlaps the parsed argument |
| Series.TimeslotSeries.GetEmptyTimeslots | src/timeslot-series.ts:193-214 | the gaps and, if asked, the limit pieces, as `EmptyTimeslots` |
| Days.LabelIndex | src/type/date.type.ts:1-23 | -1 for an unset day, otherwise the label's position in `DayLabels` |
| Days.LabelAt | src/type/date.type.ts:1-23 | a label exactly for an index in [0,7), with that index |
| Days.LabelIndexInjective | src/type/date.type.ts:1-23 | labels with equal indices are equal |
| Days.DefaultStartParses | src/day.ts:190-196 | a fact about a constant: "07:00" parses to the day's default start |
| Days.DefaultEndParses | src/day.ts:190-196 | a fact about a constant: "20:00" parses to the day's default end |
| Days.ClassTextIsNoSlot | src/day.ts:148-151 | the class text that `Timeslot.toString()` gives does not read as a slot |
| Days.DeleteKey | src/day.ts:148-151 | a string is looked up as it is; a slot is looked up by a key that never reads as a slot |
| Days.FreeEntriesSlots | src/day.ts:26-37 | free entries' keys read back as their slots |
| Days.RecordPairs | src/day.ts:26-37 | succeeds exactly when every record builds, giving their slots free under their strings (`FreeEntries`) |
| Days.RecordPairsOf | src/day.ts:26-37 | records that read back as slots give those slots as free entries |
| Days.RecordPairsOfSeries | src/day.ts:170-175 | a series' records give its sorted slots as free entries |
| Days.FreeEntriesMap | src/day.ts:26-37 | free entries of distinct slots survive the `Map` constructor |
| Days.LabelPrefix | src/day.ts:164-168 | a label prints as its one-digit index, as the number does |
| Days.PrefixText | src/day.ts:164-168 | the `${dayIndex}` part has no `;` or `,`, and `parseInt` reads it back as the label's index or the number; `undefined` reads as NaN |
| Days.FormatString | src/day.ts:164-168 | with `;`-free timeslots the text splits at `;` into the prefix and the timeslots |
| Days.DayString | src/day.ts:153-162 | with `;`-free keys the text splits at `;` into a part `parseInt` reads as the day's index (NaN when unset) and the keys joined by `,` |
| Days.FromStringParts | src/day.ts:177-188 | fails without `;` and with the series part's error; succeeds when that part parses; distinct keys; an empty head is Monday, otherwise the label at the parsed index or none |
| Days.FromStringDay | src/day.ts:177-188 | a parsed day holds exactly the series part's stored slots (sorted, each once; see `Serie.FromStringSlots`) as free entries under their strings, no task, every key readable and no two slots overlapping |
| Days.DayStringRoundTrip | src/day.ts:153-188 | `Day.fromString(s)` of a labelled day's string gives that label and the slots free, which print back as `s` |
| Days.DayStringSplits | src/day.ts:177-188 | a day string splits at its one `;` |
| Days.CanonicalSorted | src/day.ts:177-188 | canonical entries of sorted slots list them in order |
| Days.TasksOf | src/day.ts:110-112 | no more tasks than entries |
| Days.TasksConcat | src/day.ts:110-112 | tasks of a concatenation concatenate |
| Days.TasksAreValues | src/day.ts:110-112 | a task is listed exactly when some entry holds it |
| Days.FindFreeFrom | src/day.ts:82-84 | what it finds is the first free containing entry; every key before it reads as a slot; readable keys never fail |
| Days.FindFree | src/day.ts:82-84 | the first free entry whose key contains the slot (keys read by `KeySlots`); readable keys never fail, and nothing is found exactly when no free entry contains it |
| Days.InsertFound | src/day.ts:88-99 | once found, insert deletes that key and merges into its slot |
| Days.AfterInsertTiling | src/day.ts:88-99 | after inserting into a container the day is still tiled, with the same minutes |
| Days.AfterInsertTasks | src/day.ts:88-99 | the tasks are the old ones plus the new one |
| Days.InsertReaches | src/day.ts:88-99 | delete, merge and the two sets produce exactly those entries |
| Days.InsertKeepsTiling | src/day.ts:80-101 | a successful insert on a tiled day returns the slot, keeps keys distinct and the day tiled over the same minutes, and adds exactly the new task |
| Days.InsertOutcome | src/day.ts:80-101 | a slot that does not parse gives its error and changes nothing; with readable keys and no free container it throws and changes nothing; on a tiled day it succeeds exactly when some free entry contains and overlaps the slot, returning that slot |
| Days.FirstContainerDecides | src/day.ts:82-95 | the first container overlaps exactly when some container does |
| Days.InsertResult | src/day.ts:80-101 | insert returns when a container is found and the merge succeeds |
| Days.InsertPositiveSucceeds | src/day.ts:80-101 | a positive slot inside a free entry can always be inserted |
| Days.InsertLosesContainer | src/day.ts:88-95 | a zero-length slot at a container's end loses the container and throws |
| Days.ZeroLengthInsertExample | src/day.ts:80-101 | in 08:00-09:00, inserting 09:00 loses the entry; inserting 08:30 succeeds |
| Days.ParseKeys | src/day.ts:114-144 | readable keys parse to their well-formed slots |
| Days.DayEmptyTiled | src/day.ts:114-144 | on a tiled day, `empty()` gives the gaps between the sorted slots, which tile the span with them, and `empty(true)` adds the limit pieces |
| Days.DayEmpty | src/day.ts:114-144 | `empty()` returns exactly on at most one entry or a tiled day, and one unreadable key gives no gaps; overlapping readable keys throw the range error |
| Days.DayJSON | src/day.ts:103-108 | succeeds exactly when every key reads as a slot; keeps the day and one record per key |
| Days.FromRecords | src/day.ts:26-37 | succeeds exactly when every record builds; distinct keys and no tasks |
| Days.RecordsTiled | src/day.ts:26-37 | the records of well-formed, pairwise disjoint slots with distinct strings give those slots in the records' order, free, tiled |
| Days.FreeAfterMap | src/day.ts:26-37 | free pairs stay free through the `Map` constructor |
| Days.DayJsonRoundTrip | src/day.ts:103-108 | `new Day(day.toJSON())` keeps canonical distinct keys in order and frees them |
| Days.DayJsonRecords | src/day.ts:103-108 | the records read back as the keys' slots |
| Days.FromSerieTiled | src/day.ts:170-175 | `fromTimeslotSerie` of a series gives its sorted slots as a tiled, free day |
| Days.InitialState | src/day.ts:19-54 | the constructor's branches in order: fails only on bad records; a number naming a day sets it; anything else falls through, sets no day and stores the options or the defaults |
| Days.PrefixTextDistinct | src/day.ts:164-168 | different days have different prefixes, without `;` |
| Days.DayStringEquality | src/day.ts:68-70 | two days print the same exactly when they share the day and the joined keys |
| Days.DeleteSlotRemovesNothing | src/day.ts:148-151 | `delete(slot)` removes nothing from a day of readable keys |
| Days.Day.Create | src/day.ts:19-54 | the new day holds `InitialState` |
| Days.Day.Copy | src/day.ts:39-44 | the copy has the entries through `new Map` and the day, not the options |
| Days.Day.FromString | src/day.ts:177-188 | succeeds exactly when the text parses, holding `FromStringParts`' day and entries, which hold no task and no two overlapping slots |
| Days.Day.FromTimeslotSerie | src/day.ts:170-175 | the day of the series' records; for a proper series, its sorted slots free and tiled |
| Days.Day.Set | src/day.ts:72-76 | a plain store of the value under the key |
| Days.Day.Delete | src/day.ts:148-151 | removes `DeleteKey` and says whether it was present |
| Days.Day.Insert | src/day.ts:80-101 | the new entries and the result are `InsertOutcome` of the old entries |
| Days.Day.ReplaceContainer | src/day.ts:88-99 | delete the container, merge, store the slot with the task and the leftovers free |
| Days.Day.SetFree | src/day.ts:96-99 | each leftover stored free in turn |
| Days.Day.Empty | src/day.ts:114-144 | the result is `DayEmpty` of the state |
| Days.Day.Tasks | src/day.ts:110-112 | a task is listed exactly when an entry holds it |
| Days.Day.ToJSON | src/day.ts:103-108 | succeeds exactly when the keys read as slots |
| Days.Day.ToString | src/day.ts:153-162 | the day's index, `;`, and the keys joined with `,` |
| Days.Day.CompareTo | src/day.ts:60-62 | the difference of the two days' indices, zero exactly for the same day |
| Days.Day.IsAfter | src/day.ts:64-66 | a later index; an unset day is after none |
| Days.Day.Equals | src/day.ts:68-70 | the same day and the same joined keys |
| Weeks.LabelsDistinct | src/type/date.type.ts:1-23 | the seven labels are different |
| Weeks.LabelKeyed | src/week.ts:109-124 | in a week keyed by the labels in order, each label is at its index |
| Weeks.PutLabel | src/week.ts:121-124 | setting a label replaces its entry and keeps the keys |
| Weeks.LabelPairs | src/week.ts:16-21 | the seven labelled pairs go through `new Map` as they are |
| Weeks.RecordsDay | src/week.ts:16-21 | a day's entries exist exactly when its series builds, failing with its error |
| Weeks.Items | src/week.ts:16-21 | the items map exactly when every record builds, and each mapped slot's record is the one given |
| Weeks.LabelResults | src/week.ts:16-21 | each label's result is its records' day (`RecordsFor`), and a label without records gets an empty day |
| Weeks.LabelDays | src/week.ts:16-21 | succeeds exactly when every label's series builds, one day per label |
| Weeks.LabelDaysFirstError | src/week.ts:16-21 | the first failing label's error is the one reported |
| Weeks.MissingLabelEmpty | src/week.ts:16-21 | a missing label gives an empty day |
| Weeks.SlotsDay | src/week.ts:16-21 | records of disjoint well-formed slots give their sorted slots free and tiled |
| Weeks.SlotsSerie | src/week.ts:16-21 | records of disjoint well-formed slots build a series of their canonical pairs |
| Weeks.DayRecordsDay | src/week.ts:64-74 | a proper day's records give its sorted slots as a tiled free day |
| Weeks.SerieRecordsDay | src/week.ts:91-101 | a proper series' records give its sorted slots as a tiled free day |
| Weeks.SameForAll | src/week.ts:64-74 | every label gets the same records |
| Weeks.SameDays | src/week.ts:64-101 | the same records for all labels give the same day for each |
| Weeks.PiecePrefix | src/week.ts:103-107 | each day's piece starts with its index and `;` |
| Weeks.DayStrings | src/week.ts:103-107 | each day's string, and a labelled day's starts with its index digit and `;` |
| Weeks.NoEntriesNoGaps | src/week.ts:76-89 | an empty day has no gaps |
| Weeks.Week.FromPairs | src/week.ts:16-21 | the entries are `new Map(pairs)` |
| Weeks.Week.Copy | src/week.ts:11-14 | the entries are copied and the days shared |
| Weeks.Week.FromParsable | src/week.ts:16-21 | succeeds exactly when every label's series builds; seven fresh distinct days, each its label's |
| Weeks.Week.LabelledDays | src/week.ts:16-21 | the labels in order with their days; the first failing label stops the rest |
| Weeks.Week.CollectDays | src/week.ts:16-21 | the loop over the labels against their expected results |
| Weeks.Week.LabelDay | src/week.ts:16-21 | one label's day, or its series' error |
| Weeks.Week.FromDay | src/week.ts:64-74 | fails on unreadable keys; otherwise the day's records for every label, and for a proper day its sorted slots free on every day |
| Weeks.Week.FromTimeslotSerie | src/week.ts:91-101 | the series' records for every label, and for a proper series its sorted slots free on every day |
| Weeks.Week.Get | src/week.ts:109-119 | absent gives nothing, a day gives itself, `null` gives a fresh empty day of the label that is stored |
| Weeks.Week.Set | src/week.ts:121-124 | a plain store; the week is returned |
| Weeks.Week.ToTuple | src/week.ts:52-62 | the seven days Monday first, each through `get` |
| Weeks.Week.ToString | src/week.ts:103-107 | the days' strings joined by `WEEK_SEPARATOR`, after filling `null` days |
| Weeks.Week.EmptyTimeslotsOf | src/week.ts:76-89 | one day's `empty()`, the day read through `get` |
| Weeks.Week.EmptyTimeslots | src/week.ts:76-89 | every day's `empty()` Monday first, or the first day's error |

## Left out

- Clocks and `Date` are not modelled: `new Time(Date)`, `Time.now`, and every `toDate`. They read the system clock or build `Date` objects.
- `toLocaleString`/`toLocalString` are not modelled separately. `Time` has no locale form of its own, so they give the same text as `toString`.
- TimeOfDay.FromString: strings are sequences of Unicode characters here, while the source's `length` counts UTF-16 code units. A character above U+FFFF counts 1 in the model and 2 in the source. So a time part such as "1😀" in "1😀:00" is rejected by the length test of src/time.ts:208-214 but read by the model as 01:00. The same gap reaches `Timeslots.FromString` and every series and day `fromString` built on it.
- Tasks (src/task.ts) are not part of this model. A task is an opaque value, and its random identifier is not generated.
- Error messages are not modelled. A thrown error is a tag of its kind, and `RuntimeTypeError` stands for every JavaScript `TypeError` the code runs into.
- Numbers are integers: fractional and non-finite arguments to `Time` are not modelled.
- The separators of src/constant are not part of this model. Their values were chosen to match the serialised examples.
  - `WEEK_SEPARATOR` is left without a value.
  - `Weeks.Week.ToString`: it states the joined text in terms of that unknown separator.
- The `data` parameter of both `fromString`s is unused by the code and is not modelled.
- The `allowTimeslotMerging` option is stored but never read by the code, so nothing depends on it.
- The week's `monday` … `sunday` getters are not modelled separately. They call `get` with a fixed label, which `Weeks.Week.Get` models.
- `new Time(time)` and `new Timeslot(timeslot)` copy an immutable value. On values they are the identity.
- Object identity across `Map` values is modelled only for the days of a week (`Day?` references). Series and days hold immutable values.
- `Weeks.Week.ToTuple`, `Weeks.Week.ToString`, `Weeks.Week.EmptyTimeslotsOf` and `Weeks.Week.EmptyTimeslots` require a week that holds all seven labels in order. Every constructor and `set` keep a week that way; a week built from arbitrary `Map` pairs is not covered.
- `Days.Day.Insert` is stated against `InsertOutcome`. Its properties are proved for tiled days with distinct keys. `fromString` (`Days.FromStringDay`), `fromTimeslotSerie` (`Days.FromSerieTiled`) and records of well-formed, disjoint slots with distinct strings (`Days.RecordsTiled`) produce such days, and `insert` keeps them. Days built by `set` (src/day.ts:72-76) or from overlapping records (src/day.ts:26-36, `Days.FromRecords`) are not covered.
- `compareRanges` (src/util/timeslot.util.ts) is not part of this model. It is taken to be the `compareTo` order: by start, then by end (`SlotOrder.Le`). The sort is modelled as a function of the slots, not as JavaScript's in-place `sort`.
- `Timeslots.NumberOfSlotsInRange`: a size of 0 or one that does not divide the length gives no count; the fractional or infinite quotient the code returns there (src/timeslot.ts:134) is not modelled.
