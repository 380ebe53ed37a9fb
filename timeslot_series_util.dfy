/** `mapToTimeslotSerieTuple`: the rule that keys every series entry by the
    canonical string of its slot. */
module SeriesUtil {
  import opened Wrappers
  import opened Timeslots

  /** What a series can be built from: a slot string, a `Timeslot`, or a
      `{ start, end }` record of serialised times. */
  datatype SlotItem =
    | SlotText(text: string)
    | SlotInstance(slot: Timeslot)
    | SlotRecord(record: TimeslotSerializable)

  /** A string is parsed, so a malformed or reversed one fails; a `Timeslot`
      is copied; a record goes through the record constructor, which does
      not check the order of the ends. The key is the slot's string. */
  function MapToTimeslotSerieTuple(item: SlotItem): (r: Result<(string, Timeslot)>)
    ensures r.Ok? ==> r.value.0 == ToString(r.value.1)
    ensures item.SlotText? ==> r.Ok? == FromString(item.text).Ok? && (r.Ok? ==> r.value.1 == FromString(item.text).value)
    ensures item.SlotInstance? ==> r.Ok? && r.value.1 == item.slot
    ensures item.SlotRecord? ==> r.Ok? == FromSerializable(item.record).Ok? && (r.Ok? ==> ToJSON(r.value.1) == item.record)
  {
    var range :- match item
      case SlotText(text) => FromString(text)
      case SlotInstance(slot) => Ok(slot)
      case SlotRecord(record) => FromSerializable(record);
    Ok((ToString(range), range))
  }

  /** Two items give the same key exactly when they denote the same range,
      so items for one range collapse into one map entry. */
  lemma SameKeySameRange(a: SlotItem, b: SlotItem)
    requires MapToTimeslotSerieTuple(a).Ok? && MapToTimeslotSerieTuple(b).Ok?
    ensures MapToTimeslotSerieTuple(a).value.0 == MapToTimeslotSerieTuple(b).value.0
      <==> MapToTimeslotSerieTuple(a).value.1 == MapToTimeslotSerieTuple(b).value.1
  {
    var ta, tb := MapToTimeslotSerieTuple(a).value, MapToTimeslotSerieTuple(b).value;
    if ta.0 == tb.0 {
      ToStringInjective(ta.1, tb.1);
    }
  }

  /** `items.map(mapToTimeslotSerieTuple)`, one result per item. */
  function ItemResults(items: seq<SlotItem>): (rs: seq<Result<(string, Timeslot)>>)
    ensures |rs| == |items| && forall i :: 0 <= i < |items| ==> rs[i] == MapToTimeslotSerieTuple(items[i])
  {
    seq(|items|, i requires 0 <= i < |items| => MapToTimeslotSerieTuple(items[i]))
  }

  /** `items.map(mapToTimeslotSerieTuple)`: the first failing item aborts. */
  function MapItems(items: seq<SlotItem>): (r: Result<seq<(string, Timeslot)>>)
    ensures r.Ok? <==> forall i :: 0 <= i < |items| ==> MapToTimeslotSerieTuple(items[i]).Ok?
    ensures r.Ok? ==> |r.value| == |items| && forall i :: 0 <= i < |items| ==> r.value[i] == MapToTimeslotSerieTuple(items[i]).value
  {
    AllOk(ItemResults(items))
  }
}
