/** The date-range filter of frontend/src/components/data-table/data-table-filter-timerange.tsx:
    decoding the column's filter value into the picker's `{from, to}` range and `setDate`,
    which writes a picked range back as the filter value. */
module FilterTimerange {
  import opened Wrappers
  import opened JsValues
  import opened IsArray

  /** react-day-picker's `DateRange`; instants on an abstract clock. */
  datatype DateRange = DateRange(from: Option<int>, to: Option<int>)

  /** The `date` memo: a single Date is `{from: d}`, a non-empty Date array is
      `{from: [0], to: [1]}`, anything else (the empty array among it) is no range. */
  function DecodeRange(fv: JsValue): Option<DateRange> {
    if fv.DateV? then Some(DateRange(Some(fv.instant), None))
    else if fv.Arr? && IsArrayOfDates(fv) then
      GuardsMeaning(fv);
      var items := fv.items;
      Some(DateRange(Some(items[0].instant), if |items| > 1 then Some(items[1].instant) else None))
    else None
  }

  /** `setDate`: the new filter value, or `current` when the handler sets nothing. A date
      object is always truthy, so only presence is tested. */
  function SetDate(range: Option<DateRange>, current: JsValue): JsValue {
    match range
    case None => current
    case Some(DateRange(from, to)) =>
      if from.Some? && to.None? then Arr([DateV(from.value)])
      else if to.Some? && from.Some? then Arr([DateV(from.value), DateV(to.value)])
      else current
  }

  /** Round trip: a range with a start, once written by `setDate`, decodes to itself. */
  lemma RangeRoundTrip(r: DateRange, current: JsValue)
    requires r.from.Some?
    ensures DecodeRange(SetDate(Some(r), current)) == Some(r)
  {
    var v := SetDate(Some(r), current);
    GuardsMeaning(v);
  }

  /** No range, or one with an end but no start, leaves the filter as it is. */
  lemma SetDateUntouched(to: Option<int>, current: JsValue)
    ensures SetDate(None, current) == current
    ensures SetDate(Some(DateRange(None, to)), current) == current
  {
  }

  /** What `setDate` stores: `[from]` for a start only, `[from, to]` for both. */
  lemma SetDateStores(from: int, to: int, current: JsValue)
    ensures SetDate(Some(DateRange(Some(from), None)), current) == Arr([DateV(from)])
    ensures SetDate(Some(DateRange(Some(from), Some(to))), current) == Arr([DateV(from), DateV(to)])
  {
  }

  /** Decoding reads a single Date as a start without end, and of a Date array only its
      first two elements; the empty array and every other value are no range. */
  lemma DecodeCases(d: int, items: seq<JsValue>, fv: JsValue)
    requires forall i :: 0 <= i < |items| ==> items[i].DateV?
    requires !fv.DateV? && !(fv.Arr? && |fv.items| > 0 && forall i :: 0 <= i < |fv.items| ==> fv.items[i].DateV?)
    ensures DecodeRange(DateV(d)) == Some(DateRange(Some(d), None))
    ensures |items| == 0 ==> DecodeRange(Arr(items)) == None
    ensures |items| == 1 ==> DecodeRange(Arr(items)) == Some(DateRange(Some(items[0].instant), None))
    ensures |items| >= 2 ==>
      DecodeRange(Arr(items)) == Some(DateRange(Some(items[0].instant), Some(items[1].instant)))
    ensures DecodeRange(fv) == None
  {
    GuardsMeaning(Arr(items));
    GuardsMeaning(fv);
  }
}
