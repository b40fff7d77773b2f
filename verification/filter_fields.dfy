/** The filter-field sum type of frontend/src/components/data-table/types.ts: a field of
    the filter bar, sharing a label, a column key and two flags, with one variant per
    filter control. */
module FilterFields {
  import opened Wrappers
  import opened JsValues

  /** An option of a checkbox or command list; its value is a string, boolean, number or
      `undefined`. */
  datatype FilterOption = FilterOption(labelText: string, value: JsValue)

  /** A date-range preset; dates are instants on an abstract clock. */
  datatype DatePreset = DatePreset(labelText: string, from: int, to: int, shortcut: string)

  /** The variant part; a checkbox's `component` render function is not modelled. */
  datatype Control =
    | Checkbox(options: Option<seq<FilterOption>>, enableSearch: Option<bool>)
    | Command(commandOptions: seq<FilterOption>)
    | Slider(min: int, max: int, trailing: Option<string>)
    | Input
    | Timerange(presets: Option<seq<DatePreset>>)

  datatype FilterField = FilterField(
    labelText: string,
    value: string,
    defaultOpen: Option<bool>,
    commandDisabled: Option<bool>,
    control: Control)

  /** An optional boolean flag read for truthiness: only `true` sets it. */
  predicate Flag(o: Option<bool>) {
    o == Some(true)
  }
}
