/** The filter bar of frontend/src/components/data-table/data-table-filter-controls.tsx:
    the fields whose options come from the backend lists become checkbox fields, the
    accordion opens the fields flagged `defaultOpen`, and the Reset control and the
    secondary key label are shown by fixed rules. */
module FilterControls {
  import opened Wrappers
  import opened Strings
  import opened JsValues
  import opened FilterFields

  /** The six option lists fetched from the backend; `None` until a query's data arrives. */
  datatype FetchedLists = FetchedLists(
    citta: Option<seq<string>>, tools: Option<seq<string>>, databases: Option<seq<string>>,
    linguaggi: Option<seq<string>>, piattaforme: Option<seq<string>>,
    sistemiOperativi: Option<seq<string>>)

  /** The column keys whose field is rebuilt as a checkbox. */
  const CheckboxKeys: seq<string> :=
    ["citta", "tools", "database", "piattaforme", "sistemi_operativi", "linguaggi_programmazione"]

  /** The fetched list feeding the field keyed `key`, defaulting to `[]`; `None` for a key
      that is not rebuilt. */
  function ListFor(key: string, f: FetchedLists): (r: Option<seq<string>>)
    ensures r.Some? <==> key in CheckboxKeys
  {
    if key == "citta" then Some(f.citta.GetOr([]))
    else if key == "tools" then Some(f.tools.GetOr([]))
    else if key == "database" then Some(f.databases.GetOr([]))
    else if key == "piattaforme" then Some(f.piattaforme.GetOr([]))
    else if key == "sistemi_operativi" then Some(f.sistemiOperativi.GetOr([]))
    else if key == "linguaggi_programmazione" then Some(f.linguaggi.GetOr([]))
    else None
  }

  /** One option per fetched string, labelled by the string itself. */
  function OptionsOf(xs: seq<string>): (r: seq<FilterOption>)
    ensures |r| == |xs|
    ensures forall i :: 0 <= i < |xs| ==> r[i].labelText == xs[i] && r[i].value == Str(xs[i])
  {
    if |xs| == 0 then [] else [FilterOption(xs[0], Str(xs[0]))] + OptionsOf(xs[1..])
  }

  /** The `switch` on `field.value`: the spread keeps the common part and, of a checkbox,
      its `enableSearch`; `type` and `options` are replaced. */
  function UpdateField(field: FilterField, f: FetchedLists): FilterField {
    match ListFor(field.value, f)
    case Some(xs) =>
      var search := if field.control.Checkbox? then field.control.enableSearch else None;
      field.(control := Checkbox(Some(OptionsOf(xs)), search))
    case None => field
  }

  function UpdateAll(fields: seq<FilterField>, f: FetchedLists): (r: seq<FilterField>)
    ensures |r| == |fields|
    ensures forall i :: 0 <= i < |fields| ==> r[i] == UpdateField(fields[i], f)
  {
    if |fields| == 0 then [] else [UpdateField(fields[0], f)] + UpdateAll(fields[1..], f)
  }

  /** `filterFields?.map(...)`: no field list gives no field list. */
  function UpdatedFilterFields(fields: Option<seq<FilterField>>, f: FetchedLists): Option<seq<FilterField>> {
    match fields
    case None => None
    case Some(fs) => Some(UpdateAll(fs, f))
  }

  /** A rebuilt field keeps label, key and flags and gets the matching list as options;
      any other field is returned unchanged. */
  lemma UpdateFieldMeaning(field: FilterField, f: FetchedLists)
    ensures var r := UpdateField(field, f);
      && r.labelText == field.labelText && r.value == field.value
      && r.defaultOpen == field.defaultOpen && r.commandDisabled == field.commandDisabled
      && (field.value in CheckboxKeys ==>
            r.control.Checkbox? && r.control.options == Some(OptionsOf(ListFor(field.value, f).value)))
      && (field.value !in CheckboxKeys ==> r == field)
  {
  }

  /** Which fetched list feeds which key. */
  lemma ListsByKey(f: FetchedLists)
    ensures ListFor("citta", f) == Some(f.citta.GetOr([]))
    ensures ListFor("tools", f) == Some(f.tools.GetOr([]))
    ensures ListFor("database", f) == Some(f.databases.GetOr([]))
    ensures ListFor("piattaforme", f) == Some(f.piattaforme.GetOr([]))
    ensures ListFor("sistemi_operativi", f) == Some(f.sistemiOperativi.GetOr([]))
    ensures ListFor("linguaggi_programmazione", f) == Some(f.linguaggi.GetOr([]))
  {
  }

  /** Before any list arrives, every rebuilt field is a checkbox with no options. */
  lemma NothingFetchedNoOptions(field: FilterField)
    requires field.value in CheckboxKeys
    ensures var r := UpdateField(field, FetchedLists(None, None, None, None, None, None));
      r.control.Checkbox? && r.control.options == Some([])
  {
  }

  /** The values of the fields flagged `defaultOpen`, in field order. */
  function DefaultOpenValues(fields: seq<FilterField>): seq<string> {
    if |fields| == 0 then []
    else (if Flag(fields[0].defaultOpen) then [fields[0].value] else []) + DefaultOpenValues(fields[1..])
  }

  /** `updatedFilterFields?.filter(...)?.map(...)`, the accordion's open items. */
  function DefaultAccordionValues(fields: Option<seq<FilterField>>): Option<seq<string>> {
    match fields
    case None => None
    case Some(fs) => Some(DefaultOpenValues(fs))
  }

  /** A key is opened by default iff some field with that key is flagged `defaultOpen`. */
  lemma {:induction false} DefaultOpenMembership(fields: seq<FilterField>, x: string)
    ensures x in DefaultOpenValues(fields) <==>
      exists i :: 0 <= i < |fields| && Flag(fields[i].defaultOpen) && fields[i].value == x
  {
    if |fields| > 0 {
      DefaultOpenMembership(fields[1..], x);
      if exists i :: 0 <= i < |fields| && Flag(fields[i].defaultOpen) && fields[i].value == x {
        var i :| 0 <= i < |fields| && Flag(fields[i].defaultOpen) && fields[i].value == x;
        if i > 0 { assert fields[1..][i - 1] == fields[i]; }
      }
      if x in DefaultOpenValues(fields[1..]) {
        var j :| 0 <= j < |fields[1..]| && Flag(fields[1..][j].defaultOpen) && fields[1..][j].value == x;
        assert fields[j + 1] == fields[1..][j];
      }
    }
  }

  /** The open items keep field order: the items of a concatenation are those of each part. */
  lemma {:induction false} DefaultOpenAppend(a: seq<FilterField>, b: seq<FilterField>)
    ensures DefaultOpenValues(a + b) == DefaultOpenValues(a) + DefaultOpenValues(b)
  {
    if |a| > 0 {
      DefaultOpenAppend(a[1..], b);
      assert (a + b)[1..] == a[1..] + b;
    } else {
      assert a + b == b;
    }
  }

  /** Rebuilding the checkbox fields does not change which items open by default. */
  lemma {:induction false} UpdateKeepsDefaultOpen(fields: seq<FilterField>, f: FetchedLists)
    ensures DefaultOpenValues(UpdateAll(fields, f)) == DefaultOpenValues(fields)
  {
    if |fields| > 0 {
      UpdateKeepsDefaultOpen(fields[1..], f);
      var r := UpdateAll(fields, f);
      assert r[1..] == UpdateAll(fields[1..], f);
      UpdateFieldMeaning(fields[0], f);
    }
  }

  /** A column filter in the table state. */
  datatype ColumnFilter = ColumnFilter(id: string, value: JsValue)

  /** `filters.length ? <Reset/> : null`. */
  function ShowReset(filters: seq<ColumnFilter>): (shown: bool)
    ensures shown <==> exists c :: c in filters
  {
    if |filters| > 0 then assert filters[0] in filters; true else false
  }

  /** The key is printed beside the label unless it equals the lowercased label or the
      field disables the command input. */
  predicate ShowSecondaryLabel(field: FilterField) {
    field.value != Lower(field.labelText) && !Flag(field.commandDisabled)
  }

  /** A key holding an upper-case ASCII letter can never equal a lowercased label, so it is
      printed whenever the command input is enabled; a label that lowercases to the key
      hides it. */
  lemma SecondaryLabelRule(field: FilterField, i: int)
    requires 0 <= i < |field.value| && IsAsciiUpper(field.value[i])
    ensures ShowSecondaryLabel(field) <==> !Flag(field.commandDisabled)
    ensures !ShowSecondaryLabel(field.(value := Lower(field.labelText)))
  {
  }
}
