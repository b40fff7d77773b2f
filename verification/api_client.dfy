/** The frontend's API client, frontend/src/lib/api.ts: the query `getCVs` sends for the
    list view and the payload `updateCV` sends for an edited record. `Date.toISOString`
    and `Date.toString` are the parameters `iso` and `dateText`. */
module ApiClient {
  import opened Wrappers
  import opened Strings
  import opened JsValues
  import opened QueryString

  /** `GetCVsParams`; dates are instants on an abstract clock. */
  datatype GetCVsParams = GetCVsParams(
    page: Option<int>, pageSize: Option<int>, sortBy: Option<string>, sortDesc: Option<bool>,
    tools: Option<seq<string>>, database: Option<seq<string>>,
    linguaggiProgrammazione: Option<seq<string>>,
    anniEsperienza: Option<(int, int)>,
    stipendioAttuale: Option<(int, int)>, stipendioDesiderato: Option<(int, int)>,
    ultimoContatto: Option<seq<int>>, createdAt: Option<seq<int>>)

  /** `if (params.page)`: present and not 0. */
  predicate NumberGiven(o: Option<int>) {
    o.Some? && o.value != 0
  }

  /** `params.tools?.length` and `if (params.sort_by)`: present and non-empty. */
  predicate ListGiven<T>(o: Option<seq<T>>) {
    o.Some? && |o.value| > 0
  }

  function Number(o: Option<int>): string {
    IntToDecimal(o.GetOr(0))
  }

  function Item<T>(o: Option<seq<T>>, i: nat, default: T): T {
    if o.Some? && i < |o.value| then o.value[i] else default
  }

  /** The joined array, `xs.join(',')`. */
  function Joined(o: Option<seq<string>>): string {
    Join(o.GetOr([]), ',')
  }

  /** The `searchParams` `getCVs` builds, one `set` per statement in source order, in three
      runs: paging and sort, the list filters, the ranges. The salary ranges are never read. */
  function EncodeGetCVs(p: GetCVsParams, iso: int -> string): Query {
    EncodeRanges(EncodeLists(EncodePaging([], p), p), p, iso)
  }

  function EncodePaging(q: Query, p: GetCVsParams): Query {
    var q1 := SetIf(q, NumberGiven(p.page), "page", Number(p.page));
    var q2 := SetIf(q1, NumberGiven(p.pageSize), "page_size", Number(p.pageSize));
    var q3 := SetIf(q2, ListGiven(p.sortBy), "sort_by", p.sortBy.GetOr(""));
    SetIf(q3, p.sortDesc.Some?, "sort_desc", if p.sortDesc == Some(true) then "true" else "false")
  }

  function EncodeLists(q: Query, p: GetCVsParams): Query {
    var q1 := SetIf(q, ListGiven(p.tools), "tools", Joined(p.tools));
    var q2 := SetIf(q1, ListGiven(p.database), "database", Joined(p.database));
    SetIf(q2, ListGiven(p.linguaggiProgrammazione), "linguaggi_programmazione", Joined(p.linguaggiProgrammazione))
  }

  function EncodeRanges(q: Query, p: GetCVsParams, iso: int -> string): Query {
    var range := p.anniEsperienza.GetOr((0, 0));
    var q1 := SetIf(q, p.anniEsperienza.Some?, "anni_esperienza_min", IntToDecimal(range.0));
    var q2 := SetIf(q1, p.anniEsperienza.Some?, "anni_esperienza_max", IntToDecimal(range.1));
    var q3 := SetIf(q2, ListGiven(p.ultimoContatto), "data_dal", iso(Item(p.ultimoContatto, 0, 0)));
    var q4 := SetIf(q3, ListGiven(p.ultimoContatto) && |p.ultimoContatto.value| > 1, "data_al", iso(Item(p.ultimoContatto, 1, 0)));
    SetIf(q4, ListGiven(p.createdAt), "created_at_dal", iso(Item(p.createdAt, 0, 0)))
  }

  const PagingNames: set<string> := {"page", "page_size", "sort_by", "sort_desc"}
  const ListNames: set<string> := {"tools", "database", "linguaggi_programmazione"}
  const RangeNames: set<string> := {"anni_esperienza_min", "anni_esperienza_max", "data_dal", "data_al", "created_at_dal"}
  const EncodedNames: set<string> := PagingNames + ListNames + RangeNames

  /** What each query name carries, stated name by name. */
  function Expected(p: GetCVsParams, iso: int -> string, name: string): seq<string> {
    if name in PagingNames then ExpectedPaging(p, name)
    else if name in ListNames then ExpectedList(p, name)
    else if name in RangeNames then ExpectedRange(p, iso, name)
    else []
  }

  function ExpectedPaging(p: GetCVsParams, name: string): seq<string> {
    if name == "page" then (if NumberGiven(p.page) then [IntToDecimal(p.page.value)] else [])
    else if name == "page_size" then (if NumberGiven(p.pageSize) then [IntToDecimal(p.pageSize.value)] else [])
    else if name == "sort_by" then (if ListGiven(p.sortBy) then [p.sortBy.value] else [])
    else match p.sortDesc case None => [] case Some(b) => [if b then "true" else "false"]
  }

  function ExpectedList(p: GetCVsParams, name: string): seq<string> {
    var xs := if name == "tools" then p.tools else if name == "database" then p.database
              else p.linguaggiProgrammazione;
    if ListGiven(xs) then [Join(xs.value, ',')] else []
  }

  function ExpectedRange(p: GetCVsParams, iso: int -> string, name: string): seq<string> {
    if name == "anni_esperienza_min" then
      (match p.anniEsperienza case None => [] case Some(r) => [IntToDecimal(r.0)])
    else if name == "anni_esperienza_max" then
      (match p.anniEsperienza case None => [] case Some(r) => [IntToDecimal(r.1)])
    else if name == "data_dal" then (if ListGiven(p.ultimoContatto) then [iso(p.ultimoContatto.value[0])] else [])
    else if name == "data_al" then
      (if p.ultimoContatto.Some? && |p.ultimoContatto.value| > 1 then [iso(p.ultimoContatto.value[1])] else [])
    else (if ListGiven(p.createdAt) then [iso(p.createdAt.value[0])] else [])
  }

  lemma EncodePagingMeaning(q: Query, p: GetCVsParams, name: string)
    requires name in PagingNames ==> Values(q, name) == []
    ensures Values(EncodePaging(q, p), name) ==
      if name in PagingNames then ExpectedPaging(p, name) else Values(q, name)
  {
    var q1 := SetIf(q, NumberGiven(p.page), "page", Number(p.page));
    var q2 := SetIf(q1, NumberGiven(p.pageSize), "page_size", Number(p.pageSize));
    var q3 := SetIf(q2, ListGiven(p.sortBy), "sort_by", p.sortBy.GetOr(""));
    ValuesSetIf(q, NumberGiven(p.page), "page", Number(p.page), name);
    ValuesSetIf(q1, NumberGiven(p.pageSize), "page_size", Number(p.pageSize), name);
    ValuesSetIf(q2, ListGiven(p.sortBy), "sort_by", p.sortBy.GetOr(""), name);
    ValuesSetIf(q3, p.sortDesc.Some?, "sort_desc", if p.sortDesc == Some(true) then "true" else "false", name);
    if name == "page" {
    } else if name == "page_size" {
    } else if name == "sort_by" {
    } else if name == "sort_desc" {
    } else {
      assert name !in PagingNames;
    }
  }

  lemma EncodeListsMeaning(q: Query, p: GetCVsParams, name: string)
    requires name in ListNames ==> Values(q, name) == []
    ensures Values(EncodeLists(q, p), name) ==
      if name in ListNames then ExpectedList(p, name) else Values(q, name)
  {
    var q1 := SetIf(q, ListGiven(p.tools), "tools", Joined(p.tools));
    var q2 := SetIf(q1, ListGiven(p.database), "database", Joined(p.database));
    ValuesSetIf(q, ListGiven(p.tools), "tools", Joined(p.tools), name);
    ValuesSetIf(q1, ListGiven(p.database), "database", Joined(p.database), name);
    ValuesSetIf(q2, ListGiven(p.linguaggiProgrammazione), "linguaggi_programmazione", Joined(p.linguaggiProgrammazione), name);
    if name == "tools" {
    } else if name == "database" {
    } else if name == "linguaggi_programmazione" {
    } else {
      assert name !in ListNames;
    }
  }

  lemma EncodeRangesMeaning(q: Query, p: GetCVsParams, iso: int -> string, name: string)
    requires name in RangeNames ==> Values(q, name) == []
    ensures Values(EncodeRanges(q, p, iso), name) ==
      if name in RangeNames then ExpectedRange(p, iso, name) else Values(q, name)
  {
    var range := p.anniEsperienza.GetOr((0, 0));
    var q1 := SetIf(q, p.anniEsperienza.Some?, "anni_esperienza_min", IntToDecimal(range.0));
    var q2 := SetIf(q1, p.anniEsperienza.Some?, "anni_esperienza_max", IntToDecimal(range.1));
    var q3 := SetIf(q2, ListGiven(p.ultimoContatto), "data_dal", iso(Item(p.ultimoContatto, 0, 0)));
    var q4 := SetIf(q3, ListGiven(p.ultimoContatto) && |p.ultimoContatto.value| > 1, "data_al", iso(Item(p.ultimoContatto, 1, 0)));
    ValuesSetIf(q, p.anniEsperienza.Some?, "anni_esperienza_min", IntToDecimal(range.0), name);
    ValuesSetIf(q1, p.anniEsperienza.Some?, "anni_esperienza_max", IntToDecimal(range.1), name);
    ValuesSetIf(q2, ListGiven(p.ultimoContatto), "data_dal", iso(Item(p.ultimoContatto, 0, 0)), name);
    ValuesSetIf(q3, ListGiven(p.ultimoContatto) && |p.ultimoContatto.value| > 1, "data_al", iso(Item(p.ultimoContatto, 1, 0)), name);
    ValuesSetIf(q4, ListGiven(p.createdAt), "created_at_dal", iso(Item(p.createdAt, 0, 0)), name);
    if name == "anni_esperienza_min" {
    } else if name == "anni_esperienza_max" {
    } else if name == "data_dal" {
    } else if name == "data_al" {
    } else if name == "created_at_dal" {
    } else {
      assert name !in RangeNames;
    }
  }

  lemma NamesDisjoint(name: string)
    ensures name in PagingNames ==> name !in ListNames && name !in RangeNames
    ensures name in ListNames ==> name !in RangeNames
  {
    if name in PagingNames {
      assert name == "page" || name == "page_size" || name == "sort_by" || name == "sort_desc";
    } else if name in ListNames {
      assert name == "tools" || name == "database" || name == "linguaggi_programmazione";
    }
  }

  /** Every name carries at most the one value `Expected` gives it. */
  lemma EncodeGetCVsMeaning(p: GetCVsParams, iso: int -> string, name: string)
    ensures Values(EncodeGetCVs(p, iso), name) == Expected(p, iso, name)
  {
    var q1 := EncodePaging([], p);
    var q2 := EncodeLists(q1, p);
    NamesDisjoint(name);
    EncodePagingMeaning([], p, name);
    EncodeListsMeaning(q1, p, name);
    EncodeRangesMeaning(q2, p, iso, name);
  }

  /** No other name is ever sent: in particular neither salary range. */
  lemma OnlyEncodedNamesSent(p: GetCVsParams, iso: int -> string, name: string)
    requires name !in EncodedNames
    ensures Values(EncodeGetCVs(p, iso), name) == []
  {
    EncodeGetCVsMeaning(p, iso, name);
    assert name !in PagingNames && name !in ListNames && name !in RangeNames;
  }

  /** A name outside `EncodedNames` is expected to carry nothing. */
  lemma NothingExpected(p: GetCVsParams, iso: int -> string, name: string)
    requires name !in EncodedNames
    ensures Expected(p, iso, name) == []
  {
    assert name !in PagingNames && name !in ListNames && name !in RangeNames;
  }

  /** Paging and sort: a page of 0 is omitted, while `sort_desc` is sent whenever it is
      defined, `false` included. */
  lemma PagingAndSortSent(p: GetCVsParams, iso: int -> string)
    ensures p.page == Some(0) ==> Values(EncodeGetCVs(p, iso), "page") == []
    ensures p.sortDesc == Some(false) ==> Values(EncodeGetCVs(p, iso), "sort_desc") == ["false"]
    ensures p.sortDesc == None ==> Values(EncodeGetCVs(p, iso), "sort_desc") == []
  {
    EncodeGetCVsMeaning(p, iso, "page");
    EncodeGetCVsMeaning(p, iso, "sort_desc");
  }

  /** A list is sent as one comma-joined value, and splitting that value on ',' gives the
      list back exactly when no element contains a comma. */
  lemma ArrayParamJoined(p: GetCVsParams, iso: int -> string)
    requires ListGiven(p.tools)
    ensures Values(EncodeGetCVs(p, iso), "tools") == [Join(p.tools.value, ',')]
    ensures Split(Join(p.tools.value, ','), ',') == p.tools.value <==>
      forall i :: 0 <= i < |p.tools.value| ==> ',' !in p.tools.value[i]
  {
    EncodeGetCVsMeaning(p, iso, "tools");
    SplitJoinIff(p.tools.value, ',');
  }

  /** The experience range becomes its two bounds. */
  lemma ExperienceRangeSent(p: GetCVsParams, iso: int -> string)
    ensures p.anniEsperienza.Some? ==>
      && Values(EncodeGetCVs(p, iso), "anni_esperienza_min") == [IntToDecimal(p.anniEsperienza.value.0)]
      && Values(EncodeGetCVs(p, iso), "anni_esperienza_max") == [IntToDecimal(p.anniEsperienza.value.1)]
    ensures p.anniEsperienza.None? ==> Values(EncodeGetCVs(p, iso), "anni_esperienza_min") == []
  {
    EncodeGetCVsMeaning(p, iso, "anni_esperienza_min");
    EncodeGetCVsMeaning(p, iso, "anni_esperienza_max");
  }

  /** Of the last-contact dates the first is the lower bound and the second, when there is
      one, the upper. */
  lemma DatesSent(p: GetCVsParams, iso: int -> string)
    ensures p.ultimoContatto == Some([]) ==> Values(EncodeGetCVs(p, iso), "data_dal") == []
    ensures ListGiven(p.ultimoContatto) ==>
      && Values(EncodeGetCVs(p, iso), "data_dal") == [iso(p.ultimoContatto.value[0])]
      && (|p.ultimoContatto.value| == 1 <==> Values(EncodeGetCVs(p, iso), "data_al") == [])
  {
    EncodeGetCVsMeaning(p, iso, "data_dal");
    EncodeGetCVsMeaning(p, iso, "data_al");
  }

  /** Of the creation dates only the first is sent. */
  lemma CreationDateSent(p: GetCVsParams, iso: int -> string)
    ensures ListGiven(p.createdAt) ==> Values(EncodeGetCVs(p, iso), "created_at_dal") == [iso(p.createdAt.value[0])]
    ensures !ListGiven(p.createdAt) ==> Values(EncodeGetCVs(p, iso), "created_at_dal") == []
  {
    EncodeGetCVsMeaning(p, iso, "created_at_dal");
  }

  /** The encoder with the languages filter sent under `linguaggi`, the name `get_cvs`
      reads; everything else as `EncodeGetCVs`. */
  function EncodeGetCVsCorrected(p: GetCVsParams, iso: int -> string): Query {
    var langs := p.linguaggiProgrammazione;
    SetIf(EncodeGetCVs(p.(linguaggiProgrammazione := None), iso), ListGiven(langs), "linguaggi", Joined(langs))
  }

  /** The corrected encoder sends the languages under `linguaggi` and nothing under the old
      name; every other name carries what `EncodeGetCVs` sends. */
  lemma EncodeGetCVsCorrectedMeaning(p: GetCVsParams, iso: int -> string, name: string)
    ensures Values(EncodeGetCVsCorrected(p, iso), name) ==
      if name == "linguaggi" then
        (if ListGiven(p.linguaggiProgrammazione) then [Join(p.linguaggiProgrammazione.value, ',')] else [])
      else if name == "linguaggi_programmazione" then []
      else Values(EncodeGetCVs(p, iso), name)
  {
    var p' := p.(linguaggiProgrammazione := None);
    ValuesSetIf(EncodeGetCVs(p', iso), ListGiven(p.linguaggiProgrammazione), "linguaggi", Joined(p.linguaggiProgrammazione), name);
    EncodeGetCVsMeaning(p', iso, name);
    if name == "linguaggi" {
      NothingExpected(p', iso, name);
    } else if name != "linguaggi_programmazione" {
      EncodeGetCVsMeaning(p, iso, name);
      ExpectedOtherThanLanguages(p, iso, name);
    }
  }

  lemma ExpectedOtherThanLanguages(p: GetCVsParams, iso: int -> string, name: string)
    requires name != "linguaggi_programmazione"
    ensures Expected(p.(linguaggiProgrammazione := None), iso, name) == Expected(p, iso, name)
  {
  }

  /* ---------------- updateCV ---------------- */

  /** A record as a JSON-bound object; key order is not modelled. */
  type Record = map<string, JsValue>

  function Get(data: Record, key: string): JsValue {
    if key in data then data[key] else Undefined
  }

  const DateKeys: seq<string> := ["scadenza_contratto", "data_nascita", "ultimo_contatto"]

  /** `s.slice(0, 10)`. */
  function Prefix10(s: string): (r: string)
    ensures |r| == if |s| < 10 then |s| else 10
    ensures r == s[..|r|]
  {
    if |s| <= 10 then s else s[..10]
  }

  /** One date field of the payload: `null` when falsy; for a Date the part of its ISO text
      before the first 'T'; otherwise the first ten characters of `String(v)`. */
  function NormaliseDate(v: JsValue, iso: int -> string, dateText: int -> string): JsValue {
    if !Truthy(v) then Null
    else if v.DateV? then Str(Split(iso(v.instant), 'T')[0])
    else Str(Prefix10(JsString(v, dateText)))
  }

  /** `dataToSend`: `created_at` dropped, the rest copied, then the three date fields
      overridden (present even when the input lacks them). */
  function UpdatePayload(data: Record, iso: int -> string, dateText: int -> string): Record {
    var rest := map k | k in data && k != "created_at" :: data[k];
    rest["scadenza_contratto" := NormaliseDate(Get(data, "scadenza_contratto"), iso, dateText)]
        ["data_nascita" := NormaliseDate(Get(data, "data_nascita"), iso, dateText)]
        ["ultimo_contatto" := NormaliseDate(Get(data, "ultimo_contatto"), iso, dateText)]
  }

  /** The payload never carries `created_at`; it has the three date keys and every other
      input key with its value unchanged, and nothing else. */
  lemma UpdatePayloadShape(data: Record, iso: int -> string, dateText: int -> string)
    ensures var out := UpdatePayload(data, iso, dateText);
      && "created_at" !in out
      && (forall k :: k in DateKeys ==> k in out && out[k] == NormaliseDate(Get(data, k), iso, dateText))
      && (forall k :: k in data && k != "created_at" && k !in DateKeys ==> k in out && out[k] == data[k])
      && (forall k :: k in out ==> k in DateKeys || (k in data && k != "created_at"))
  {
    assert DateKeys[0] == "scadenza_contratto" && DateKeys[1] == "data_nascita" && DateKeys[2] == "ultimo_contatto";
  }

  /** A falsy value becomes `null`, a value's string form is cut to ten characters, and a
      Date whose ISO text is `d` + "T" + time is sent as `d`. */
  lemma NormaliseDateCases(v: JsValue, d: string, time: string, t: int, iso: int -> string, dateText: int -> string)
    requires 'T' !in d && iso(t) == d + "T" + time
    ensures !Truthy(v) ==> NormaliseDate(v, iso, dateText) == Null
    ensures v.Str? && |v.s| > 0 ==> NormaliseDate(v, iso, dateText) == Str(Prefix10(v.s))
    ensures NormaliseDate(DateV(t), iso, dateText) == Str(d)
  {
    SplitPrefix(d, time, 'T');
  }

  /** Splitting a text with no `sep` in its first part gives that part first. */
  lemma SplitPrefix(d: string, rest: string, sep: char)
    requires sep !in d
    ensures Split(d + [sep] + rest, sep)[0] == d
  {
    var parts := Split(rest, sep);
    SplitPartsFree(rest, sep);
    JoinSplit(rest, sep);
    SplitJoinIff([d] + parts, sep);
    forall i | 0 <= i < |[d] + parts| ensures sep !in ([d] + parts)[i] {
      if i > 0 { assert ([d] + parts)[i] == parts[i - 1]; }
    }
    assert Join([d] + parts, sep) == d + [sep] + Join(parts, sep) by {
      assert ([d] + parts)[1..] == parts;
    }
  }

  /** Normalising a string field twice changes nothing more than once. */
  lemma NormaliseStringIdempotent(s: string, iso: int -> string, dateText: int -> string)
    ensures var once := NormaliseDate(Str(s), iso, dateText);
      NormaliseDate(once, iso, dateText) == once
  {
  }
}
