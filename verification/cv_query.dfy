/** The list query of the backend (`get_cvs` in backend/app/api/cv.py): which filters the
    parameters add, what each filter keeps, the sort order and the requested row range.
    The query builder calls become values of `Filter`, whose meaning `Eval` states. */
module CvQuery {
  import opened Wrappers
  import opened Strings
  import opened LikePattern

  /** A column value of a `cv_profiles` row; `Null` also stands for a missing column. */
  datatype Cell = Null | Text(text: string) | Number(n: int) | TextArray(items: seq<string>) | Moment(instant: int)

  type Row = map<string, Cell>

  function CellOf(row: Row, column: string): Cell {
    if column in row then row[column] else Null
  }

  /** The query parameters once decoded; dates are instants on an abstract clock. */
  datatype ListParams = ListParams(
    page: int, pageSize: int, sortBy: Option<string>, sortDesc: bool,
    search: Option<string>, nome: Option<string>, cognome: Option<string>, citta: Option<string>,
    anniEsperienzaMin: Option<int>, anniEsperienzaMax: Option<int>,
    stipendioAttualeMin: Option<int>, stipendioAttualeMax: Option<int>,
    tools: Option<seq<string>>, database: Option<seq<string>>, piattaforme: Option<seq<string>>,
    sistemiOperativi: Option<seq<string>>, linguaggi: Option<seq<string>>,
    dataDal: Option<int>, dataAl: Option<int>)

  /** Python truthiness of an optional string or list: present and non-empty. */
  predicate Given<T>(o: Option<seq<T>>) {
    o.Some? && |o.value| > 0
  }

  /** The filters the query builder is given. */
  datatype Filter =
    | AnyILike(columns: seq<string>, pattern: string)  // `or_` of `ilike` conditions
    | ILikeColumn(column: string, pattern: string)
    | AtLeast(column: string, bound: int)               // `gte`
    | AtMost(column: string, bound: int)                // `lte`
    | ContainsAll(column: string, tokens: seq<string>)  // `contains`: `cs.{t1,t2,...}`, array `@>`

  predicate TextMatches(c: Cell, pattern: string) {
    c.Text? && ILike(c.text, pattern)
  }

  /** PostgreSQL's reading of the body of an array literal whose elements are not quoted:
      `{}` is the empty array; otherwise the elements are the comma-separated parts, and an
      empty part makes the literal malformed. */
  function ArrayElements(body: string): Option<seq<string>> {
    if body == "" then Some([])
    else if "" in Split(body, ',') then None
    else Some(Split(body, ','))
  }

  /** What a row must satisfy to pass a filter. A SQL comparison with NULL is not true, so a
      NULL cell passes no filter. A `contains` filter on a list is sent as the array literal
      `{` + the tokens joined by ',' + `}`, without quoting, so PostgreSQL compares against
      the elements it reads back from the joined text. */
  predicate Eval(f: Filter, row: Row) {
    match f
    case AnyILike(cs, p) => exists i :: 0 <= i < |cs| && TextMatches(CellOf(row, cs[i]), p)
    case ILikeColumn(c, p) => TextMatches(CellOf(row, c), p)
    case AtLeast(c, b) =>
      var v := CellOf(row, c);
      (v.Number? && v.n >= b) || (v.Moment? && v.instant >= b)
    case AtMost(c, b) =>
      var v := CellOf(row, c);
      (v.Number? && v.n <= b) || (v.Moment? && v.instant <= b)
    case ContainsAll(c, ts) =>
      var v := CellOf(row, c);
      var es := ArrayElements(Join(ts, ','));
      v.TextArray? && es.Some? && forall t :: t in es.value ==> t in v.items
  }

  /** Filters added to one query are conjunctive. */
  predicate AllHold(fs: seq<Filter>, row: Row) {
    forall f :: f in fs ==> Eval(f, row)
  }

  /** How a text term is made safe for `ilike`: as the source does it (`%` and `_` escaped)
      or with the backslash escaped too. */
  datatype Escaping = AsWritten | Corrected

  function Escape(e: Escaping, term: string): string {
    if e.AsWritten? then EscapeWildcards(term) else EscapeLikeTerm(term)
  }

  const SearchColumns: seq<string> := ["nome", "cognome", "competenze"]

  function TextFilters(p: ListParams, e: Escaping): seq<Filter> {
    (if Given(p.search) then [AnyILike(SearchColumns, Wrapped(Escape(e, p.search.value)))] else [])
    + (if Given(p.nome) then [ILikeColumn("nome", Wrapped(Escape(e, p.nome.value)))] else [])
    + (if Given(p.cognome) then [ILikeColumn("cognome", Wrapped(Escape(e, p.cognome.value)))] else [])
    + (if Given(p.citta) then [ILikeColumn("citta", Wrapped(Escape(e, p.citta.value)))] else [])
  }

  /** Only the years-of-experience bounds are applied; the salary bounds are accepted and
      ignored. */
  function NumberFilters(p: ListParams): seq<Filter> {
    (if p.anniEsperienzaMin.Some? then [AtLeast("anni_esperienza", p.anniEsperienzaMin.value)] else [])
    + (if p.anniEsperienzaMax.Some? then [AtMost("anni_esperienza", p.anniEsperienzaMax.value)] else [])
  }

  /** The `linguaggi` parameter filters the `linguaggi_programmazione` column. */
  function ArrayFilters(p: ListParams): seq<Filter> {
    (if Given(p.tools) then [ContainsAll("tools", p.tools.value)] else [])
    + (if Given(p.database) then [ContainsAll("database", p.database.value)] else [])
    + (if Given(p.piattaforme) then [ContainsAll("piattaforme", p.piattaforme.value)] else [])
    + (if Given(p.sistemiOperativi) then [ContainsAll("sistemi_operativi", p.sistemiOperativi.value)] else [])
    + (if Given(p.linguaggi) then [ContainsAll("linguaggi_programmazione", p.linguaggi.value)] else [])
  }

  /** A `datetime` is always truthy, so a given date bound is always applied. */
  function DateFilters(p: ListParams): seq<Filter> {
    (if p.dataDal.Some? then [AtLeast("created_at", p.dataDal.value)] else [])
    + (if p.dataAl.Some? then [AtMost("created_at", p.dataAl.value)] else [])
  }

  function FiltersWith(p: ListParams, e: Escaping): seq<Filter> {
    TextFilters(p, e) + NumberFilters(p) + ArrayFilters(p) + DateFilters(p)
  }

  /** The filters `get_cvs` adds, in the order it adds them. */
  function BuildFilters(p: ListParams): seq<Filter> {
    FiltersWith(p, AsWritten)
  }

  /** The same with the escaping that also covers the backslash. */
  function BuildFiltersCorrected(p: ListParams): seq<Filter> {
    FiltersWith(p, Corrected)
  }

  /** A row is in the answer when it passes every added filter. */
  predicate Matches(p: ListParams, row: Row) {
    AllHold(BuildFilters(p), row)
  }

  /* ---------------- the reference meaning ---------------- */

  /** The column holds text of which `term` is a substring, ignoring case. */
  predicate TextContains(row: Row, column: string, term: string) {
    CellOf(row, column).Text? && Contains(Lower(CellOf(row, column).text), Lower(term))
  }

  predicate HasAll(row: Row, column: string, tokens: seq<string>) {
    CellOf(row, column).TextArray? && forall t :: t in tokens ==> t in CellOf(row, column).items
  }

  predicate NumberAtLeast(row: Row, column: string, b: int) {
    CellOf(row, column).Number? && CellOf(row, column).n >= b
  }

  predicate NumberAtMost(row: Row, column: string, b: int) {
    CellOf(row, column).Number? && CellOf(row, column).n <= b
  }

  predicate MomentAtLeast(row: Row, column: string, b: int) {
    CellOf(row, column).Moment? && CellOf(row, column).instant >= b
  }

  predicate MomentAtMost(row: Row, column: string, b: int) {
    CellOf(row, column).Moment? && CellOf(row, column).instant <= b
  }

  predicate TextSpec(p: ListParams, row: Row) {
    && (Given(p.search) ==> exists i :: 0 <= i < |SearchColumns| && TextContains(row, SearchColumns[i], p.search.value))
    && (Given(p.nome) ==> TextContains(row, "nome", p.nome.value))
    && (Given(p.cognome) ==> TextContains(row, "cognome", p.cognome.value))
    && (Given(p.citta) ==> TextContains(row, "citta", p.citta.value))
  }

  /** Bounds are inclusive. */
  predicate NumberSpec(p: ListParams, row: Row) {
    && (p.anniEsperienzaMin.Some? ==> NumberAtLeast(row, "anni_esperienza", p.anniEsperienzaMin.value))
    && (p.anniEsperienzaMax.Some? ==> NumberAtMost(row, "anni_esperienza", p.anniEsperienzaMax.value))
  }

  predicate ArraySpec(p: ListParams, row: Row) {
    && (Given(p.tools) ==> HasAll(row, "tools", p.tools.value))
    && (Given(p.database) ==> HasAll(row, "database", p.database.value))
    && (Given(p.piattaforme) ==> HasAll(row, "piattaforme", p.piattaforme.value))
    && (Given(p.sistemiOperativi) ==> HasAll(row, "sistemi_operativi", p.sistemiOperativi.value))
    && (Given(p.linguaggi) ==> HasAll(row, "linguaggi_programmazione", p.linguaggi.value))
  }

  predicate DateSpec(p: ListParams, row: Row) {
    && (p.dataDal.Some? ==> MomentAtLeast(row, "created_at", p.dataDal.value))
    && (p.dataAl.Some? ==> MomentAtMost(row, "created_at", p.dataAl.value))
  }

  /** The column types of `cv_profiles`: `anni_esperienza` holds a number and `created_at`
      an instant, when not NULL. */
  predicate WellTyped(row: Row) {
    && (CellOf(row, "anni_esperienza").Null? || CellOf(row, "anni_esperienza").Number?)
    && (CellOf(row, "created_at").Null? || CellOf(row, "created_at").Moment?)
  }

  /** What the list query means: every given parameter constrains its column. */
  predicate MatchesSpec(p: ListParams, row: Row) {
    TextSpec(p, row) && NumberSpec(p, row) && ArraySpec(p, row) && DateSpec(p, row)
  }

  /** Tokens that the array literal carries one for one: non-empty and free of ','. */
  predicate TokensPlain(ts: seq<string>) {
    forall i :: 0 <= i < |ts| ==> ts[i] != "" && ',' !in ts[i]
  }

  /** Every given list parameter holds plain tokens. */
  predicate ListsPlain(p: ListParams) {
    && (Given(p.tools) ==> TokensPlain(p.tools.value))
    && (Given(p.database) ==> TokensPlain(p.database.value))
    && (Given(p.piattaforme) ==> TokensPlain(p.piattaforme.value))
    && (Given(p.sistemiOperativi) ==> TokensPlain(p.sistemiOperativi.value))
    && (Given(p.linguaggi) ==> TokensPlain(p.linguaggi.value))
  }

  /* ---------------- the array filters ---------------- */

  /** What a `contains` filter keeps, for every token list: an array holding every
      comma-separated part of every token. The literal `{}` (no token, or one empty token)
      keeps every array, and a literal with an empty part keeps no row. */
  lemma ContainsAllMeaning(c: string, ts: seq<string>, row: Row)
    ensures Join(ts, ',') == "" ==> (Eval(ContainsAll(c, ts), row) <==> CellOf(row, c).TextArray?)
    ensures Join(ts, ',') != "" ==>
      (Eval(ContainsAll(c, ts), row) <==> "" !in SplitEach(ts, ',') && HasAll(row, c, SplitEach(ts, ',')))
  {
    JoinEmpty(ts, ',');
    if Join(ts, ',') != "" {
      SplitOfJoin(ts, ',');
    }
  }

  lemma {:induction false} SplitEachPlain(ts: seq<string>)
    requires TokensPlain(ts)
    ensures SplitEach(ts, ',') == ts
  {
    if |ts| > 0 {
      assert TokensPlain(ts[1..]) by {
        forall i | 0 <= i < |ts[1..]| ensures ts[1..][i] != "" && ',' !in ts[1..][i] {
          assert ts[1..][i] == ts[i + 1];
        }
      }
      SplitEachPlain(ts[1..]);
      SplitJoin([ts[0]], ',');
      assert ts == [ts[0]] + ts[1..];
    }
  }

  lemma {:induction false} SplitEachHas(ts: seq<string>, t: string)
    requires t in ts && ',' !in t
    ensures t in SplitEach(ts, ',')
  {
    if ts[0] == t {
      SplitJoin([t], ',');
    } else {
      assert t in ts[1..];
      SplitEachHas(ts[1..], t);
    }
  }

  /** A list of plain tokens is read back as sent: the filter keeps exactly the rows whose
      array holds every token. */
  lemma PlainListRead(c: string, ts: seq<string>, row: Row)
    requires |ts| > 0 && TokensPlain(ts)
    ensures Eval(ContainsAll(c, ts), row) <==> HasAll(row, c, ts)
  {
    JoinEmpty(ts, ',');
    SplitEachPlain(ts);
    ContainsAllMeaning(c, ts, row);
  }

  /** One token holding a comma-joined selection is split again by PostgreSQL: the filter
      keeps the rows whose array holds every selected item. */
  lemma JoinedTokenRequiresEach(c: string, items: seq<string>, row: Row)
    requires |items| > 0 && TokensPlain(items)
    ensures Eval(ContainsAll(c, [Join(items, ',')]), row) <==> HasAll(row, c, items)
  {
    var t := Join(items, ',');
    assert Join([t], ',') == t;
    assert SplitEach([t], ',') == Split(t, ',') + SplitEach([], ',');
    SplitJoin(items, ',');
    JoinEmpty(items, ',');
    ContainsAllMeaning(c, [t], row);
  }

  /** A non-empty token without ',' must be in the array of a row the filter keeps. */
  lemma PlainTokenRequired(c: string, ts: seq<string>, t: string, row: Row)
    requires Eval(ContainsAll(c, ts), row)
    requires t in ts && t != "" && ',' !in t
    ensures CellOf(row, c).TextArray? && t in CellOf(row, c).items
  {
    JoinEmpty(ts, ',');
    SplitEachHas(ts, t);
    ContainsAllMeaning(c, ts, row);
  }

  lemma AllHoldAppend(a: seq<Filter>, b: seq<Filter>, row: Row)
    ensures AllHold(a + b, row) <==> AllHold(a, row) && AllHold(b, row)
  {
  }

  /** A text term free of backslashes, as escaped by either method. */
  predicate TermSafe(e: Escaping, t: string) {
    e.Corrected? || '\\' !in t
  }

  lemma TermFilter(e: Escaping, t: string, row: Row, column: string)
    requires TermSafe(e, t)
    ensures TextMatches(CellOf(row, column), Wrapped(Escape(e, t))) <==> TextContains(row, column, t)
  {
    var c := CellOf(row, column);
    if c.Text? {
      if e.AsWritten? {
        TextFilterIsSubstringSearch(t, c.text);
      } else {
        EscapedTermFilterIsSubstringSearch(t, c.text);
      }
    }
  }

  /** Every text parameter that is given is a safe term for the escaping. */
  predicate TermsSafe(p: ListParams, e: Escaping) {
    && (Given(p.search) ==> TermSafe(e, p.search.value))
    && (Given(p.nome) ==> TermSafe(e, p.nome.value))
    && (Given(p.cognome) ==> TermSafe(e, p.cognome.value))
    && (Given(p.citta) ==> TermSafe(e, p.citta.value))
  }

  lemma SearchFilter(e: Escaping, t: string, row: Row)
    requires TermSafe(e, t)
    ensures Eval(AnyILike(SearchColumns, Wrapped(Escape(e, t))), row) <==>
      exists i :: 0 <= i < |SearchColumns| && TextContains(row, SearchColumns[i], t)
  {
    forall i | 0 <= i < |SearchColumns|
      ensures TextMatches(CellOf(row, SearchColumns[i]), Wrapped(Escape(e, t))) <==> TextContains(row, SearchColumns[i], t)
    {
      TermFilter(e, t, row, SearchColumns[i]);
    }
  }

  function Optional(c: bool, f: Filter): seq<Filter> {
    if c then [f] else []
  }

  lemma OptionalHolds(c: bool, f: Filter, row: Row)
    ensures AllHold(Optional(c, f), row) <==> (c ==> Eval(f, row))
  {
    if c { assert Optional(c, f) == [f]; }
  }

  lemma TextFiltersMeaning(p: ListParams, e: Escaping, row: Row)
    requires TermsSafe(p, e)
    ensures AllHold(TextFilters(p, e), row) <==> TextSpec(p, row)
  {
    var f1 := AnyILike(SearchColumns, if Given(p.search) then Wrapped(Escape(e, p.search.value)) else "");
    var f2 := ILikeColumn("nome", if Given(p.nome) then Wrapped(Escape(e, p.nome.value)) else "");
    var f3 := ILikeColumn("cognome", if Given(p.cognome) then Wrapped(Escape(e, p.cognome.value)) else "");
    var f4 := ILikeColumn("citta", if Given(p.citta) then Wrapped(Escape(e, p.citta.value)) else "");
    var a, b, c, d := Optional(Given(p.search), f1), Optional(Given(p.nome), f2),
      Optional(Given(p.cognome), f3), Optional(Given(p.citta), f4);
    assert TextFilters(p, e) == a + b + c + d;
    AllHoldAppend(a + b + c, d, row);
    AllHoldAppend(a + b, c, row);
    AllHoldAppend(a, b, row);
    OptionalHolds(Given(p.search), f1, row);
    OptionalHolds(Given(p.nome), f2, row);
    OptionalHolds(Given(p.cognome), f3, row);
    OptionalHolds(Given(p.citta), f4, row);
    if Given(p.search) { SearchFilter(e, p.search.value, row); }
    if Given(p.nome) { TermFilter(e, p.nome.value, row, "nome"); }
    if Given(p.cognome) { TermFilter(e, p.cognome.value, row, "cognome"); }
    if Given(p.citta) { TermFilter(e, p.citta.value, row, "citta"); }
  }

  lemma NumberFiltersMeaning(p: ListParams, row: Row)
    requires WellTyped(row)
    ensures AllHold(NumberFilters(p), row) <==> NumberSpec(p, row)
  {
    var f1 := AtLeast("anni_esperienza", p.anniEsperienzaMin.GetOr(0));
    var f2 := AtMost("anni_esperienza", p.anniEsperienzaMax.GetOr(0));
    var a, b := Optional(p.anniEsperienzaMin.Some?, f1), Optional(p.anniEsperienzaMax.Some?, f2);
    assert NumberFilters(p) == a + b;
    AllHoldAppend(a, b, row);
    OptionalHolds(p.anniEsperienzaMin.Some?, f1, row);
    OptionalHolds(p.anniEsperienzaMax.Some?, f2, row);
  }

  lemma ArrayFiltersMeaning(p: ListParams, row: Row)
    requires ListsPlain(p)
    ensures AllHold(ArrayFilters(p), row) <==> ArraySpec(p, row)
  {
    var f1 := ContainsAll("tools", p.tools.GetOr([]));
    var f2 := ContainsAll("database", p.database.GetOr([]));
    var f3 := ContainsAll("piattaforme", p.piattaforme.GetOr([]));
    var f4 := ContainsAll("sistemi_operativi", p.sistemiOperativi.GetOr([]));
    var f5 := ContainsAll("linguaggi_programmazione", p.linguaggi.GetOr([]));
    var a, b, c, d, g := Optional(Given(p.tools), f1), Optional(Given(p.database), f2),
      Optional(Given(p.piattaforme), f3), Optional(Given(p.sistemiOperativi), f4),
      Optional(Given(p.linguaggi), f5);
    assert ArrayFilters(p) == a + b + c + d + g;
    AllHoldAppend(a + b + c + d, g, row);
    AllHoldAppend(a + b + c, d, row);
    AllHoldAppend(a + b, c, row);
    AllHoldAppend(a, b, row);
    OptionalHolds(Given(p.tools), f1, row);
    OptionalHolds(Given(p.database), f2, row);
    OptionalHolds(Given(p.piattaforme), f3, row);
    OptionalHolds(Given(p.sistemiOperativi), f4, row);
    OptionalHolds(Given(p.linguaggi), f5, row);
    if Given(p.tools) { PlainListRead("tools", p.tools.value, row); }
    if Given(p.database) { PlainListRead("database", p.database.value, row); }
    if Given(p.piattaforme) { PlainListRead("piattaforme", p.piattaforme.value, row); }
    if Given(p.sistemiOperativi) { PlainListRead("sistemi_operativi", p.sistemiOperativi.value, row); }
    if Given(p.linguaggi) { PlainListRead("linguaggi_programmazione", p.linguaggi.value, row); }
  }

  lemma DateFiltersMeaning(p: ListParams, row: Row)
    requires WellTyped(row)
    ensures AllHold(DateFilters(p), row) <==> DateSpec(p, row)
  {
    var f1 := AtLeast("created_at", p.dataDal.GetOr(0));
    var f2 := AtMost("created_at", p.dataAl.GetOr(0));
    var a, b := Optional(p.dataDal.Some?, f1), Optional(p.dataAl.Some?, f2);
    assert DateFilters(p) == a + b;
    AllHoldAppend(a, b, row);
    OptionalHolds(p.dataDal.Some?, f1, row);
    OptionalHolds(p.dataAl.Some?, f2, row);
  }

  lemma FiltersWithMeaning(p: ListParams, e: Escaping, row: Row)
    requires TermsSafe(p, e) && ListsPlain(p) && WellTyped(row)
    ensures AllHold(FiltersWith(p, e), row) <==> MatchesSpec(p, row)
  {
    AllHoldAppend(TextFilters(p, e) + NumberFilters(p) + ArrayFilters(p), DateFilters(p), row);
    AllHoldAppend(TextFilters(p, e) + NumberFilters(p), ArrayFilters(p), row);
    AllHoldAppend(TextFilters(p, e), NumberFilters(p), row);
    TextFiltersMeaning(p, e, row);
    NumberFiltersMeaning(p, row);
    ArrayFiltersMeaning(p, row);
    DateFiltersMeaning(p, row);
  }

  /** With the corrected escaping the query means exactly the reference: case-insensitive
      substring search for the text parameters, inclusive bounds, "contains every token" for
      the list parameters of plain tokens, and nothing for a parameter that is not given. */
  lemma CorrectedQueryMeaning(p: ListParams, row: Row)
    requires ListsPlain(p) && WellTyped(row)
    ensures AllHold(BuildFiltersCorrected(p), row) <==> MatchesSpec(p, row)
  {
    FiltersWithMeaning(p, Corrected, row);
  }

  /** As written, the query means the same for text parameters without a backslash. */
  lemma QueryMeaning(p: ListParams, row: Row)
    requires TermsSafe(p, AsWritten) && ListsPlain(p) && WellTyped(row)
    ensures Matches(p, row) <==> MatchesSpec(p, row)
  {
    FiltersWithMeaning(p, AsWritten, row);
  }

  /** Each escaped term has every `%` and `_` preceded by a backslash, and a term holding
      neither is sent unchanged. */
  lemma EscapedTermsInFilters(t: string)
    ensures var r := Escape(AsWritten, t);
      forall i :: 0 <= i < |r| && (r[i] == '%' || r[i] == '_') ==> i > 0 && r[i - 1] == '\\'
    ensures '%' !in t && '_' !in t ==> Escape(AsWritten, t) == t
  {
    EscapedWildcardsArePreceded(t);
    if '%' !in t && '_' !in t { EscapeWildcardsIdentity(t); }
  }

  /** The salary bounds never constrain the query. */
  lemma SalaryBoundsIgnored(p: ListParams, lo: Option<int>, hi: Option<int>)
    ensures BuildFilters(p.(stipendioAttualeMin := lo, stipendioAttualeMax := hi)) == BuildFilters(p)
  {
  }

  /** A list filter rejects a row whose list lacks one of the selected tokens, when that
      token is non-empty and holds no ','. */
  lemma MissingTokenRejects(p: ListParams, row: Row, t: string)
    requires Given(p.tools) && t in p.tools.value && t != "" && ',' !in t
    requires !(CellOf(row, "tools").TextArray? && t in CellOf(row, "tools").items)
    ensures !Matches(p, row)
  {
    var f := ContainsAll("tools", p.tools.value);
    assert f in ArrayFilters(p);
    assert f in BuildFilters(p);
    if Matches(p, row) {
      PlainTokenRequired("tools", p.tools.value, t, row);
    }
  }

  /** A row in the answer has a languages array holding every selected language that is
      non-empty and free of ','. */
  lemma LanguagesRequired(p: ListParams, row: Row)
    requires Given(p.linguaggi) && Matches(p, row)
    ensures CellOf(row, "linguaggi_programmazione").TextArray?
    ensures forall t :: t in p.linguaggi.value && t != "" && ',' !in t ==>
      t in CellOf(row, "linguaggi_programmazione").items
    ensures TokensPlain(p.linguaggi.value) ==> HasAll(row, "linguaggi_programmazione", p.linguaggi.value)
  {
    var f := ContainsAll("linguaggi_programmazione", p.linguaggi.value);
    assert f in ArrayFilters(p);
    assert f in BuildFilters(p);
    forall t | t in p.linguaggi.value && t != "" && ',' !in t
      ensures t in CellOf(row, "linguaggi_programmazione").items
    {
      PlainTokenRequired("linguaggi_programmazione", p.linguaggi.value, t, row);
    }
  }

  /** Setting the languages of a query without them adds exactly their filter. */
  lemma LanguagesFilterAdded(p: ListParams, langs: seq<string>, row: Row)
    requires p.linguaggi.None? && |langs| > 0
    ensures Matches(p.(linguaggi := Some(langs)), row) <==>
      Matches(p, row) && Eval(ContainsAll("linguaggi_programmazione", langs), row)
  {
    var f := ContainsAll("linguaggi_programmazione", langs);
    var t, a, d := TextFilters(p, AsWritten) + NumberFilters(p), ArrayFilters(p), DateFilters(p);
    LanguagesFilterPlace(p, langs);
    AllHoldInserted(t, a, f, d, row);
  }

  /** Giving the languages adds their filter at the end of the array filters. */
  lemma LanguagesFilterPlace(p: ListParams, langs: seq<string>)
    requires p.linguaggi.None? && |langs| > 0
    ensures BuildFilters(p) == TextFilters(p, AsWritten) + NumberFilters(p) + ArrayFilters(p) + DateFilters(p)
    ensures BuildFilters(p.(linguaggi := Some(langs))) == TextFilters(p, AsWritten) + NumberFilters(p)
      + (ArrayFilters(p) + [ContainsAll("linguaggi_programmazione", langs)]) + DateFilters(p)
  {
    var q := p.(linguaggi := Some(langs));
    assert TextFilters(q, AsWritten) == TextFilters(p, AsWritten);
    assert ArrayFilters(q) == ArrayFilters(p) + [ContainsAll("linguaggi_programmazione", langs)];
  }

  lemma AllHoldInserted(t: seq<Filter>, a: seq<Filter>, f: Filter, d: seq<Filter>, row: Row)
    ensures AllHold(t + (a + [f]) + d, row) <==> AllHold(t + a + d, row) && Eval(f, row)
  {
    AllHoldAppend(t + (a + [f]), d, row);
    AllHoldAppend(t, a + [f], row);
    AllHoldAppend(a, [f], row);
    AllHoldAppend(t + a, d, row);
    AllHoldAppend(t, a, row);
  }

  /** A value equal to either bound passes: the bounds are inclusive. */
  lemma BoundsInclusive(p: ListParams, row: Row, lo: int, hi: int)
    requires lo <= hi
    requires CellOf(row, "anni_esperienza") == Number(lo) || CellOf(row, "anni_esperienza") == Number(hi)
    ensures AllHold(NumberFilters(p.(anniEsperienzaMin := Some(lo), anniEsperienzaMax := Some(hi))), row)
  {
  }

  function NoFilters(p: ListParams): ListParams {
    p.(search := None, nome := None, cognome := None, citta := None,
       anniEsperienzaMin := None, anniEsperienzaMax := None,
       tools := None, database := None, piattaforme := None, sistemiOperativi := None,
       linguaggi := None, dataDal := None, dataAl := None)
  }

  /** With no filter parameter given, every row is listed. */
  lemma NoParametersMatchAll(p: ListParams, row: Row)
    ensures Matches(NoFilters(p), row)
  {
    assert BuildFilters(NoFilters(p)) == [];
  }

  /* ---------------- order ---------------- */

  const ValidSortFields: seq<string> := ["nome", "cognome", "created_at", "anni_esperienza"]

  datatype Ordering = Ordering(column: string, descending: bool)

  /** `sort_by` is honoured when given and whitelisted; otherwise newest first. */
  function OrderOf(p: ListParams): (o: Ordering)
    ensures o.column in ValidSortFields
  {
    if Given(p.sortBy) && p.sortBy.value in ValidSortFields then Ordering(p.sortBy.value, p.sortDesc)
    else Ordering("created_at", true)
  }

  /** A requested sort, column and direction, is honoured exactly when its column is
      whitelisted. */
  lemma SortHonouredIffWhitelisted(p: ListParams)
    requires Given(p.sortBy)
    ensures OrderOf(p) == Ordering(p.sortBy.value, p.sortDesc) <==> p.sortBy.value in ValidSortFields
  {
  }

  lemma UnlistedSortIgnoresDirection(p: ListParams, desc: bool)
    requires !(Given(p.sortBy) && p.sortBy.value in ValidSortFields)
    ensures OrderOf(p.(sortDesc := desc)) == OrderOf(p) == Ordering("created_at", true)
  {
  }

  /* ---------------- range ---------------- */

  /** `start = (page - 1) * page_size`, `end = start + page_size - 1`: an inclusive range. */
  function PageRange(page: int, pageSize: int): (r: (int, int)) {
    var start := (page - 1) * pageSize;
    (start, start + pageSize - 1)
  }

  predicate ValidPaging(page: int, pageSize: int) {
    page >= 1 && 1 <= pageSize <= 100
  }

  /** A valid page asks for `page_size` rows starting at a non-negative offset, and the next
      page starts right after it. */
  lemma PageRangeShape(page: int, pageSize: int)
    requires ValidPaging(page, pageSize)
    ensures var (s, e) := PageRange(page, pageSize);
      s >= 0 && e - s + 1 == pageSize && PageRange(page + 1, pageSize).0 == e + 1
  {
  }

  /** Every row position lies in the range of exactly one page. */
  lemma PagesPartitionRows(i: nat, pageSize: int)
    requires 1 <= pageSize <= 100
    ensures var page := i / pageSize + 1;
      PageRange(page, pageSize).0 <= i <= PageRange(page, pageSize).1
    ensures forall q :: q >= 1 && PageRange(q, pageSize).0 <= i <= PageRange(q, pageSize).1 ==> q == i / pageSize + 1
  {
    var page := i / pageSize + 1;
    assert (page - 1) * pageSize == (i / pageSize) * pageSize;
    forall q | q >= 1 && PageRange(q, pageSize).0 <= i <= PageRange(q, pageSize).1
      ensures q == page
    {
      UniquePage(i, pageSize, q);
    }
  }

  lemma UniquePage(i: nat, pageSize: int, q: int)
    requires 1 <= pageSize && q >= 1
    requires (q - 1) * pageSize <= i <= (q - 1) * pageSize + pageSize - 1
    ensures q == i / pageSize + 1
  {
    var k := q - 1;
    assert i == k * pageSize + (i - k * pageSize);
    assert 0 <= i - k * pageSize < pageSize;
    DivUnique(i, pageSize, k, i - k * pageSize);
  }

  lemma DivUnique(i: int, d: int, k: int, r: int)
    requires d >= 1 && 0 <= r < d && i == k * d + r
    ensures i / d == k
  {
    var q, m := i / d, i % d;
    assert i == q * d + m && 0 <= m < d;
    assert (q - k) * d == r - m by {
      assert q * d - k * d == (q - k) * d;
    }
    MultipleInOpenRange(q - k, d, r - m);
  }

  lemma MultipleInOpenRange(x: int, d: int, y: int)
    requires d >= 1 && x * d == y && -d < y < d
    ensures x == 0
  {
  }
}
