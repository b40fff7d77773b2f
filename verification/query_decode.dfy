/** How FastAPI turns the query string of `GET /cv` into the arguments of `get_cvs`
    (backend/app/api/cv.py): a scalar parameter reads the last value sent under its name, a
    list parameter every value, absent parameters take their defaults, unknown names are
    ignored, and a value that does not parse or breaks a bound makes the request fail with
    the names of the offending parameters. `datetime` parsing is the parameter
    `parseInstant`. */
module QueryDecode {
  import opened Wrappers
  import opened Strings
  import opened PyText
  import opened QueryString
  import opened CvQuery

  /** One parameter after validation. */
  datatype Field<T> = Absent | Value(v: T) | Invalid

  /** The values the request carries for each parameter of `get_cvs`, in declaration order. */
  datatype Raw = Raw(
    page: seq<string>, pageSize: seq<string>, sortBy: seq<string>, sortDesc: seq<string>,
    search: seq<string>, nome: seq<string>, cognome: seq<string>, citta: seq<string>,
    anniEsperienzaMin: seq<string>, anniEsperienzaMax: seq<string>,
    stipendioAttualeMin: seq<string>, stipendioAttualeMax: seq<string>,
    tools: seq<string>, database: seq<string>, piattaforme: seq<string>,
    sistemiOperativi: seq<string>, linguaggi: seq<string>,
    dataDal: seq<string>, dataAl: seq<string>)

  /** The names of the parameters of `get_cvs`. */
  const KnownNames: set<string> := {
    "page", "page_size", "sort_by", "sort_desc", "search", "nome", "cognome", "citta",
    "anni_esperienza_min", "anni_esperienza_max", "stipendio_attuale_min", "stipendio_attuale_max",
    "tools", "database", "piattaforme", "sistemi_operativi", "linguaggi", "data_dal", "data_al"}

  function RawOf(q: Query): Raw {
    Raw(Values(q, "page"), Values(q, "page_size"), Values(q, "sort_by"), Values(q, "sort_desc"),
        Values(q, "search"), Values(q, "nome"), Values(q, "cognome"), Values(q, "citta"),
        Values(q, "anni_esperienza_min"), Values(q, "anni_esperienza_max"),
        Values(q, "stipendio_attuale_min"), Values(q, "stipendio_attuale_max"),
        Values(q, "tools"), Values(q, "database"), Values(q, "piattaforme"),
        Values(q, "sistemi_operativi"), Values(q, "linguaggi"),
        Values(q, "data_dal"), Values(q, "data_al"))
  }

  /* ---------------- one parameter ---------------- */

  const TrueWords: seq<string> := ["1", "on", "t", "true", "y", "yes"]
  const FalseWords: seq<string> := ["0", "off", "f", "false", "n", "no"]

  /** Pydantic's reading of a string as `bool`, ignoring ASCII case. */
  function PyBool(s: string): Option<bool> {
    if Lower(s) in TrueWords then Some(true)
    else if Lower(s) in FalseWords then Some(false)
    else None
  }

  function LastOf(vs: seq<string>): string
    requires |vs| > 0
  {
    vs[|vs| - 1]
  }

  function TextValue(vs: seq<string>): Option<string> {
    if |vs| == 0 then None else Some(LastOf(vs))
  }

  function IntValue(vs: seq<string>): Field<int> {
    if |vs| == 0 then Absent
    else match PyInt(LastOf(vs)) case None => Invalid case Some(n) => Value(n)
  }

  function BoolValue(vs: seq<string>): Field<bool> {
    if |vs| == 0 then Absent
    else match PyBool(LastOf(vs)) case None => Invalid case Some(b) => Value(b)
  }

  function DateValue(vs: seq<string>, parseInstant: string -> Option<int>): Field<int> {
    if |vs| == 0 then Absent
    else match parseInstant(LastOf(vs)) case None => Invalid case Some(t) => Value(t)
  }

  /** A list parameter with no value takes its default, `None`. */
  function ListValue(vs: seq<string>): Option<seq<string>> {
    if |vs| == 0 then None else Some(vs)
  }

  /** `Query(default, ge=lo, le=hi)` on an `int`. */
  function Bounded(f: Field<int>, default: int, lo: int, hi: Option<int>): (r: Field<int>)
    ensures !r.Absent?
    ensures r.Value? ==> lo <= r.v && (hi.Some? ==> r.v <= hi.value)
  {
    match f
    case Absent => if lo <= default && (hi.Some? ==> default <= hi.value) then Value(default) else Invalid
    case Invalid => Invalid
    case Value(n) => if lo <= n && (hi.Some? ==> n <= hi.value) then Value(n) else Invalid
  }

  function OptionOf<T>(f: Field<T>): Option<T> {
    if f.Value? then Some(f.v) else None
  }

  /* ---------------- the whole request ---------------- */

  function PageOf(r: Raw): Field<int> { Bounded(IntValue(r.page), 1, 1, None) }
  function PageSizeOf(r: Raw): Field<int> { Bounded(IntValue(r.pageSize), 10, 1, Some(100)) }
  function SortDescOf(r: Raw): Field<bool> {
    match BoolValue(r.sortDesc) case Absent => Value(false) case f => f
  }

  /** The validated parameters, each read by its type and checked against its bounds. */
  datatype Scalars = Scalars(
    page: Field<int>, pageSize: Field<int>, sortDesc: Field<bool>,
    anniEsperienzaMin: Field<int>, anniEsperienzaMax: Field<int>,
    stipendioAttualeMin: Field<int>, stipendioAttualeMax: Field<int>,
    dataDal: Field<int>, dataAl: Field<int>)

  function ScalarsOf(r: Raw, parseInstant: string -> Option<int>): Scalars {
    Scalars(PageOf(r), PageSizeOf(r), SortDescOf(r),
            IntValue(r.anniEsperienzaMin), IntValue(r.anniEsperienzaMax),
            IntValue(r.stipendioAttualeMin), IntValue(r.stipendioAttualeMax),
            DateValue(r.dataDal, parseInstant), DateValue(r.dataAl, parseInstant))
  }

  /** The names of the parameters whose value is refused, in declaration order. The page,
      page size and sort direction have defaults, so `ScalarsOf` never leaves them absent. */
  function Problems(s: Scalars): seq<string> {
    (if !s.page.Value? then ["page"] else [])
    + (if !s.pageSize.Value? then ["page_size"] else [])
    + (if !s.sortDesc.Value? then ["sort_desc"] else [])
    + (if s.anniEsperienzaMin.Invalid? then ["anni_esperienza_min"] else [])
    + (if s.anniEsperienzaMax.Invalid? then ["anni_esperienza_max"] else [])
    + (if s.stipendioAttualeMin.Invalid? then ["stipendio_attuale_min"] else [])
    + (if s.stipendioAttualeMax.Invalid? then ["stipendio_attuale_max"] else [])
    + (if s.dataDal.Invalid? then ["data_dal"] else [])
    + (if s.dataAl.Invalid? then ["data_al"] else [])
  }

  /** The call of `get_cvs` with the validated parameters `s` and the text and list
      parameters of `r`, or the refusal. */
  function Assemble(r: Raw, s: Scalars): Result<ListParams, seq<string>> {
    var problems := Problems(s);
    if |problems| > 0 then Err(problems)
    else
      Ok(ListParams(
        s.page.v, s.pageSize.v, TextValue(r.sortBy), s.sortDesc.v,
        TextValue(r.search), TextValue(r.nome), TextValue(r.cognome), TextValue(r.citta),
        OptionOf(s.anniEsperienzaMin), OptionOf(s.anniEsperienzaMax),
        OptionOf(s.stipendioAttualeMin), OptionOf(s.stipendioAttualeMax),
        ListValue(r.tools), ListValue(r.database), ListValue(r.piattaforme),
        ListValue(r.sistemiOperativi), ListValue(r.linguaggi),
        OptionOf(s.dataDal), OptionOf(s.dataAl)))
  }

  function DecodeRaw(r: Raw, parseInstant: string -> Option<int>): Result<ListParams, seq<string>> {
    Assemble(r, ScalarsOf(r, parseInstant))
  }

  /** The arguments `get_cvs` is called with, or the names FastAPI reports in its 422. */
  function Decode(q: Query, parseInstant: string -> Option<int>): Result<ListParams, seq<string>> {
    DecodeRaw(RawOf(q), parseInstant)
  }

  /* ---------------- properties ---------------- */

  /** Scalars: the last value sent is the one read, whatever came before it. */
  lemma LastValueWins(vs: seq<string>, v: string, parseInstant: string -> Option<int>)
    ensures TextValue(vs + [v]) == Some(v)
    ensures IntValue(vs + [v]) == IntValue([v])
    ensures BoolValue(vs + [v]) == BoolValue([v])
    ensures DateValue(vs + [v], parseInstant) == DateValue([v], parseInstant)
  {
  }

  /** Lists: every value sent under the name, in order, each element taken whole. */
  lemma ListCollectsAll(q: Query, name: string, xs: seq<string>)
    requires Values(q, name) == [] && |xs| > 0
    ensures ListValue(Values(AppendAll(q, name, xs), name)) == Some(xs)
  {
    ValuesAppendAll(q, name, xs, name);
    assert [] + xs == xs;
  }

  /** A request without parameters lists page 1 of 10 rows, unsorted and unfiltered. */
  lemma EmptyQueryDefaults(parseInstant: string -> Option<int>)
    ensures Decode([], parseInstant) == Ok(ListParams(1, 10, None, false, None, None, None, None,
      None, None, None, None, None, None, None, None, None, None, None))
  {
  }

  /** A name that is no parameter of `get_cvs` changes nothing. */
  lemma UnknownNameIgnored(q: Query, name: string, value: string, parseInstant: string -> Option<int>)
    requires name !in KnownNames
    ensures Decode(q + [(name, value)], parseInstant) == Decode(q, parseInstant)
  {
    forall n | n in KnownNames ensures Values(q + [(name, value)], n) == Values(q, n) {
      ValuesAppend(q, [(name, value)], n);
    }
    RawOfKnownNames(q + [(name, value)], q);
  }

  /** The decoded request depends only on the values of the parameters' names. */
  lemma RawOfKnownNames(q: Query, q': Query)
    requires forall n :: n in KnownNames ==> Values(q, n) == Values(q', n)
    ensures RawOf(q) == RawOf(q')
  {
  }

  /** The request is accepted exactly when no validated parameter is refused: page at least
      1, page size between 1 and 100, and every bool, int and datetime given readable. */
  lemma DecodeAcceptsIff(r: Raw, parseInstant: string -> Option<int>)
    ensures DecodeRaw(r, parseInstant).Ok? <==>
      && (|r.page| == 0 || (PyInt(LastOf(r.page)).Some? && PyInt(LastOf(r.page)).value >= 1))
      && (|r.pageSize| == 0 || (PyInt(LastOf(r.pageSize)).Some? && 1 <= PyInt(LastOf(r.pageSize)).value <= 100))
      && (|r.sortDesc| == 0 || PyBool(LastOf(r.sortDesc)).Some?)
      && (|r.anniEsperienzaMin| == 0 || PyInt(LastOf(r.anniEsperienzaMin)).Some?)
      && (|r.anniEsperienzaMax| == 0 || PyInt(LastOf(r.anniEsperienzaMax)).Some?)
      && (|r.stipendioAttualeMin| == 0 || PyInt(LastOf(r.stipendioAttualeMin)).Some?)
      && (|r.stipendioAttualeMax| == 0 || PyInt(LastOf(r.stipendioAttualeMax)).Some?)
      && (|r.dataDal| == 0 || parseInstant(LastOf(r.dataDal)).Some?)
      && (|r.dataAl| == 0 || parseInstant(LastOf(r.dataAl)).Some?)
  {
  }

  /** Refusals are reported in declaration order, the page first, and nothing is reported
      for a request that is accepted. */
  lemma ProblemsInOrder(r: Raw, parseInstant: string -> Option<int>)
    ensures var ps := Problems(ScalarsOf(r, parseInstant));
      && |ps| <= 9
      && (PageOf(r).Invalid? ==> ps[0] == "page")
      && (!PageOf(r).Invalid? && PageSizeOf(r).Invalid? ==> ps[0] == "page_size")
      && (DateValue(r.dataAl, parseInstant).Invalid? ==> ps[|ps| - 1] == "data_al")
  {
  }

  /** On success the page and page size are in range, and each scalar is the last value
      sent, read by its type. */
  lemma DecodedValues(r: Raw, parseInstant: string -> Option<int>)
    requires DecodeRaw(r, parseInstant).Ok?
    ensures var p := DecodeRaw(r, parseInstant).value;
      && p.page >= 1 && 1 <= p.pageSize <= 100
      && (|r.page| == 0 ==> p.page == 1)
      && (|r.page| > 0 ==> Some(p.page) == PyInt(LastOf(r.page)))
      && (|r.pageSize| == 0 ==> p.pageSize == 10)
      && (|r.sortDesc| == 0 ==> !p.sortDesc)
      && (|r.sortDesc| > 0 ==> Some(p.sortDesc) == PyBool(LastOf(r.sortDesc)))
      && (p.sortBy.Some? <==> |r.sortBy| > 0)
      && (p.tools.Some? ==> p.tools.value == r.tools && |r.tools| > 0)
      && (p.dataDal.Some? <==> |r.dataDal| > 0)
  {
  }

  /** The decimal text of `n` has no more digits than the backend reads as an integer. */
  predicate IntTextFits(n: int) {
    |NatToDecimal(if n < 0 then -n else n)| <= MaxStrDigits
  }

  /** Decimal text of an integer is read back as a query integer exactly when its digits fit the
      limit; a longer one is refused. */
  lemma PyIntOfDecimal(n: int)
    ensures PyInt(IntToDecimal(n)) == if IntTextFits(n) then Some(n) else None
  {
    NatToDecimalValue(if n < 0 then -n else n);
    if n < 0 {
      PyIntMinusDigits(NatToDecimal(-n));
      ReadGroupsOfDigits(NatToDecimal(-n));
    } else {
      PyIntOfDigits(NatToDecimal(n));
    }
  }

  /** A parameter sent once as an integer's decimal text is read as that integer when its
      digits fit the limit, and is invalid otherwise. */
  lemma IntValueOfDecimal(n: int)
    ensures IntValue([IntToDecimal(n)]) == if IntTextFits(n) then Value(n) else Invalid
  {
    PyIntOfDecimal(n);
    assert LastOf([IntToDecimal(n)]) == IntToDecimal(n);
  }

  /** A minus sign before digits negates what the digits read as. */
  lemma PyIntMinusDigits(d: string)
    requires |d| > 0 && AllDigits(d)
    ensures PyInt("-" + d) == if ReadGroups(d).None? then None else Some(0 - ReadGroups(d).value)
  {
    var s := "-" + d;
    assert !IsSpace(s[|s| - 1]) by { assert s[|s| - 1] == d[|d| - 1]; }
    StripNoSpace(s);
    PyIntOfMinus(s);
    assert s[1..] == d;
  }

  /** A page size, or any number of at most three digits, fits the limit. */
  lemma ShortIntFits(n: int)
    requires -1000 < n < 1000
    ensures IntTextFits(n)
  {
    var a := if n < 0 then -n else n;
    if a >= 10 {
      assert |NatToDecimal(a / 10)| <= 2 by {
        if a / 10 >= 10 { assert |NatToDecimal(a / 100)| == 1; }
      }
    }
  }

  /** A page below 1 or a page size outside 1..100 is refused by name. */
  lemma PagingBoundsEnforced(q: Query, n: int, parseInstant: string -> Option<int>)
    ensures n < 1 ==> Decode(q + [("page", IntToDecimal(n))], parseInstant).Err?
    ensures n < 1 || n > 100 ==>
      var d := Decode(q + [("page_size", IntToDecimal(n))], parseInstant);
      d.Err? && "page_size" in d.error
  {
    if n < 1 {
      PageBelowOneRefused(q, n, parseInstant);
    }
    if n < 1 || n > 100 {
      PageSizeOutsideRefused(q, n, parseInstant);
    }
  }

  lemma PageBelowOneRefused(q: Query, n: int, parseInstant: string -> Option<int>)
    requires n < 1
    ensures Decode(q + [("page", IntToDecimal(n))], parseInstant).Err?
  {
    var r := RawOf(q + [("page", IntToDecimal(n))]);
    ValuesAppend(q, [("page", IntToDecimal(n))], "page");
    LastNumberRefused(r, Values(q, "page"), n, parseInstant);
  }

  lemma PageSizeOutsideRefused(q: Query, n: int, parseInstant: string -> Option<int>)
    requires n < 1 || n > 100
    ensures var d := Decode(q + [("page_size", IntToDecimal(n))], parseInstant);
      d.Err? && "page_size" in d.error
  {
    var r := RawOf(q + [("page_size", IntToDecimal(n))]);
    ValuesAppend(q, [("page_size", IntToDecimal(n))], "page_size");
    LastNumberRefused(r, Values(q, "page_size"), n, parseInstant);
  }

  /** A page below 1, or a page size outside 1..100, sent last is refused by name. */
  lemma LastNumberRefused(r: Raw, vs: seq<string>, n: int, parseInstant: string -> Option<int>)
    ensures r.page == vs + [IntToDecimal(n)] && n < 1 ==>
      DecodeRaw(r, parseInstant).Err? && "page" in DecodeRaw(r, parseInstant).error
    ensures r.pageSize == vs + [IntToDecimal(n)] && (n < 1 || n > 100) ==>
      DecodeRaw(r, parseInstant).Err? && "page_size" in DecodeRaw(r, parseInstant).error
  {
    LastValueWins(vs, IntToDecimal(n), parseInstant);
    IntValueOfDecimal(n);
    ProblemNamed(r, ScalarsOf(r, parseInstant));
  }

  /** A refused page or page size is reported by name. */
  lemma ProblemNamed(r: Raw, s: Scalars)
    ensures !s.page.Value? ==> Assemble(r, s).Err? && "page" in Assemble(r, s).error
    ensures !s.pageSize.Value? ==> Assemble(r, s).Err? && "page_size" in Assemble(r, s).error
  {
    if !s.page.Value? { assert Problems(s)[0] == "page"; }
    if !s.pageSize.Value? {
      var k := if s.page.Value? then 0 else 1;
      assert Problems(s)[k] == "page_size";
    }
  }

  /** `sort_desc` is read ignoring ASCII case. */
  lemma PyBoolIgnoresCase(s: string)
    ensures PyBool(s) == PyBool(Lower(s))
  {
    LowerIdempotent(s);
  }

  /** The words the frontend sends for `sort_desc` are read as the booleans they name. */
  lemma SortDescWords()
    ensures PyBool("true") == Some(true) && PyBool("false") == Some(false)
  {
    LowerOfLower("true");
    LowerOfLower("false");
    assert TrueWords[3] == "true" && FalseWords[3] == "false";
  }

  /** An empty `sort_desc` is refused. */
  lemma EmptyWordRefused()
    ensures PyBool("") == None
  {
    assert Lower("") == "";
  }

  lemma LowerIdempotent(s: string)
    ensures Lower(Lower(s)) == Lower(s)
  {
  }

  lemma LowerOfLower(s: string)
    requires forall i :: 0 <= i < |s| ==> !IsAsciiUpper(s[i])
    ensures Lower(s) == s
  {
  }
}
