/** What `get_cvs` receives when the list view calls `getCVs`: the frontend encoder of
    frontend/src/lib/api.ts composed with FastAPI's decoding of backend/app/api/cv.py. */
module Integration {
  import opened Wrappers
  import opened Strings
  import opened QueryString
  import opened ApiClient
  import opened QueryDecode
  import opened CvQuery

  /** The query parameters of `get_cvs`, in declaration order. */
  datatype Param =
    | Page | PageSize | SortBy | SortDesc | Search | Nome | Cognome | Citta
    | AnniMin | AnniMax | SalaryMin | SalaryMax
    | Tools | Database | Piattaforme | SistemiOperativi | Linguaggi | DataDal | DataAl

  /** The name a parameter has in the query string. */
  function NameOf(x: Param): string {
    match x
    case Page => "page"
    case PageSize => "page_size"
    case SortBy => "sort_by"
    case SortDesc => "sort_desc"
    case Search => "search"
    case Nome => "nome"
    case Cognome => "cognome"
    case Citta => "citta"
    case AnniMin => "anni_esperienza_min"
    case AnniMax => "anni_esperienza_max"
    case SalaryMin => "stipendio_attuale_min"
    case SalaryMax => "stipendio_attuale_max"
    case Tools => "tools"
    case Database => "database"
    case Piattaforme => "piattaforme"
    case SistemiOperativi => "sistemi_operativi"
    case Linguaggi => "linguaggi"
    case DataDal => "data_dal"
    case DataAl => "data_al"
  }

  /** The values each parameter carries in the query `getCVs` sends, with `langs` under
      `linguaggi`. */
  function Arriving(p: GetCVsParams, iso: int -> string, langs: seq<string>): Raw {
    var uc := p.ultimoContatto;
    Raw(if NumberGiven(p.page) then [IntToDecimal(p.page.value)] else [],
        if NumberGiven(p.pageSize) then [IntToDecimal(p.pageSize.value)] else [],
        if ListGiven(p.sortBy) then [p.sortBy.value] else [],
        (match p.sortDesc case None => [] case Some(b) => [if b then "true" else "false"]),
        [], [], [], [],
        (match p.anniEsperienza case None => [] case Some(r) => [IntToDecimal(r.0)]),
        (match p.anniEsperienza case None => [] case Some(r) => [IntToDecimal(r.1)]),
        [], [],
        if ListGiven(p.tools) then [Join(p.tools.value, ',')] else [],
        if ListGiven(p.database) then [Join(p.database.value, ',')] else [],
        [], [], langs,
        if ListGiven(uc) then [iso(uc.value[0])] else [],
        if uc.Some? && |uc.value| > 1 then [iso(uc.value[1])] else [])
  }

  /** The values `r` holds for parameter `x`. */
  function FieldAt(r: Raw, x: Param): seq<string> {
    match x
    case Page => r.page
    case PageSize => r.pageSize
    case SortBy => r.sortBy
    case SortDesc => r.sortDesc
    case Search => r.search
    case Nome => r.nome
    case Cognome => r.cognome
    case Citta => r.citta
    case AnniMin => r.anniEsperienzaMin
    case AnniMax => r.anniEsperienzaMax
    case SalaryMin => r.stipendioAttualeMin
    case SalaryMax => r.stipendioAttualeMax
    case Tools => r.tools
    case Database => r.database
    case Piattaforme => r.piattaforme
    case SistemiOperativi => r.sistemiOperativi
    case Linguaggi => r.linguaggi
    case DataDal => r.dataDal
    case DataAl => r.dataAl
  }

  /** The parameters of a query are read from the values under their names. */
  lemma RawOfFields(q: Query, r: Raw)
    requires forall x :: Values(q, NameOf(x)) == FieldAt(r, x)
    ensures RawOf(q) == r
  {
    assert Values(q, NameOf(Page)) == FieldAt(r, Page);
    assert Values(q, NameOf(PageSize)) == FieldAt(r, PageSize);
    assert Values(q, NameOf(SortBy)) == FieldAt(r, SortBy);
    assert Values(q, NameOf(SortDesc)) == FieldAt(r, SortDesc);
    assert Values(q, NameOf(Search)) == FieldAt(r, Search);
    assert Values(q, NameOf(Nome)) == FieldAt(r, Nome);
    assert Values(q, NameOf(Cognome)) == FieldAt(r, Cognome);
    assert Values(q, NameOf(Citta)) == FieldAt(r, Citta);
    assert Values(q, NameOf(AnniMin)) == FieldAt(r, AnniMin);
    assert Values(q, NameOf(AnniMax)) == FieldAt(r, AnniMax);
    assert Values(q, NameOf(SalaryMin)) == FieldAt(r, SalaryMin);
    assert Values(q, NameOf(SalaryMax)) == FieldAt(r, SalaryMax);
    assert Values(q, NameOf(Tools)) == FieldAt(r, Tools);
    assert Values(q, NameOf(Database)) == FieldAt(r, Database);
    assert Values(q, NameOf(Piattaforme)) == FieldAt(r, Piattaforme);
    assert Values(q, NameOf(SistemiOperativi)) == FieldAt(r, SistemiOperativi);
    assert Values(q, NameOf(Linguaggi)) == FieldAt(r, Linguaggi);
    assert Values(q, NameOf(DataDal)) == FieldAt(r, DataDal);
    assert Values(q, NameOf(DataAl)) == FieldAt(r, DataAl);
  }

  /** The languages the corrected encoder sends under `linguaggi`. */
  function LanguagesSent(p: GetCVsParams): seq<string> {
    if ListGiven(p.linguaggiProgrammazione) then [Join(p.linguaggiProgrammazione.value, ',')] else []
  }

  /** `q` carries under each parameter's name what `getCVs` sends for `p`, with `langs`
      under `linguaggi`. */
  ghost predicate Carries(q: Query, p: GetCVsParams, iso: int -> string, langs: seq<string>) {
    forall x :: Values(q, NameOf(x)) == FieldAt(Arriving(p, iso, langs), x)
  }

  lemma ExpectedPaging(p: GetCVsParams, iso: int -> string, x: Param)
    requires x.Page? || x.PageSize? || x.SortBy? || x.SortDesc?
    ensures Expected(p, iso, NameOf(x)) == FieldAt(Arriving(p, iso, []), x)
  {
  }

  lemma ExpectedText(p: GetCVsParams, iso: int -> string, x: Param)
    requires x.Search? || x.Nome? || x.Cognome? || x.Citta?
    ensures Expected(p, iso, NameOf(x)) == FieldAt(Arriving(p, iso, []), x)
  {
    NothingExpected(p, iso, NameOf(x));
  }

  lemma ExpectedNumbers(p: GetCVsParams, iso: int -> string, x: Param)
    requires x.AnniMin? || x.AnniMax? || x.SalaryMin? || x.SalaryMax?
    ensures Expected(p, iso, NameOf(x)) == FieldAt(Arriving(p, iso, []), x)
  {
    if x.SalaryMin? || x.SalaryMax? {
      NothingExpected(p, iso, NameOf(x));
    }
  }

  lemma ExpectedLists(p: GetCVsParams, iso: int -> string, x: Param)
    requires x.Tools? || x.Database? || x.Piattaforme? || x.SistemiOperativi? || x.Linguaggi?
    ensures Expected(p, iso, NameOf(x)) == FieldAt(Arriving(p, iso, []), x)
  {
    if x.Piattaforme? || x.SistemiOperativi? || x.Linguaggi? {
      NothingExpected(p, iso, NameOf(x));
    }
  }

  lemma ExpectedDates(p: GetCVsParams, iso: int -> string, x: Param)
    requires x.DataDal? || x.DataAl?
    ensures Expected(p, iso, NameOf(x)) == FieldAt(Arriving(p, iso, []), x)
  {
  }

  /** Under each parameter's name `getCVs` sends what `Arriving` states, nothing under
      `linguaggi` included. */
  lemma EncoderCarries(p: GetCVsParams, iso: int -> string)
    ensures Carries(EncodeGetCVs(p, iso), p, iso, [])
  {
    forall x ensures Values(EncodeGetCVs(p, iso), NameOf(x)) == FieldAt(Arriving(p, iso, []), x) {
      EncodeGetCVsMeaning(p, iso, NameOf(x));
      match x
      case Page | PageSize | SortBy | SortDesc => ExpectedPaging(p, iso, x);
      case Search | Nome | Cognome | Citta => ExpectedText(p, iso, x);
      case AnniMin | AnniMax | SalaryMin | SalaryMax => ExpectedNumbers(p, iso, x);
      case Tools | Database | Piattaforme | SistemiOperativi | Linguaggi => ExpectedLists(p, iso, x);
      case DataDal | DataAl => ExpectedDates(p, iso, x);
    }
  }

  /** Only `linguaggi` is named "linguaggi", and no parameter of `get_cvs` is named
      "linguaggi_programmazione". */
  lemma LanguageNames(x: Param)
    ensures NameOf(x) == "linguaggi" <==> x.Linguaggi?
    ensures NameOf(x) != "linguaggi_programmazione"
  {
  }

  /** Replacing the languages leaves every other parameter's values. */
  lemma OtherFieldsKept(r: Raw, langs: seq<string>, x: Param)
    requires !x.Linguaggi?
    ensures FieldAt(r.(linguaggi := langs), x) == FieldAt(r, x)
  {
  }

  /** The corrected encoder sends the same, and the languages under `linguaggi`. */
  lemma CorrectedCarries(p: GetCVsParams, iso: int -> string)
    ensures Carries(EncodeGetCVsCorrected(p, iso), p, iso, LanguagesSent(p))
  {
    forall x ensures Values(EncodeGetCVsCorrected(p, iso), NameOf(x)) == FieldAt(Arriving(p, iso, LanguagesSent(p)), x) {
      if x.Linguaggi? {
        CorrectedLanguagesAt(p, iso);
      } else {
        CorrectedOtherAt(p, iso, x);
      }
    }
  }

  lemma CorrectedLanguagesAt(p: GetCVsParams, iso: int -> string)
    ensures Values(EncodeGetCVsCorrected(p, iso), "linguaggi") == LanguagesSent(p)
  {
    EncodeGetCVsCorrectedMeaning(p, iso, "linguaggi");
  }

  lemma CorrectedOtherAt(p: GetCVsParams, iso: int -> string, x: Param)
    requires !x.Linguaggi?
    ensures Values(EncodeGetCVsCorrected(p, iso), NameOf(x)) == FieldAt(Arriving(p, iso, LanguagesSent(p)), x)
  {
    EncoderCarries(p, iso);
    EncodeGetCVsCorrectedMeaning(p, iso, NameOf(x));
    LanguageNames(x);
    assert Values(EncodeGetCVs(p, iso), NameOf(x)) == FieldAt(Arriving(p, iso, []), x);
    assert Arriving(p, iso, LanguagesSent(p)) == Arriving(p, iso, []).(linguaggi := LanguagesSent(p));
    OtherFieldsKept(Arriving(p, iso, []), LanguagesSent(p), x);
  }

  /** A query that carries what `getCVs` sends presents `get_cvs` with `Arriving`. */
  lemma CarriedArrives(q: Query, p: GetCVsParams, iso: int -> string, langs: seq<string>)
    requires Carries(q, p, iso, langs)
    ensures RawOf(q) == Arriving(p, iso, langs)
  {
    RawOfFields(q, Arriving(p, iso, langs));
  }

  /** Of the backend's parameters only those the frontend names arrive; search, the text
      filters, the salary bounds, two of the list filters and `linguaggi` never do. */
  lemma EncodedArrives(p: GetCVsParams, iso: int -> string)
    ensures RawOf(EncodeGetCVs(p, iso)) == Arriving(p, iso, [])
  {
    EncoderCarries(p, iso);
    CarriedArrives(EncodeGetCVs(p, iso), p, iso, []);
  }

  /** The numbers the backend accepts: a page the frontend sends is at least 1, a page size
      lies between 1 and 100 (0 is not sent at all), and the page and the experience bounds
      have no more digits than the backend reads as an integer. */
  predicate NumbersAccepted(p: GetCVsParams) {
    && (NumberGiven(p.page) ==> p.page.value >= 1 && IntTextFits(p.page.value))
    && (NumberGiven(p.pageSize) ==> 1 <= p.pageSize.value <= 100)
    && (p.anniEsperienza.Some? ==> IntTextFits(p.anniEsperienza.value.0) && IntTextFits(p.anniEsperienza.value.1))
  }

  /** The arguments `get_cvs` is called with. */
  function Received(p: GetCVsParams): ListParams {
    var uc := p.ultimoContatto;
    ListParams(
      if NumberGiven(p.page) then p.page.value else 1,
      if NumberGiven(p.pageSize) then p.pageSize.value else 10,
      if ListGiven(p.sortBy) then p.sortBy else None,
      p.sortDesc == Some(true),
      None, None, None, None,
      if p.anniEsperienza.Some? then Some(p.anniEsperienza.value.0) else None,
      if p.anniEsperienza.Some? then Some(p.anniEsperienza.value.1) else None,
      None, None,
      if ListGiven(p.tools) then Some([Join(p.tools.value, ',')]) else None,
      if ListGiven(p.database) then Some([Join(p.database.value, ',')]) else None,
      None, None, None,
      if ListGiven(uc) then Some(uc.value[0]) else None,
      if uc.Some? && |uc.value| > 1 then Some(uc.value[1]) else None)
  }

  /** An optional argument as the field that decodes to it. */
  function FieldOf<T>(o: Option<T>): Field<T> {
    match o case None => Absent case Some(v) => Value(v)
  }

  /** The validated parameters that decode to the arguments `lp`. */
  function ScalarsFor(lp: ListParams): Scalars {
    Scalars(Value(lp.page), Value(lp.pageSize), Value(lp.sortDesc),
            FieldOf(lp.anniEsperienzaMin), FieldOf(lp.anniEsperienzaMax),
            FieldOf(lp.stipendioAttualeMin), FieldOf(lp.stipendioAttualeMax),
            FieldOf(lp.dataDal), FieldOf(lp.dataAl))
  }

  /** A request whose every parameter decodes to the corresponding argument of `lp` is
      accepted with exactly those arguments. */
  lemma DecodedAs(r: Raw, lp: ListParams)
    requires TextValue(r.sortBy) == lp.sortBy
    requires && TextValue(r.search) == lp.search && TextValue(r.nome) == lp.nome
             && TextValue(r.cognome) == lp.cognome && TextValue(r.citta) == lp.citta
    requires && ListValue(r.tools) == lp.tools && ListValue(r.database) == lp.database
             && ListValue(r.piattaforme) == lp.piattaforme
             && ListValue(r.sistemiOperativi) == lp.sistemiOperativi && ListValue(r.linguaggi) == lp.linguaggi
    ensures Assemble(r, ScalarsFor(lp)) == Ok(lp)
  {
    assert Problems(ScalarsFor(lp)) == [];
  }

  /** A page or page size that breaks its bound, or an unreadable experience bound, refuses
      the request. */
  lemma NumbersRefused(r: Raw, s: Scalars)
    requires || s.page.Invalid? || s.pageSize.Invalid?
             || s.anniEsperienzaMin.Invalid? || s.anniEsperienzaMax.Invalid?
    ensures Assemble(r, s).Err?
  {
    assert |Problems(s)| > 0;
  }

  /** The page and page size arrive as sent and are checked against their bounds; a page
      with more digits than the backend reads as an integer is refused as well. */
  lemma PagingArrives(p: GetCVsParams, iso: int -> string, langs: seq<string>)
    ensures var r := Arriving(p, iso, langs);
      && PageOf(r) == (if !NumberGiven(p.page) then Value(1)
                       else if p.page.value >= 1 && IntTextFits(p.page.value) then Value(p.page.value) else Invalid)
      && PageSizeOf(r) == (if !NumberGiven(p.pageSize) then Value(10)
                           else if 1 <= p.pageSize.value <= 100 then Value(p.pageSize.value) else Invalid)
  {
    if NumberGiven(p.page) { IntValueOfDecimal(p.page.value); }
    if NumberGiven(p.pageSize) {
      IntValueOfDecimal(p.pageSize.value);
      if 1 <= p.pageSize.value <= 100 { ShortIntFits(p.pageSize.value); }
    }
  }

  /** The sort column and direction arrive as sent; no direction means ascending. */
  lemma SortArrives(p: GetCVsParams, iso: int -> string, langs: seq<string>)
    ensures var r := Arriving(p, iso, langs);
      && SortDescOf(r) == Value(p.sortDesc == Some(true))
      && TextValue(r.sortBy) == (if ListGiven(p.sortBy) then p.sortBy else None)
  {
    SortDescWords();
  }

  /** The experience bounds arrive as sent, and are read back unless they have more digits
      than the backend reads as an integer. */
  lemma ExperienceArrives(p: GetCVsParams, iso: int -> string, langs: seq<string>)
    ensures var r := Arriving(p, iso, langs); var range := p.anniEsperienza;
      && IntValue(r.anniEsperienzaMin) == (if range.None? then Absent
                                           else if IntTextFits(range.value.0) then Value(range.value.0) else Invalid)
      && IntValue(r.anniEsperienzaMax) == (if range.None? then Absent
                                           else if IntTextFits(range.value.1) then Value(range.value.1) else Invalid)
  {
    if p.anniEsperienza.Some? {
      var (lo, hi) := p.anniEsperienza.value;
      IntValueOfDecimal(lo);
      IntValueOfDecimal(hi);
      assert Arriving(p, iso, langs).anniEsperienzaMin == [IntToDecimal(lo)];
      assert Arriving(p, iso, langs).anniEsperienzaMax == [IntToDecimal(hi)];
    }
  }

  /** The last-contact dates arrive as sent, given an ISO text the backend reads back as
      the same instant. */
  lemma DatesArrive(p: GetCVsParams, iso: int -> string, langs: seq<string>, parseInstant: string -> Option<int>)
    requires forall t :: parseInstant(iso(t)) == Some(t)
    ensures var r := Arriving(p, iso, langs); var uc := p.ultimoContatto;
      && DateValue(r.dataDal, parseInstant) == FieldOf(if ListGiven(uc) then Some(uc.value[0]) else None)
      && DateValue(r.dataAl, parseInstant) == FieldOf(if uc.Some? && |uc.value| > 1 then Some(uc.value[1]) else None)
  {
    var uc := p.ultimoContatto;
    if ListGiven(uc) {
      var t := uc.value[0];
      assert parseInstant(iso(t)) == Some(t);
    }
    if uc.Some? && |uc.value| > 1 {
      var t := uc.value[1];
      assert parseInstant(iso(t)) == Some(t);
    }
  }

  /** Decoding what arrives: refused exactly when a number is not accepted, otherwise the
      arguments `Received(p)` with `langs` as the languages filter. */
  lemma ArrivingDecoded(p: GetCVsParams, iso: int -> string, langs: seq<string>, parseInstant: string -> Option<int>)
    requires forall t :: parseInstant(iso(t)) == Some(t)
    ensures DecodeRaw(Arriving(p, iso, langs), parseInstant).Ok? <==> NumbersAccepted(p)
    ensures NumbersAccepted(p) ==>
      DecodeRaw(Arriving(p, iso, langs), parseInstant) == Ok(Received(p).(linguaggi := ListValue(langs)))
  {
    var r := Arriving(p, iso, langs);
    var s := ScalarsOf(r, parseInstant);
    PagingArrives(p, iso, langs);
    ExperienceArrives(p, iso, langs);
    if NumbersAccepted(p) {
      SortArrives(p, iso, langs);
      var lp := Received(p).(linguaggi := ListValue(langs));
      DatesArrive(p, iso, langs, parseInstant);
      assert s == ScalarsFor(lp);
      DecodedAs(r, lp);
    } else {
      NumbersRefused(r, s);
    }
  }

  /** The request is refused exactly when a number is not accepted; otherwise
      `get_cvs` receives `Received(p)`: the lists as one comma-joined token each, the
      last-contact range as the date bounds, no languages filter and no creation date. */
  lemma ListRequestReceived(p: GetCVsParams, iso: int -> string, parseInstant: string -> Option<int>)
    requires forall t :: parseInstant(iso(t)) == Some(t)
    ensures Decode(EncodeGetCVs(p, iso), parseInstant).Ok? <==> NumbersAccepted(p)
    ensures NumbersAccepted(p) ==> Decode(EncodeGetCVs(p, iso), parseInstant) == Ok(Received(p))
  {
    EncodedArrives(p, iso);
    ArrivingDecoded(p, iso, [], parseInstant);
    assert Received(p).(linguaggi := ListValue([])) == Received(p);
  }

  /** The creation dates the view sends as `created_at_dal` change nothing. */
  lemma CreationDatesIgnored(p: GetCVsParams, iso: int -> string, createdAt: Option<seq<int>>,
                             parseInstant: string -> Option<int>)
    ensures Decode(EncodeGetCVs(p.(createdAt := createdAt), iso), parseInstant) == Decode(EncodeGetCVs(p, iso), parseInstant)
  {
    EncodedArrives(p, iso);
    EncodedArrives(p.(createdAt := createdAt), iso);
    assert Arriving(p.(createdAt := createdAt), iso, []) == Arriving(p, iso, []);
  }

  /** The last-contact range the view selects bounds the rows' creation time. */
  lemma LastContactBoundsCreation(p: GetCVsParams, iso: int -> string, parseInstant: string -> Option<int>)
    requires forall t :: parseInstant(iso(t)) == Some(t)
    requires NumbersAccepted(p) && ListGiven(p.ultimoContatto)
    ensures Decode(EncodeGetCVs(p, iso), parseInstant) == Ok(Received(p))
    ensures AtLeast("created_at", p.ultimoContatto.value[0]) in BuildFilters(Received(p))
  {
    ListRequestReceived(p, iso, parseInstant);
    var f := AtLeast("created_at", p.ultimoContatto.value[0]);
    assert f in DateFilters(Received(p));
  }

  /** A list filter arrives as a single token holding the comma-joined selection; the array
      literal PostgreSQL reads from that token splits it again, so for tools without ',' a
      row passes the tools filter exactly when it holds every selected tool. */
  lemma ListsArriveJoined(p: GetCVsParams, iso: int -> string, parseInstant: string -> Option<int>, row: Row)
    requires forall t :: parseInstant(iso(t)) == Some(t)
    requires NumbersAccepted(p) && ListGiven(p.tools)
    ensures Decode(EncodeGetCVs(p, iso), parseInstant) == Ok(Received(p))
    ensures Received(p).tools == Some([Join(p.tools.value, ',')])
    ensures TokensPlain(p.tools.value) ==>
      (Eval(ContainsAll("tools", Received(p).tools.value), row) <==> HasAll(row, "tools", p.tools.value))
  {
    ListRequestReceived(p, iso, parseInstant);
    if TokensPlain(p.tools.value) {
      JoinedTokenRequiresEach("tools", p.tools.value, row);
    }
  }

  /* ---------------- the languages filter ---------------- */

  /** As written, a languages selection never reaches `get_cvs`: a view filtered only by
      languages lists every row, those without the selected language included. */
  lemma LanguagesFilterDropped(p: GetCVsParams, iso: int -> string, parseInstant: string -> Option<int>, row: Row)
    requires forall t :: parseInstant(iso(t)) == Some(t)
    requires NumbersAccepted(p) && ListGiven(p.linguaggiProgrammazione)
    requires p.tools.None? && p.database.None? && p.anniEsperienza.None? && p.ultimoContatto.None?
    ensures Decode(EncodeGetCVs(p, iso), parseInstant) == Ok(Received(p))
    ensures Received(p).linguaggi.None? && Matches(Received(p), row)
  {
    ListRequestReceived(p, iso, parseInstant);
    assert NoFilters(Received(p)) == Received(p);
    NoParametersMatchAll(Received(p), row);
  }

  /** What `get_cvs` receives from the corrected encoder: the languages filter as well. */
  function ReceivedCorrected(p: GetCVsParams): ListParams {
    Received(p).(linguaggi := ListValue(LanguagesSent(p)))
  }

  /** The corrected request is refused exactly when a number is not accepted, and
      otherwise `get_cvs` receives the languages filter as well. */
  lemma CorrectedRequestReceived(p: GetCVsParams, iso: int -> string, parseInstant: string -> Option<int>)
    requires forall t :: parseInstant(iso(t)) == Some(t)
    ensures Decode(EncodeGetCVsCorrected(p, iso), parseInstant).Ok? <==> NumbersAccepted(p)
    ensures NumbersAccepted(p) ==> Decode(EncodeGetCVsCorrected(p, iso), parseInstant) == Ok(ReceivedCorrected(p))
  {
    CorrectedCarries(p, iso);
    CarriedArrives(EncodeGetCVsCorrected(p, iso), p, iso, LanguagesSent(p));
    ArrivingDecoded(p, iso, LanguagesSent(p), parseInstant);
  }

  /** With the corrected encoder the languages reach the `linguaggi_programmazione` filter:
      for languages that are non-empty and free of ',', a row is listed exactly when the
      as-written request lists it and it holds every selected language. */
  lemma CorrectedLanguagesApplied(p: GetCVsParams, iso: int -> string, parseInstant: string -> Option<int>, row: Row)
    requires forall t :: parseInstant(iso(t)) == Some(t)
    requires NumbersAccepted(p) && ListGiven(p.linguaggiProgrammazione)
    ensures Decode(EncodeGetCVsCorrected(p, iso), parseInstant) == Ok(ReceivedCorrected(p))
    ensures var langs := p.linguaggiProgrammazione.value;
      TokensPlain(langs) ==>
        (Matches(ReceivedCorrected(p), row) <==>
          Matches(Received(p), row) && HasAll(row, "linguaggi_programmazione", langs))
  {
    CorrectedRequestReceived(p, iso, parseInstant);
    var langs := p.linguaggiProgrammazione.value;
    assert ReceivedCorrected(p) == Received(p).(linguaggi := Some([Join(langs, ',')]));
    LanguagesFilterAdded(Received(p), [Join(langs, ',')], row);
    if TokensPlain(langs) {
      JoinedTokenRequiresEach("linguaggi_programmazione", langs, row);
    }
  }
}
