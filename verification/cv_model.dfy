/** The CV record of the backend (backend/app/models/cv.py): its fields and defaults, and the
    `parse_date` validator attached to the two date fields. */
module CvModel {
  import opened Wrappers
  import opened Strings
  import PyText
  import opened Calendar

  /** The values a CV field holds once validated. */
  datatype Value =
    | PyNone
    | Str(s: string)
    | Int(i: int)
    | DateValue(date: Date)
    | StrList(items: seq<string>)
    | Timestamp(instant: int)

  const InvalidDateMessage: string := "Formato data non valido. Usa DD/MM/YYYY"

  /** The range of a C `int`, the argument type of the C constructor of `datetime.date`:
      a value outside it raises `OverflowError`, not `ValueError`. */
  const CIntMin: int := -0x8000_0000
  const CIntMax: int := 0x7FFF_FFFF

  predicate InCInt(n: int) { CIntMin <= n <= CIntMax }

  /* ---------------- the first attempt: v.split('/') and date(int, int, int) ---------------- */

  /** What `day, month, year = v.split('/')` followed by `date(int(year), int(month), int(day))`
      does: builds a date, raises `ValueError` (caught) or raises `OverflowError` (not caught). */
  datatype SlashOutcome = Built(date: Date) | ValueErrorRaised | OverflowErrorRaised

  function SlashAttempt(v: string): (r: SlashOutcome)
    ensures r.Built? ==> ValidDate(r.date.year, r.date.month, r.date.day)
  {
    var parts := Split(v, '/');
    if |parts| != 3 then ValueErrorRaised
    else
      var year := PyText.PyInt(parts[2]);
      var month := PyText.PyInt(parts[1]);
      var day := PyText.PyInt(parts[0]);
      if year.None? || month.None? || day.None? then ValueErrorRaised
      else if !InCInt(year.value) || !InCInt(month.value) || !InCInt(day.value) then OverflowErrorRaised
      else if ValidDate(year.value, month.value, day.value) then
        Built(Date(year.value, month.value, day.value))
      else ValueErrorRaised
  }

  /* ---------------- the fallbacks: datetime.strptime ---------------- */

  /** `%d` matches `3[01]|[12]\d|0[1-9]|[1-9]| [1-9]`. */
  predicate DayField(t: string) {
    || (|t| == 2 && t[0] == '3' && (t[1] == '0' || t[1] == '1'))
    || (|t| == 2 && (t[0] == '1' || t[0] == '2') && IsDigit(t[1]))
    || (|t| == 2 && t[0] == '0' && '1' <= t[1] <= '9')
    || (|t| == 1 && '1' <= t[0] <= '9')
    || (|t| == 2 && t[0] == ' ' && '1' <= t[1] <= '9')
  }

  /** `%m` matches `1[0-2]|0[1-9]|[1-9]`. */
  predicate MonthField(t: string) {
    || (|t| == 2 && t[0] == '1' && '0' <= t[1] <= '2')
    || (|t| == 2 && t[0] == '0' && '1' <= t[1] <= '9')
    || (|t| == 1 && '1' <= t[0] <= '9')
  }

  /** `%Y` matches exactly four digits. */
  predicate YearField(t: string) {
    |t| == 4 && AllDigits(t)
  }

  /** The number a matched field denotes, as `int()` reads it (the `%d` form may start with
      a space). */
  function FieldNumber(t: string): nat
    requires DayField(t) || MonthField(t) || YearField(t)
  {
    if t[0] == ' ' then DigitsValue(t[1..]) else DigitsValue(t)
  }

  /** The three formats tried in turn: `%d/%m/%Y`, `%d-%m-%Y` and `%Y-%m-%d`. */
  datatype DateFormat = DayMonthYear(sep: char) | YearMonthDay

  const Fallbacks: seq<DateFormat> := [DayMonthYear('/'), DayMonthYear('-'), YearMonthDay]

  /** `datetime.strptime(v, fmt).date()`. None of the three field forms contains a separator,
      so the compiled pattern matches the whole string exactly when splitting it on the
      separator gives three parts, each of its field's form; the fields must then name a real
      date (year 0, which `%Y` admits, is out of range). */
  function Strptime(v: string, fmt: DateFormat): (r: Option<Date>)
    ensures r.Some? ==> ValidDate(r.value.year, r.value.month, r.value.day)
  {
    var parts := Split(v, if fmt.DayMonthYear? then fmt.sep else '-');
    if |parts| != 3 then None
    else
      var d := if fmt.DayMonthYear? then parts[0] else parts[2];
      var m := parts[1];
      var y := if fmt.DayMonthYear? then parts[2] else parts[0];
      if !(DayField(d) && MonthField(m) && YearField(y)) then None
      else if ValidDate(FieldNumber(y), FieldNumber(m), FieldNumber(d)) then
        Some(Date(FieldNumber(y), FieldNumber(m), FieldNumber(d)))
      else None
  }

  /** The first format of `fmts` that reads `v`. */
  function FirstFormat(v: string, fmts: seq<DateFormat>): (r: Option<Date>)
    ensures r.Some? <==> exists i :: 0 <= i < |fmts| && Strptime(v, fmts[i]).Some?
    ensures r.Some? ==> exists i :: 0 <= i < |fmts| && Strptime(v, fmts[i]) == r
  {
    if |fmts| == 0 then None
    else if Strptime(v, fmts[0]).Some? then Strptime(v, fmts[0])
    else
      var r := FirstFormat(v, fmts[1..]);
      assert forall i :: 0 < i < |fmts| ==> fmts[i] == fmts[1..][i - 1];
      r
  }

  /* ---------------- parse_date ---------------- */

  /** What the validator does with a value: returns a value, raises the `ValueError` that
      validation reports, or lets an `OverflowError` escape. */
  datatype DateOutcome = Accepted(value: Value) | Rejected(message: string) | Overflowed

  /** `CV.parse_date`, as written. */
  function ParseDate(v: Value): (r: DateOutcome)
    ensures !v.Str? ==> r == Accepted(v)
    ensures r.Rejected? ==> r.message == InvalidDateMessage
    ensures v.Str? && r.Accepted? ==> r.value.DateValue?
  {
    match v
    case Str(s) =>
      (match SlashAttempt(s)
       case Built(d) => Accepted(DateValue(d))
       case OverflowErrorRaised => Overflowed
       case ValueErrorRaised =>
         var f := FirstFormat(s, Fallbacks);
         if f.Some? then Accepted(DateValue(f.value)) else Rejected(InvalidDateMessage))
    case _ => Accepted(v)
  }

  /** `parse_date` as evidently intended: an out-of-range number is one more way for the
      string not to be a date, so it reaches the fallbacks like any `ValueError`. */
  function ParseDateChecked(v: Value): (r: DateOutcome)
    ensures !r.Overflowed?
    ensures !v.Str? ==> r == Accepted(v)
    ensures r.Rejected? ==> r.message == InvalidDateMessage
  {
    match v
    case Str(s) =>
      (match SlashAttempt(s)
       case Built(d) => Accepted(DateValue(d))
       case _ =>
         var f := FirstFormat(s, Fallbacks);
         if f.Some? then Accepted(DateValue(f.value)) else Rejected(InvalidDateMessage))
    case _ => Accepted(v)
  }

  lemma {:induction false} JoinThreeParts(a: string, b: string, c: string, sep: char)
    ensures Join([a, b, c], sep) == a + [sep] + b + [sep] + c
  {
    assert [a, b, c][1..] == [b, c];
    assert [b, c][1..] == [c];
    assert Join([b, c], sep) == b + [sep] + c;
    assert Join([a, b, c], sep) == a + [sep] + (b + [sep] + c);
  }

  /** Splitting `a/b/c` on '/', none of the parts holding a '/', gives the three parts. */
  lemma SplitThree(a: string, b: string, c: string, sep: char)
    requires sep !in a && sep !in b && sep !in c
    ensures Split(a + [sep] + b + [sep] + c, sep) == [a, b, c]
  {
    var ps := [a, b, c];
    assert forall i :: 0 <= i < |ps| ==> sep !in ps[i];
    SplitJoin(ps, sep);
    JoinThreeParts(a, b, c, sep);
  }

  /** The first attempt on "D/M/Y" in plain digits: `ValueError` from `int()` when a field
      has more digits than it reads, then `OverflowError` when a number leaves the C integer
      range, otherwise the date when it is a real one and `ValueError` when not. */
  lemma SlashAttemptOfDigits(d: string, m: string, y: string)
    requires |d| > 0 && |m| > 0 && |y| > 0 && AllDigits(d) && AllDigits(m) && AllDigits(y)
    ensures var (dv, mv, yv) := (DigitsValue(d), DigitsValue(m), DigitsValue(y));
      SlashAttempt(d + "/" + m + "/" + y)
        == if LongField(d, m, y) then ValueErrorRaised
           else if yv > CIntMax || mv > CIntMax || dv > CIntMax then OverflowErrorRaised
           else if ValidDate(yv, mv, dv) then Built(Date(yv, mv, dv))
           else ValueErrorRaised
  {
    var v := d + "/" + m + "/" + y;
    SplitThree(d, m, y, '/');
    assert Split(v, '/') == [d, m, y];
    PyText.PyIntOfDigits(d);
    PyText.PyIntOfDigits(m);
    PyText.PyIntOfDigits(y);
    if LongField(d, m, y) {
      SlashAttemptOfUnread(v, d, m, y);
    } else {
      SlashAttemptOfParts(v, d, m, y, DigitsValue(d), DigitsValue(m), DigitsValue(y));
    }
  }

  /** Some field has more digits than `int()` reads. */
  predicate LongField(d: string, m: string, y: string) {
    |d| > PyText.MaxStrDigits || |m| > PyText.MaxStrDigits || |y| > PyText.MaxStrDigits
  }

  lemma SlashAttemptOfUnread(v: string, d: string, m: string, y: string)
    requires Split(v, '/') == [d, m, y]
    requires PyText.PyInt(d).None? || PyText.PyInt(m).None? || PyText.PyInt(y).None?
    ensures SlashAttempt(v) == ValueErrorRaised
  {
  }

  lemma SlashAttemptOfParts(v: string, d: string, m: string, y: string, dv: nat, mv: nat, yv: nat)
    requires Split(v, '/') == [d, m, y]
    requires PyText.PyInt(d) == Some(dv) && PyText.PyInt(m) == Some(mv) && PyText.PyInt(y) == Some(yv)
    ensures SlashAttempt(v)
      == if yv > CIntMax || mv > CIntMax || dv > CIntMax then OverflowErrorRaised
         else if ValidDate(yv, mv, dv) then Built(Date(yv, mv, dv))
         else ValueErrorRaised
  {
  }

  /** "DD/MM/YYYY" in plain digits naming a real date is read as that date. */
  lemma ItalianDateAccepted(d: string, m: string, y: string)
    requires |d| > 0 && |m| > 0 && |y| > 0 && AllDigits(d) && AllDigits(m) && AllDigits(y)
    requires !LongField(d, m, y)
    requires ValidDate(DigitsValue(y), DigitsValue(m), DigitsValue(d))
    ensures ParseDate(Str(d + "/" + m + "/" + y))
      == Accepted(DateValue(Date(DigitsValue(y), DigitsValue(m), DigitsValue(d))))
  {
    SlashAttemptOfDigits(d, m, y);
  }

  lemma {:induction false} NoSepOneSplit(s: string, sep: char)
    requires sep !in s
    ensures |Split(s, sep)| == 1
  {
    SplitCount(s, sep);
    assert Count(s, sep) == 0 by { CountAbsent(s, sep); }
  }

  lemma {:induction false} CountAbsent(s: string, c: char)
    requires c !in s
    ensures Count(s, c) == 0
  {
    if |s| > 0 {
      assert c !in s[1..];
      CountAbsent(s[1..], c);
    }
  }

  /** "DD/MM/YYYY" in plain digits naming an impossible date, such as 31/02/2020, within
      the C integer range, is rejected with the validator's message. */
  lemma ImpossibleDateRejected(d: string, m: string, y: string)
    requires |d| > 0 && |m| > 0 && |y| > 0 && AllDigits(d) && AllDigits(m) && AllDigits(y)
    requires DigitsValue(y) <= CIntMax && DigitsValue(m) <= CIntMax && DigitsValue(d) <= CIntMax
    requires !ValidDate(DigitsValue(y), DigitsValue(m), DigitsValue(d))
    ensures ParseDate(Str(d + "/" + m + "/" + y)) == Rejected(InvalidDateMessage)
  {
    SlashAttemptOfDigits(d, m, y);
    SlashFormRejected(d, m, y);
  }

  /** A "D/M/Y" in plain digits with a field longer than `int()` reads is rejected with the
      validator's message, whatever its numbers. */
  lemma OverlongFieldRejected(d: string, m: string, y: string)
    requires |d| > 0 && |m| > 0 && |y| > 0 && AllDigits(d) && AllDigits(m) && AllDigits(y)
    requires LongField(d, m, y)
    ensures ParseDate(Str(d + "/" + m + "/" + y)) == Rejected(InvalidDateMessage)
  {
    SlashAttemptOfDigits(d, m, y);
    SlashFormRejected(d, m, y);
  }

  /** Once the first attempt raised `ValueError`, a digit triple matches no fallback. */
  lemma SlashFormRejected(d: string, m: string, y: string)
    requires AllDigits(d) && AllDigits(m) && AllDigits(y)
    requires SlashAttempt(d + "/" + m + "/" + y) == ValueErrorRaised
    ensures ParseDate(Str(d + "/" + m + "/" + y)) == Rejected(InvalidDateMessage)
  {
    var s := d + "/" + m + "/" + y;
    NotInThree(d, m, y, '/', '-');
    NoSepOneSplit(s, '-');
    SlashFallbackFails(s);
    assert Strptime(s, DayMonthYear('-')).None?;
    assert Strptime(s, YearMonthDay).None?;
    assert FirstFormat(s, Fallbacks).None? by {
      assert forall i :: 0 <= i < |Fallbacks| ==> Strptime(s, Fallbacks[i]).None?;
    }
  }

  /** A field of the `%d`, `%m` or `%Y` form is read by `int()` as the number the pattern
      gives it. */
  lemma FieldReadByInt(t: string)
    requires DayField(t) || MonthField(t) || YearField(t)
    ensures PyText.PyInt(t) == Some(FieldNumber(t) as int)
  {
    if t[0] == ' ' {
      assert PyText.IsSpace(t[0]);
      assert PyText.Strip(t) == t[1..];
      assert AllDigits(t[1..]);
      PyText.RemoveUnderscoresOfDigits(t[1..]);
    } else {
      assert AllDigits(t);
      PyText.PyIntOfDigits(t);
    }
  }

  /** The `%d/%m/%Y` fallback never reads a string the first attempt rejected: whenever it
      reads a date, the first attempt has already built that same date. */
  lemma SlashFallbackRedundant(v: string)
    requires Strptime(v, DayMonthYear('/')).Some?
    ensures SlashAttempt(v) == Built(Strptime(v, DayMonthYear('/')).value)
  {
    var parts := Split(v, '/');
    FieldReadByInt(parts[0]);
    FieldReadByInt(parts[1]);
    FieldReadByInt(parts[2]);
  }

  /** So once the first attempt has failed, the slash fallback fails too. */
  lemma SlashFallbackFails(v: string)
    requires !SlashAttempt(v).Built?
    ensures Strptime(v, DayMonthYear('/')).None?
  {
    if Strptime(v, DayMonthYear('/')).Some? {
      SlashFallbackRedundant(v);
    }
  }

  /** "DD-MM-YYYY" with fields of the `%d`/`%m`/`%Y` forms naming a real date is accepted. */
  lemma DashDateAccepted(d: string, m: string, y: string)
    requires DayField(d) && MonthField(m) && YearField(y)
    requires ValidDate(FieldNumber(y), FieldNumber(m), FieldNumber(d))
    ensures ParseDate(Str(d + "-" + m + "-" + y))
      == Accepted(DateValue(Date(FieldNumber(y), FieldNumber(m), FieldNumber(d))))
  {
    var s := d + "-" + m + "-" + y;
    assert '-' !in d && '-' !in m && '-' !in y;
    SplitThree(d, m, y, '-');
    NotInThree(d, m, y, '-', '/');
    NoSepOneSplit(s, '/');
    assert SlashAttempt(s) == ValueErrorRaised;
    SlashFallbackFails(s);
    assert FirstFormat(s, Fallbacks[1..]) == Strptime(s, DayMonthYear('-'));
  }

  lemma NotInThree(a: string, b: string, c: string, sep: char, x: char)
    requires x !in a && x !in b && x !in c && x != sep
    ensures x !in a + [sep] + b + [sep] + c
  {
  }

  /** "YYYY-MM-DD" with fields of the `%Y`/`%m`/`%d` forms naming a real date is accepted. */
  lemma IsoDateAccepted(y: string, m: string, d: string)
    requires DayField(d) && MonthField(m) && YearField(y)
    requires ValidDate(FieldNumber(y), FieldNumber(m), FieldNumber(d))
    ensures ParseDate(Str(y + "-" + m + "-" + d))
      == Accepted(DateValue(Date(FieldNumber(y), FieldNumber(m), FieldNumber(d))))
  {
    var s := y + "-" + m + "-" + d;
    assert '-' !in d && '-' !in m && '-' !in y;
    SplitThree(y, m, d, '-');
    var date := Date(FieldNumber(y), FieldNumber(m), FieldNumber(d));
    assert Strptime(s, YearMonthDay) == Some(date);
    // `%d-%m-%Y` fails: its first field would be the four-character year.
    assert !DayField(y);
    assert Strptime(s, DayMonthYear('-')).None?;
    NotInThree(y, m, d, '-', '/');
    LastFallbackReads(s);
  }

  /** A string without '/' that `%d-%m-%Y` rejects is read by `%Y-%m-%d`. */
  lemma LastFallbackReads(s: string)
    requires '/' !in s && Strptime(s, DayMonthYear('-')).None?
    ensures ParseDate(Str(s)) == if Strptime(s, YearMonthDay).Some?
      then Accepted(DateValue(Strptime(s, YearMonthDay).value)) else Rejected(InvalidDateMessage)
  {
    NoSepOneSplit(s, '/');
    assert SlashAttempt(s) == ValueErrorRaised;
    SlashFallbackFails(s);
    assert FirstFormat(s, Fallbacks[2..]) == Strptime(s, YearMonthDay);
  }

  /** As written, a slash-separated string whose fields `int()` reads and whose year is
      beyond the C integer range makes `date()` raise `OverflowError`, which the
      `except ValueError` does not catch. */
  lemma OverflowEscapesParseDate(d: string, m: string, y: string)
    requires |d| > 0 && |m| > 0 && |y| > 0 && AllDigits(d) && AllDigits(m) && AllDigits(y)
    requires !LongField(d, m, y)
    requires DigitsValue(y) > CIntMax
    ensures ParseDate(Str(d + "/" + m + "/" + y)) == Overflowed
  {
    SlashAttemptOfDigits(d, m, y);
  }

  /** The checked version rejects the same string with the validator's message, and agrees
      with `parse_date` wherever that does not overflow. */
  lemma ParseDateCheckedAgrees(v: Value)
    ensures ParseDate(v).Overflowed? || ParseDateChecked(v) == ParseDate(v)
    ensures ParseDate(v).Overflowed? ==> ParseDateChecked(v) == Rejected(InvalidDateMessage)
  {
    if ParseDate(v).Overflowed? {
      OutOfRangeFieldsFail(v.s);
    }
  }

  /** A slash form with an out-of-range number is of no fallback's form. */
  lemma OutOfRangeFieldsFail(s: string)
    requires SlashAttempt(s).OverflowErrorRaised?
    ensures FirstFormat(s, Fallbacks).None?
  {
    SlashFallbackFails(s);
    SplitCount(s, '/');
    assert Count(s, '/') == 2;
    assert '/' in s by { CountPresent(s, '/'); }
    // The two dash formats split on '-'; three parts there would be digit-only fields,
    // so no '/' could remain in the string.
    DashFormatsNeedNoSlash(s);
  }

  lemma {:induction false} CountPresent(s: string, c: char)
    requires Count(s, c) > 0
    ensures c in s
  {
    if |s| > 0 && s[0] != c {
      CountPresent(s[1..], c);
    }
  }

  lemma DashFormatsNeedNoSlash(s: string)
    requires '/' in s
    ensures Strptime(s, DayMonthYear('-')).None?
    ensures Strptime(s, YearMonthDay).None?
  {
    var parts := Split(s, '-');
    if |parts| == 3 {
      var a, b, c := parts[0], parts[1], parts[2];
      assert parts == [a, b, c];
      JoinSplit(s, '-');
      JoinThreeParts(a, b, c, '-');
      assert s == a + "-" + b + "-" + c;
      if (DayField(a) && MonthField(b) && YearField(c)) || (DayField(c) && MonthField(b) && YearField(a)) {
        NotInThree(a, b, c, '-', '/');
        assert false;
      }
    }
  }

  /* ---------------- the record ---------------- */

  /** The fields of `CV`, in declaration order. */
  const FieldNames: seq<string> := [
    "id", "created_at", "cognome", "nome", "citta", "data_nascita", "cellulare",
    "anni_esperienza", "competenze", "tools", "database", "piattaforme", "sistemi_operativi",
    "linguaggi_programmazione", "contratto_attuale", "stipendio_attuale", "scadenza_contratto",
    "preavviso", "tipo_contratto_desiderato", "stipendio_desiderato", "note", "file_name",
    "process_status"]

  const ListFields: set<string> :=
    {"tools", "database", "piattaforme", "sistemi_operativi", "linguaggi_programmazione"}

  /** The fields `parse_date` is attached to. */
  const DateFields: set<string> := {"data_nascita", "scadenza_contratto"}

  /** The declared default of a field. */
  function Default(name: string): Value {
    if name in ListFields then StrList([])
    else if name == "process_status" then Str("processing")
    else PyNone
  }

  /** The value a field takes: the default when the input lacks it (defaults are not
      validated), the validator's outcome for a date field, the input value otherwise. */
  function FieldOutcome(name: string, input: map<string, Value>): DateOutcome {
    if name !in input then Accepted(Default(name))
    else if name in DateFields then ParseDate(input[name])
    else Accepted(input[name])
  }

  /** Building a `CV`: the record; the names of the fields whose validation failed; or an
      `OverflowError` from the validator, which pydantic does not collect and which therefore
      escapes `CV(...)` itself. */
  datatype Construction = Record(fields: map<string, Value>) | Invalid(failed: seq<string>) | Raised

  /** The fields of `names` with their values, and those of them that failed, in order. */
  function Collect(names: seq<string>, input: map<string, Value>): (r: (map<string, Value>, seq<string>))
    ensures forall n :: n in r.0 <==> n in names && FieldOutcome(n, input).Accepted?
    ensures forall n :: n in r.0 ==> r.0[n] == FieldOutcome(n, input).value
    ensures forall n :: n in r.1 <==> n in names && !FieldOutcome(n, input).Accepted?
  {
    if |names| == 0 then (map[], [])
    else
      var rest := Collect(names[1..], input);
      var o := FieldOutcome(names[0], input);
      if o.Accepted? then (rest.0[names[0] := o.value], rest.1)
      else (rest.0, [names[0]] + rest.1)
  }

  /** Some field of `failed` let an `OverflowError` escape. */
  predicate SomeOverflow(failed: seq<string>, input: map<string, Value>) {
    exists n :: n in failed && FieldOutcome(n, input).Overflowed?
  }

  /** `CV(**input)`: keys that are not fields are ignored; validation errors are collected
      over all fields before the construction fails, unless some field's validator let an
      `OverflowError` escape. */
  function Construct(input: map<string, Value>): Construction {
    var (fields, failed) := Collect(FieldNames, input);
    ConstructionOf(fields, failed, input)
  }

  function ConstructionOf(fields: map<string, Value>, failed: seq<string>, input: map<string, Value>): Construction {
    if SomeOverflow(failed, input) then Raised
    else if |failed| == 0 then Record(fields)
    else Invalid(failed)
  }

  /** An input that gives no field (the empty one, say) yields the defaults: the five lists
      are empty, the status is "processing" and every other field is None. */
  lemma ConstructDefaults(input: map<string, Value>)
    requires forall n :: n in FieldNames ==> n !in input
    ensures Construct(input).Record?
    ensures var f := Construct(input).fields;
      && (forall n :: n in f <==> n in FieldNames)
      && (forall n :: n in ListFields ==> n in f && f[n] == StrList([]))
      && "process_status" in f && f["process_status"] == Str("processing")
      && (forall n :: n in f && n !in ListFields && n != "process_status" ==> f[n] == PyNone)
  {
    NothingFails(FieldNames, input);
    assert Construct(input) == Record(Collect(FieldNames, input).0);
    CollectDefaults(input);
    ListFieldsAreFields();
    ProcessStatusIsField();
  }

  /** Without any field in the input, every field is collected with its default. */
  lemma CollectDefaults(input: map<string, Value>)
    requires forall n :: n in FieldNames ==> n !in input
    ensures var f := Collect(FieldNames, input).0;
      && (forall n :: n in f <==> n in FieldNames)
      && (forall n :: n in f ==> f[n] == Default(n))
  {
  }

  lemma ProcessStatusIsField()
    ensures "process_status" in FieldNames
  {
    assert FieldNames[22] == "process_status";
  }

  lemma {:induction false} NothingFails(names: seq<string>, input: map<string, Value>)
    requires forall n :: n in names ==> n !in input
    ensures Collect(names, input).1 == []
  {
    if |names| > 0 {
      NothingFails(names[1..], input);
    }
  }

  lemma ListFieldsAreFields()
    ensures forall n :: n in ListFields ==> n in FieldNames
  {
    assert FieldNames[9] == "tools" && FieldNames[10] == "database";
    assert FieldNames[11] == "piattaforme" && FieldNames[12] == "sistemi_operativi";
    assert FieldNames[13] == "linguaggi_programmazione";
  }

  /** `parse_date` touches only the two date fields: any other field given in the input is
      stored exactly as given, and a date field holds what the validator returned. */
  lemma ValidatorOnlyOnDateFields(input: map<string, Value>, n: string)
    requires Construct(input).Record? && n in FieldNames && n in input
    ensures n !in DateFields ==> Construct(input).fields[n] == input[n]
    ensures n in DateFields ==> Construct(input).fields[n] == ParseDate(input[n]).value
  {
  }

  predicate BadDateGiven(input: map<string, Value>, n: string) {
    n in DateFields && n in input && ParseDate(input[n]).Rejected?
  }

  predicate OverflowGiven(input: map<string, Value>, n: string) {
    n in DateFields && n in input && ParseDate(input[n]).Overflowed?
  }

  lemma DateFieldsAreFields()
    ensures forall n :: n in DateFields ==> n in FieldNames
  {
    assert FieldNames[5] == "data_nascita" && FieldNames[16] == "scadenza_contratto";
  }

  /** The fields that fail are exactly the date fields given a string that is no date, or
      one whose numbers overflow. */
  lemma FailedFieldsAreBadDates(input: map<string, Value>)
    ensures forall n :: n in Collect(FieldNames, input).1 <==> BadDateGiven(input, n) || OverflowGiven(input, n)
  {
    var failed := Collect(FieldNames, input).1;
    forall n
      ensures n in failed <==> BadDateGiven(input, n) || OverflowGiven(input, n)
    {
      if n in DateFields {
        DateFieldsAreFields();
      }
    }
  }

  /** The construction raises exactly when a date field's numbers overflow; otherwise it
      fails exactly when a date field was given a string that is no date, and then it names
      exactly those fields. */
  lemma ConstructFailsOnBadDates(input: map<string, Value>)
    ensures Construct(input).Raised? <==> exists n :: OverflowGiven(input, n)
    ensures Construct(input).Invalid? <==>
      (exists n :: BadDateGiven(input, n)) && !(exists n :: OverflowGiven(input, n))
    ensures Construct(input).Invalid? ==>
      forall n :: n in Construct(input).failed <==> BadDateGiven(input, n)
  {
    var failed := Collect(FieldNames, input).1;
    FailedFieldsAreBadDates(input);
    assert Construct(input) == ConstructionOf(Collect(FieldNames, input).0, failed, input);
    if |failed| > 0 {
      assert BadDateGiven(input, failed[0]) || OverflowGiven(input, failed[0]);
    }
    if SomeOverflow(failed, input) {
      var n :| n in failed && FieldOutcome(n, input).Overflowed?;
      assert OverflowGiven(input, n);
    }
  }

  /** A birth date whose fields `int()` reads and whose year is beyond the C integer range
      makes `CV(...)` raise instead of reporting a validation error. */
  lemma OverflowRaisesConstruction(input: map<string, Value>, d: string, m: string, y: string)
    requires |d| > 0 && |m| > 0 && |y| > 0 && AllDigits(d) && AllDigits(m) && AllDigits(y)
    requires !LongField(d, m, y)
    requires DigitsValue(y) > CIntMax
    ensures Construct(input["data_nascita" := Str(d + "/" + m + "/" + y)]).Raised?
  {
    var given := input["data_nascita" := Str(d + "/" + m + "/" + y)];
    OverflowEscapesParseDate(d, m, y);
    assert OverflowGiven(given, "data_nascita");
    ConstructFailsOnBadDates(given);
  }

  /** Keys that are not fields of `CV` do not affect the result. */
  lemma ExtraKeysIgnored(input: map<string, Value>, k: string, v: Value)
    requires k !in FieldNames
    ensures Construct(input[k := v]) == Construct(input)
  {
    CollectIgnores(FieldNames, input, k, v);
    ConstructOfCollect(input, k, v);
  }

  lemma ConstructOfCollect(input: map<string, Value>, k: string, v: Value)
    requires k !in FieldNames
    requires Collect(FieldNames, input[k := v]) == Collect(FieldNames, input)
    ensures Construct(input[k := v]) == Construct(input)
  {
    var failed := Collect(FieldNames, input).1;
    assert k !in failed;
    OverflowIgnores(failed, input, k, v);
  }

  lemma OverflowIgnores(failed: seq<string>, input: map<string, Value>, k: string, v: Value)
    requires k !in failed
    ensures SomeOverflow(failed, input[k := v]) == SomeOverflow(failed, input)
  {
    forall n | n in failed
      ensures FieldOutcome(n, input[k := v]) == FieldOutcome(n, input)
    {
      assert n != k;
    }
  }

  lemma {:induction false} CollectIgnores(names: seq<string>, input: map<string, Value>, k: string, v: Value)
    requires k !in names
    ensures Collect(names, input[k := v]) == Collect(names, input)
  {
    if |names| > 0 {
      assert FieldOutcome(names[0], input[k := v]) == FieldOutcome(names[0], input);
      CollectIgnores(names[1..], input, k, v);
    }
  }
}
