/** The upload endpoint of the backend (`upload_cv` and `convert_date_format` in
    backend/app/api/cv.py): the batch cap, the per-file pipeline of type check, parsing,
    analysis and storage, and the profile record built from the analysis. The analyser and
    the storage are parameters; the parser is `CvParser.ParseFile`. */
module Upload {
  import opened Wrappers
  import opened Strings
  import opened Calendar
  import opened CvParser

  /** A JSON value as `json.loads` returns it: a whole number is an `int` and any other
      number a `float`. */
  datatype Json =
    | JNull | JBool(b: bool) | JNum(n: int) | JFloat(x: real) | JStr(s: string)
    | JArr(items: seq<Json>) | JObj(fields: map<string, Json>)

  /** Python truthiness of a JSON value. */
  predicate Truthy(v: Json) {
    match v
    case JNull => false
    case JBool(b) => b
    case JNum(n) => n != 0
    case JFloat(x) => x != 0.0
    case JStr(s) => |s| > 0
    case JArr(a) => |a| > 0
    case JObj(m) => |m| > 0
  }

  /* ---------------- convert_date_format ---------------- */

  /** `convert_date_format`: "D/M/Y" with exactly two slashes becomes "Y-M-D", the parts
      copied as they are; a falsy value, a non-string (whose missing `split` raises and is
      swallowed) or another number of parts gives None. */
  function ConvertDateFormat(v: Json): (r: Option<string>)
    ensures r.Some? ==> v.JStr? && |Split(v.s, '/')| == 3
  {
    if !Truthy(v) then None
    else if !v.JStr? then None
    else
      var parts := Split(v.s, '/');
      if |parts| == 3 then Some(parts[2] + "-" + parts[1] + "-" + parts[0]) else None
  }

  /** The conversion succeeds exactly on non-empty strings with two slashes, and then
      reverses the order of the parts, whatever they hold. */
  lemma ConvertDateFormatParts(d: string, m: string, y: string)
    requires '/' !in d && '/' !in m && '/' !in y
    ensures ConvertDateFormat(JStr(d + "/" + m + "/" + y)) == Some(y + "-" + m + "-" + d)
  {
    var ps := [d, m, y];
    assert forall i :: 0 <= i < |ps| ==> '/' !in ps[i];
    SplitJoin(ps, '/');
    assert [d, m, y][1..] == [m, y];
    assert [m, y][1..] == [y];
    assert Join([m, y], '/') == m + "/" + y;
    assert Join(ps, '/') == d + "/" + (m + "/" + y);
    assert d + "/" + (m + "/" + y) == d + "/" + m + "/" + y;
    assert Split(d + "/" + m + "/" + y, '/') == [d, m, y];
  }

  lemma ConvertDateFormatIff(v: Json)
    ensures ConvertDateFormat(v).Some? <==> v.JStr? && Count(v.s, '/') == 2
  {
    if v.JStr? {
      SplitCount(v.s, '/');
    }
  }

  /** "DD/MM/YYYY" naming a real date becomes an RFC 3339 `full-date`. */
  lemma ConvertDateFormatIsFullDate(d: string, m: string, y: string)
    requires |d| == 2 && |m| == 2 && |y| == 4 && AllDigits(d) && AllDigits(m) && AllDigits(y)
    requires ValidDate(DigitsValue(y), DigitsValue(m), DigitsValue(d))
    ensures ConvertDateFormat(JStr(d + "/" + m + "/" + y)).Some?
    ensures IsFullDate(ConvertDateFormat(JStr(d + "/" + m + "/" + y)).value)
  {
    DigitsHaveNoSlash(d);
    DigitsHaveNoSlash(m);
    DigitsHaveNoSlash(y);
    ConvertDateFormatParts(d, m, y);
    FullDateOfParts(d, m, y);
  }

  lemma DigitsHaveNoSlash(s: string)
    requires AllDigits(s)
    ensures '/' !in s
  {
  }

  lemma FullDateOfParts(d: string, m: string, y: string)
    requires |d| == 2 && |m| == 2 && |y| == 4 && AllDigits(d) && AllDigits(m) && AllDigits(y)
    requires ValidDate(DigitsValue(y), DigitsValue(m), DigitsValue(d))
    ensures IsFullDate(y + "-" + m + "-" + d)
  {
    var s := y + "-" + m + "-" + d;
    assert s[..4] == y && s[5..7] == m && s[8..] == d;
  }

  /* ---------------- the profile record ---------------- */

  /** `analyzed_data.get(key)` and `analyzed_data.get(key, default)`. */
  function Get(data: map<string, Json>, key: string, default: Json): Json {
    if key in data then data[key] else default
  }

  function OptionJson(o: Option<string>): Json {
    if o.Some? then JStr(o.value) else JNull
  }

  const CopiedKeys: seq<string> := ["nome", "cognome", "citta", "cellulare", "anni_esperienza", "competenze"]
  const ListKeys: seq<string> := ["tools", "database", "piattaforme", "sistemi_operativi", "linguaggi_programmazione"]

  /** The keys of `profile_data`. */
  const ProfileKeys: set<string> :=
    {"file_name", "process_status", "nome", "cognome", "citta", "data_nascita", "cellulare",
     "anni_esperienza", "competenze", "tools", "database", "piattaforme", "sistemi_operativi",
     "linguaggi_programmazione"}

  /** The dictionary before None values are removed. */
  function ProfileEntries(filename: string, data: map<string, Json>): map<string, Json> {
    map k | k in ProfileKeys ::
      if k == "file_name" then JStr(filename)
      else if k == "process_status" then JStr("processing")
      else if k == "data_nascita" then OptionJson(ConvertDateFormat(Get(data, "data_nascita", JNull)))
      else if k in ListKeys then Get(data, k, JArr([]))
      else Get(data, k, JNull)
  }

  /** `{k: v for k, v in profile_data.items() if v is not None}` */
  function DropNulls(m: map<string, Json>): (r: map<string, Json>)
    ensures forall k :: k in r <==> k in m && m[k] != JNull
    ensures forall k :: k in r ==> r[k] == m[k]
  {
    map k | k in m && m[k] != JNull :: m[k]
  }

  function ProfileData(filename: string, data: map<string, Json>): map<string, Json> {
    DropNulls(ProfileEntries(filename, data))
  }

  /** The stored profile holds no None, and always carries the file name and the status
      "processing". */
  lemma ProfileDataFixedEntries(filename: string, data: map<string, Json>)
    ensures var p := ProfileData(filename, data);
      && (forall k :: k in p ==> k in ProfileKeys && p[k] != JNull)
      && "file_name" in p && p["file_name"] == JStr(filename)
      && "process_status" in p && p["process_status"] == JStr("processing")
  {
  }

  lemma ListKeysInProfile()
    ensures forall l :: l in ListKeys ==> l in ProfileKeys && l != "file_name" && l != "process_status" && l != "data_nascita"
  {
  }

  lemma CopiedKeysInProfile()
    ensures forall c :: c in CopiedKeys ==>
      c in ProfileKeys && c !in ListKeys && c != "file_name" && c != "process_status" && c != "data_nascita"
  {
  }

  /** A list the analysis left out is stored as []. */
  lemma ProfileDataLists(filename: string, data: map<string, Json>)
    ensures var p := ProfileData(filename, data);
      forall l :: l in ListKeys && l !in data ==> l in p && p[l] == JArr([])
  {
    ListKeysInProfile();
  }

  /** Every other key the analysis gave a non-null value for is copied; a missing one is
      left out. */
  lemma ProfileDataCopied(filename: string, data: map<string, Json>)
    ensures var p := ProfileData(filename, data);
      && (forall c :: c in CopiedKeys && c in data && data[c] != JNull ==> c in p && p[c] == data[c])
      && (forall c :: c in CopiedKeys && c !in data ==> c !in p)
  {
    CopiedKeysInProfile();
  }

  /** A list key the analysis gave as null is dropped, not defaulted: `get` only falls back
      when the key is missing. */
  lemma NullListDropped(filename: string, data: map<string, Json>, l: string)
    requires l in ListKeys && l in data && data[l] == JNull
    ensures l !in ProfileData(filename, data)
  {
    ListKeysInProfile();
  }

  /** The birth date is stored only when the analysis gave a string with two slashes. */
  lemma ProfileBirthDate(filename: string, data: map<string, Json>)
    ensures var p := ProfileData(filename, data);
      ("data_nascita" in p <==> ConvertDateFormat(Get(data, "data_nascita", JNull)).Some?)
      && ("data_nascita" in p ==> p["data_nascita"] == JStr(ConvertDateFormat(Get(data, "data_nascita", JNull)).value))
  {
  }

  /* ---------------- the batch ---------------- */

  const MaxFiles: int := 10

  /** `file.filename.lower().endswith(('.pdf', '.doc', '.docx'))` */
  predicate UploadTypeAllowed(name: string) {
    var ln := Lower(name);
    EndsWith(ln, ".pdf") || EndsWith(ln, ".doc") || EndsWith(ln, ".docx")
  }

  /** An uploaded file: its name and what the format's extractor makes of its content. */
  datatype UploadFile = UploadFile(filename: string, extract: string -> Extraction)

  /** What `cv_analyzer.analyze_cv` returns: an error message, or the decoded JSON of the
      model's answer, of whatever type it is. */
  datatype Analysis = AnalysisFailed(message: string) | Analysed(value: Json)

  /** Python's name for the type of a decoded JSON value. */
  function PyTypeName(v: Json): string {
    match v
    case JNull => "NoneType"
    case JBool(_) => "bool"
    case JNum(_) => "int"
    case JFloat(_) => "float"
    case JStr(_) => "str"
    case JArr(_) => "list"
    case JObj(_) => "dict"
  }

  /** `str(e)` of the `AttributeError` that `analyzed_data.get(...)` raises on a value that
      is not a dict. */
  function NoGetMessage(v: Json): string {
    "'" + PyTypeName(v) + "' object has no attribute 'get'"
  }

  /** What inserting the profile does: the new row's id, or the text of the exception. */
  datatype Storage = StorageFailed(error: string) | Stored(id: Json)

  /** The entries of `responses`. */
  datatype FileResult = FileResult(filename: string, status: string, message: string, cvId: Option<Json>)

  /** The per-file pipeline; each failure is reported for this file only. */
  function ProcessFile(f: UploadFile, analyse: string -> Analysis, store: map<string, Json> -> Storage): (r: FileResult)
    ensures r.filename == f.filename
    ensures r.status == "success" || r.status == "error"
    ensures r.status == "success" <==> r.cvId.Some?
  {
    if !UploadTypeAllowed(f.filename) then FileResult(f.filename, "error", "Invalid file type", None)
    else
      var parsed := ParseFile(f.filename, f.extract);
      if parsed.ParseError? then FileResult(f.filename, "error", parsed.message, None)
      else
        var analysis := analyse(parsed.text);
        if analysis.AnalysisFailed? then FileResult(f.filename, "error", analysis.message, None)
        else if !analysis.value.JObj? then
          // the first `get` raises inside the storage `try`
          FileResult(f.filename, "error", "Error storing CV: " + NoGetMessage(analysis.value), None)
        else
          StoredResult(f.filename, store(ProfileData(f.filename, analysis.value.fields)))
  }

  /** The endpoint's answer: 200 with one result per file, or an HTTP error. */
  datatype BatchResponse = Completed(message: string, results: seq<FileResult>) | HttpError(status: int, detail: string)

  const TooManyFilesDetail: string := "Maximum 10 files allowed per upload"

  /** `upload_cv` as written: the cap's `HTTPException(400)` is raised inside the outer
      `try`, whose `except Exception` turns it into a 500 carrying `str(e)`, which is
      "400: " followed by the detail. */
  function UploadBatch(files: seq<UploadFile>, analyse: string -> Analysis, store: map<string, Json> -> Storage): (r: BatchResponse)
    ensures r.Completed? <==> |files| <= MaxFiles
  {
    if |files| > MaxFiles then HttpError(500, "400: " + TooManyFilesDetail)
    else Completed("Batch processing completed", seq(|files|, i requires 0 <= i < |files| => ProcessFile(files[i], analyse, store)))
  }

  /** `upload_cv` as evidently intended: a batch over the cap is answered with the 400. */
  function UploadBatchChecked(files: seq<UploadFile>, analyse: string -> Analysis, store: map<string, Json> -> Storage): (r: BatchResponse)
    ensures r.Completed? <==> |files| <= MaxFiles
  {
    if |files| > MaxFiles then HttpError(400, TooManyFilesDetail)
    else UploadBatch(files, analyse, store)
  }

  lemma TooManyFilesIsServerError(files: seq<UploadFile>, analyse: string -> Analysis, store: map<string, Json> -> Storage)
    requires |files| > MaxFiles
    ensures UploadBatch(files, analyse, store) == HttpError(500, "400: " + TooManyFilesDetail)
  {
  }

  lemma TooManyFilesIsClientError(files: seq<UploadFile>, analyse: string -> Analysis, store: map<string, Json> -> Storage)
    requires |files| > MaxFiles
    ensures UploadBatchChecked(files, analyse, store) == HttpError(400, TooManyFilesDetail)
    ensures forall fs :: |fs| <= MaxFiles ==> UploadBatchChecked(fs, analyse, store) == UploadBatch(fs, analyse, store)
  {
  }

  /** Up to ten files, every file yields exactly one result, in input order, and each
      result depends on its own file only: a failing file does not stop the others. */
  lemma OneResultPerFile(files: seq<UploadFile>, analyse: string -> Analysis, store: map<string, Json> -> Storage)
    requires |files| <= MaxFiles
    ensures var r := UploadBatchChecked(files, analyse, store);
      && r.Completed? && |r.results| == |files|
      && forall i :: 0 <= i < |files| ==>
           r.results[i] == ProcessFile(files[i], analyse, store) && r.results[i].filename == files[i].filename
  {
  }

  /** A name not ending in an accepted extension is reported as "Invalid file type" before
      anything is read. */
  lemma InvalidTypeReported(f: UploadFile, analyse: string -> Analysis, store: map<string, Json> -> Storage)
    requires !UploadTypeAllowed(f.filename)
    ensures ProcessFile(f, analyse, store) == FileResult(f.filename, "error", "Invalid file type", None)
  {
  }

  /** A success reports the stored id; an analysis or storage failure reports its message,
      and an analysis that is not a JSON object is reported as a storage error naming its
      type, with nothing stored. */
  lemma ProcessFileOutcomes(f: UploadFile, analyse: string -> Analysis, store: map<string, Json> -> Storage)
    requires UploadTypeAllowed(f.filename) && ParseFile(f.filename, f.extract).ParseSuccess?
    ensures var text := ParseFile(f.filename, f.extract).text;
      match analyse(text)
      case AnalysisFailed(m) => ProcessFile(f, analyse, store) == FileResult(f.filename, "error", m, None)
      case Analysed(v) =>
        if !v.JObj? then
          ProcessFile(f, analyse, store) ==
            FileResult(f.filename, "error", "Error storing CV: " + NoGetMessage(v), None)
        else
          match store(ProfileData(f.filename, v.fields))
          case StorageFailed(e) => ProcessFile(f, analyse, store) == FileResult(f.filename, "error", "Error storing CV: " + e, None)
          case Stored(id) => ProcessFile(f, analyse, store) == FileResult(f.filename, "success", "CV processed successfully", Some(id))
  {
    var text := ParseFile(f.filename, f.extract).text;
    match analyse(text)
    case AnalysisFailed(m) =>
    case Analysed(v) =>
      if v.JObj? {
        var stored := store(ProfileData(f.filename, v.fields));
        assert ProcessFile(f, analyse, store) == StoredResult(f.filename, stored);
      }
  }

  /** The result once the profile has been handed to storage. */
  function StoredResult(filename: string, stored: Storage): FileResult {
    match stored
    case StorageFailed(e) => FileResult(filename, "error", "Error storing CV: " + e, None)
    case Stored(id) => FileResult(filename, "success", "CV processed successfully", Some(id))
  }

  /** The upload check lets ".doc" names through, and the parser then rejects them, so such
      a file always ends as an error carrying the parser's message. */
  lemma DocPassesUploadCheckButFails(f: UploadFile, analyse: string -> Analysis, store: map<string, Json> -> Storage)
    requires EndsWith(Lower(f.filename), ".doc")
    ensures UploadTypeAllowed(f.filename)
    ensures ProcessFile(f, analyse, store) == FileResult(f.filename, "error", UnsupportedFormatMessage, None)
  {
    DocIsRejected(f.filename);
  }

  /** The upload check as evidently intended: exactly the formats the parser supports. */
  predicate UploadTypeSupported(name: string) {
    var ln := Lower(name);
    EndsWith(ln, ".pdf") || EndsWith(ln, ".docx")
  }

  /** With it, every name that passes the upload check also passes the parser's check. */
  lemma SupportedUploadIsParsed(name: string)
    requires UploadTypeSupported(name)
    ensures ValidateFileType(name).Ok?
    ensures UploadTypeAllowed(name)
  {
    SuffixIsAccepted(name);
  }
}
