/** The CV parser service (backend/app/services/cv_parser.py): the file-type check, the text
    cleaner and the success/error dispatch of `parse_file`. Text extraction from PDF and DOCX
    content is done by foreign libraries and enters the model as the extractor's outcome. */
module CvParser {
  import opened Wrappers
  import opened Strings
  import PyText

  const SupportedFormats: seq<string> := [".pdf", ".docx"]

  const UnsupportedFormatMessage: string :=
    "Formato file non supportato. Formati supportati: ['.pdf', '.docx']"

  /** `filename.split('.')[-1]`: the text after the last '.', or the whole name without one. */
  function LastSegment(name: string): string {
    var parts := Split(name, '.');
    parts[|parts| - 1]
  }

  /** `"." + filename.split('.')[-1].lower()` */
  function Extension(name: string): string {
    "." + Lower(LastSegment(name))
  }

  /** `validate_file_type`: the extension when it is a supported format, otherwise the
      `ValueError` message. */
  function ValidateFileType(name: string): (r: Result<string, string>)
    ensures r.Ok? ==> r.value == Extension(name) && r.value in SupportedFormats
    ensures r.Err? ==> r.error == UnsupportedFormatMessage
  {
    var ext := Extension(name);
    if ext in SupportedFormats then Ok(ext) else Err(UnsupportedFormatMessage)
  }

  lemma {:induction false} CountZero(s: string, c: char)
    ensures Count(s, c) == 0 <==> c !in s
  {
    if |s| > 0 {
      CountZero(s[1..], c);
      assert s == [s[0]] + s[1..];
    }
  }

  /** How the last segment of a non-empty string relates to that of its tail. */
  lemma LastSegmentStep(s: string)
    requires |s| > 0
    ensures LastSegment(s) == if s[0] != '.' && '.' !in s[1..] then s else LastSegment(s[1..])
  {
    var rest := Split(s[1..], '.');
    SplitCount(s[1..], '.');
    CountZero(s[1..], '.');
    if s[0] != '.' && '.' !in s[1..] {
      assert |rest| == 1;
      JoinSplit(s[1..], '.');
      assert rest[0] == s[1..];
      assert s == [s[0]] + s[1..];
    }
  }

  /** The suffix shape `LastSegment` has: a dot-free suffix that is the whole string or
      follows a '.'. */
  predicate DotFreeTail(s: string, t: string) {
    EndsWith(s, t) && '.' !in t && (|t| == |s| || s[|s| - |t| - 1] == '.')
  }

  /** A dot-free tail of `s[1..]` that is shorter than it, or follows a leading '.', is a
      dot-free tail of `s`. */
  lemma DotFreeTailStep(s: string, t: string)
    requires |s| > 0 && DotFreeTail(s[1..], t)
    requires |t| < |s| - 1 || s[0] == '.'
    ensures DotFreeTail(s, t)
  {
    assert s[1..][|s| - 1 - |t|..] == s[|s| - |t|..];
    if |t| < |s| - 1 {
      assert s[1..][|s| - 1 - |t| - 1] == s[|s| - |t| - 1];
    }
  }

  /** The last segment is the longest suffix without a '.'. */
  lemma {:induction false} LastSegmentShape(s: string)
    ensures DotFreeTail(s, LastSegment(s))
  {
    if |s| == 0 {
      assert LastSegment(s) == "";
    } else {
      LastSegmentStep(s);
      if !(s[0] != '.' && '.' !in s[1..]) {
        LastSegmentShape(s[1..]);
        var t := LastSegment(s[1..]);
        if |t| == |s| - 1 {
          assert t == s[1..];
        }
        DotFreeTailStep(s, t);
      }
    }
  }

  /** Two suffixes without '.', each either the whole string or preceded by '.', are equal. */
  lemma DotFreeSuffixUnique(s: string, t1: string, t2: string)
    requires DotFreeTail(s, t1) && DotFreeTail(s, t2)
    ensures t1 == t2
  {
    if |t1| < |t2| {
      assert false;
    } else if |t2| < |t1| {
      assert false;
    }
  }

  lemma LowerKeepsDots(s: string)
    ensures forall i :: 0 <= i < |s| ==> (Lower(s)[i] == '.' <==> s[i] == '.')
  {
  }

  lemma AcceptsByLastSegment(name: string)
    ensures ValidateFileType(name).Ok? <==> Lower(LastSegment(name)) in ["pdf", "docx"]
  {
    var x := Lower(LastSegment(name));
    assert Extension(name) == "." + x;
    if "." + x == ".pdf" { assert x == ("." + x)[1..] == ".pdf"[1..]; }
    if "." + x == ".docx" { assert x == ("." + x)[1..] == ".docx"[1..]; }
  }

  /** A name ending in "." + x, x free of dots, has last segment x (up to case). */
  lemma SegmentOfSuffix(name: string, x: string)
    requires '.' !in x && EndsWith(Lower(name), "." + x)
    ensures Lower(LastSegment(name)) == x
  {
    var ln := Lower(name);
    LastSegmentShape(name);
    LowerKeepsDots(name);
    var u := name[|name| - |x|..];
    assert Lower(u) == ln[|name| - |x|..];
    assert ln[|name| - |x|..] == ("." + x)[1..] == x;
    assert '.' !in u by {
      forall i | 0 <= i < |u| ensures u[i] != '.' { assert ln[|name| - |x| + i] == x[i]; }
    }
    assert ln[|name| - |x| - 1] == '.';
    DotFreeSuffixUnique(name, LastSegment(name), u);
  }

  /** A name with a '.' ends in "." followed by its last segment. */
  lemma SuffixOfSegment(name: string)
    requires '.' in name
    ensures EndsWith(Lower(name), "." + Lower(LastSegment(name)))
  {
    var t := LastSegment(name);
    LastSegmentShape(name);
    if |t| == |name| {
      assert false;
    }
    DottedTailLower(name, t);
  }

  /** A dot-free tail after a '.' stays one, with its '.', under lower-casing. */
  lemma DottedTailLower(s: string, t: string)
    requires DotFreeTail(s, t) && |t| < |s|
    ensures EndsWith(Lower(s), "." + Lower(t))
  {
    var k := |s| - |t| - 1;
    assert s[k..] == "." + t;
    LowerSuffix(s, k);
    LowerAppend(".", t);
    assert Lower(".") == ".";
  }

  lemma LowerSuffix(s: string, k: int)
    requires 0 <= k <= |s|
    ensures Lower(s)[k..] == Lower(s[k..])
  {
  }

  lemma NoDotNoSuffix(name: string)
    requires '.' !in name
    ensures LastSegment(name) == name
    ensures !EndsWith(Lower(name), ".pdf") && !EndsWith(Lower(name), ".docx")
  {
    LastSegmentShape(name);
    LowerKeepsDots(name);
  }

  predicate HasSupportedSuffix(name: string) {
    || EndsWith(Lower(name), ".pdf") || EndsWith(Lower(name), ".docx")
    || ('.' !in name && (Lower(name) == "pdf" || Lower(name) == "docx"))
  }

  lemma AcceptedHasSuffix(name: string)
    requires ValidateFileType(name).Ok?
    ensures HasSupportedSuffix(name)
  {
    AcceptsByLastSegment(name);
    if '.' in name {
      SuffixOfSegment(name);
    } else {
      NoDotNoSuffix(name);
    }
  }

  /** The last segment of a name ending in a supported extension is that extension's
      format name, up to case. */
  lemma SegmentOfFormat(name: string, ext: string)
    requires ext in SupportedFormats && EndsWith(Lower(name), ext)
    ensures Lower(LastSegment(name)) == ext[1..]
  {
    FormatName(ext);
    SegmentOfSuffix(name, ext[1..]);
  }

  /** A supported extension is a '.' followed by a dot-free format name. */
  lemma FormatName(ext: string)
    requires ext in SupportedFormats
    ensures ext == "." + ext[1..] && '.' !in ext[1..]
  {
    var x := ext[1..];
    if ext == ".pdf" { assert x[0] != '.' && x[1] != '.' && x[2] != '.'; }
    else { assert x[0] != '.' && x[1] != '.' && x[2] != '.' && x[3] != '.'; }
  }

  /** A name ending in a supported format's extension is accepted. */
  lemma FormatSuffixIsAccepted(name: string, ext: string)
    requires ext in SupportedFormats && EndsWith(Lower(name), ext)
    ensures ValidateFileType(name).Ok?
  {
    SegmentOfFormat(name, ext);
    assert ext[1..] in ["pdf", "docx"];
    AcceptsByLastSegment(name);
  }

  lemma BareFormatIsAccepted(name: string)
    requires '.' !in name && (Lower(name) == "pdf" || Lower(name) == "docx")
    ensures ValidateFileType(name).Ok?
  {
    AcceptsByLastSegment(name);
    NoDotNoSuffix(name);
  }

  lemma SuffixIsAccepted(name: string)
    requires HasSupportedSuffix(name)
    ensures ValidateFileType(name).Ok?
  {
    if EndsWith(Lower(name), ".pdf") {
      FormatSuffixIsAccepted(name, ".pdf");
    } else if EndsWith(Lower(name), ".docx") {
      FormatSuffixIsAccepted(name, ".docx");
    } else {
      BareFormatIsAccepted(name);
    }
  }

  /** `validate_file_type` accepts a name exactly when, ignoring ASCII case, it ends in
      ".pdf" or ".docx", or it has no '.' at all and is "pdf" or "docx" itself. In
      particular ".doc" is rejected. */
  lemma ValidateFileTypeAccepts(name: string)
    ensures ValidateFileType(name).Ok? <==> HasSupportedSuffix(name)
  {
    if ValidateFileType(name).Ok? {
      AcceptedHasSuffix(name);
    }
    if HasSupportedSuffix(name) {
      SuffixIsAccepted(name);
    }
  }

  lemma DocIsRejected(name: string)
    requires EndsWith(Lower(name), ".doc")
    ensures ValidateFileType(name).Err?
  {
    ValidateFileTypeAccepts(name);
    var ln := Lower(name);
    assert ln[|ln| - 1] == 'c';
  }

  /* ---------------- clean_text ---------------- */

  /** The accented vowels `clean_text` keeps explicitly: à è é ì ò ù À È É Ì Ò Ù. */
  const ItalianAccents: set<char> :=
    {'\U{E0}', '\U{E8}', '\U{E9}', '\U{EC}', '\U{F2}', '\U{F9}',
     '\U{C0}', '\U{C8}', '\U{C9}', '\U{CC}', '\U{D2}', '\U{D9}'}

  predicate Kept(c: char) {
    PyText.IsPrintable(c) || c in ItalianAccents
  }

  function KeepChars(s: string): string {
    if |s| == 0 then "" else (if Kept(s[0]) then [s[0]] else "") + KeepChars(s[1..])
  }

  /** Only kept characters survive, and every kept character does. */
  lemma {:induction false} KeepCharsKept(s: string)
    ensures forall i :: 0 <= i < |KeepChars(s)| ==> Kept(KeepChars(s)[i])
    ensures forall c :: c in s && Kept(c) ==> c in KeepChars(s)
  {
    if |s| > 0 {
      KeepCharsKept(s[1..]);
      var head: string := if Kept(s[0]) then [s[0]] else "";
      assert KeepChars(s) == head + KeepChars(s[1..]);
      forall c | c in s && Kept(c) ensures c in KeepChars(s) {
        if c != s[0] { assert c in s[1..]; }
      }
    }
  }

  /** `clean_text`: whitespace runs collapse to single spaces, then every character that is
      neither printable nor an Italian accented vowel is dropped. */
  function CleanText(text: string): (r: string)
    ensures forall i :: 0 <= i < |r| ==> Kept(r[i])
    ensures '\t' !in r && '\n' !in r
  {
    var r := KeepChars(Join(PyText.Words(text), ' '));
    KeepCharsKept(Join(PyText.Words(text), ' '));
    ControlsNotKept();
    assert '\t' !in r && '\n' !in r by {
      forall i | 0 <= i < |r| ensures r[i] != '\t' && r[i] != '\n' {
        assert Kept(r[i]);
      }
    }
    r
  }

  lemma ControlsNotKept()
    ensures !Kept('\t') && !Kept('\n')
  {
  }

  lemma {:induction false} KeepCharsIdentity(s: string)
    requires forall i :: 0 <= i < |s| ==> Kept(s[i])
    ensures KeepChars(s) == s
  {
    if |s| > 0 {
      KeepCharsIdentity(s[1..]);
      assert s == [s[0]] + s[1..];
    }
  }

  /** Every non-whitespace character of `s` is printable. */
  predicate PrintableText(s: string) {
    forall i :: 0 <= i < |s| && !PyText.IsSpace(s[i]) ==> PyText.IsPrintable(s[i])
  }

  lemma PrintableSuffix(s: string, k: int)
    requires PrintableText(s) && 0 <= k <= |s|
    ensures PrintableText(s[k..])
  {
    forall i | 0 <= i < |s| - k ensures !PyText.IsSpace(s[k..][i]) ==> PyText.IsPrintable(s[k..][i]) {
      assert s[k..][i] == s[k + i];
    }
  }

  /** The words of a text whose visible characters are printable are printable. */
  lemma {:induction false} WordsPrintable(s: string)
    requires PrintableText(s)
    ensures forall i, j :: 0 <= i < |PyText.Words(s)| && 0 <= j < |PyText.Words(s)[i]| ==> PyText.IsPrintable(PyText.Words(s)[i][j])
    decreases |s|
  {
    var t := PyText.DropSpace(s);
    PrintableSuffix(s, |s| - |t|);
    if |t| > 0 {
      var w := PyText.TakeWord(t);
      var u := t[|w|..];
      PrintableSuffix(t, |w|);
      WordsPrintable(u);
      assert forall j :: 0 <= j < |w| ==> PyText.IsPrintable(w[j]) by {
        forall j | 0 <= j < |w| ensures PyText.IsPrintable(w[j]) { assert w[j] == t[j]; }
      }
      var ws := PyText.Words(s);
      var rest := PyText.Words(u);
      assert ws == [w] + rest;
      forall i, j | 0 <= i < |ws| && 0 <= j < |ws[i]| ensures PyText.IsPrintable(ws[i][j]) {
        if i > 0 { assert ws[i] == rest[i - 1]; }
      }
    }
  }

  lemma {:induction false} JoinKept(ws: seq<string>)
    requires forall i, j :: 0 <= i < |ws| && 0 <= j < |ws[i]| ==> Kept(ws[i][j])
    ensures forall k :: 0 <= k < |Join(ws, ' ')| ==> Kept(Join(ws, ' ')[k])
  {
    if |ws| > 1 {
      var tail := ws[1..];
      assert forall i, j :: 0 <= i < |tail| && 0 <= j < |tail[i]| ==> Kept(tail[i][j]) by {
        forall i, j | 0 <= i < |tail| && 0 <= j < |tail[i]| ensures Kept(tail[i][j]) {
          assert tail[i] == ws[i + 1];
        }
      }
      JoinKept(tail);
      var r := Join(tail, ' ');
      var j := Join(ws, ' ');
      assert j == ws[0] + [' '] + r;
      forall k | 0 <= k < |j| ensures Kept(j[k]) {
        if k < |ws[0]| { assert j[k] == ws[0][k]; }
        else if k > |ws[0]| { assert j[k] == r[k - |ws[0]| - 1]; }
      }
    } else if |ws| == 1 {
      assert Join(ws, ' ') == ws[0];
    }
  }

  /** When every non-whitespace character of the input is printable, `clean_text` only
      normalises whitespace: the words joined by single spaces. Cleaning again changes
      nothing. */
  lemma CleanTextOfPrintable(text: string)
    requires PrintableText(text)
    ensures CleanText(text) == Join(PyText.Words(text), ' ')
    ensures CleanText(CleanText(text)) == CleanText(text)
  {
    var ws := PyText.Words(text);
    PyText.WordsAreWords(text);
    WordsPrintable(text);
    JoinKept(ws);
    KeepCharsIdentity(Join(ws, ' '));
    PyText.WordsOfJoin(ws);
  }

  lemma {:induction false} KeepCharsAppend(x: string, y: string)
    ensures KeepChars(x + y) == KeepChars(x) + KeepChars(y)
  {
    if |x| > 0 {
      assert (x + y)[1..] == x[1..] + y;
      KeepCharsAppend(x[1..], y);
    } else {
      assert x + y == y;
    }
  }

  lemma JoinThree(a: string, b: string, c: string)
    ensures Join([a, b, c], ' ') == a + " " + b + " " + c
  {
    assert [a, b, c][1..] == [b, c];
    assert [b, c][1..] == [c];
    assert Join([b, c], ' ') == b + " " + c;
    assert Join([a, b, c], ' ') == a + " " + (b + " " + c);
  }

  lemma WordKept(w: string)
    requires PyText.IsWord(w) && PrintableText(w)
    ensures forall i :: 0 <= i < |w| ==> Kept(w[i])
  {
  }

  lemma KeepCharsDropsOne(a: string, c: char, b: string)
    requires PyText.IsWord(a) && PyText.IsWord(b) && PrintableText(a) && PrintableText(b)
    requires !Kept(c)
    ensures KeepChars(a + " " + [c] + " " + b) == a + "  " + b
  {
    WordKept(a);
    WordKept(b);
    KeepCharsIdentity(a);
    KeepCharsIdentity(b);
    var m := " " + [c] + " ";
    KeepCharsSpaced(c);
    KeepCharsAppend(a, m);
    KeepCharsAppend(a + m, b);
    assert a + " " + [c] + " " + b == a + m + b;
  }

  /** A dropped character between two spaces leaves the two spaces. */
  lemma KeepCharsSpaced(c: char)
    requires !Kept(c)
    ensures KeepChars(" " + [c] + " ") == "  "
  {
    var sp := " ";
    KeepCharsOfDropped(c);
    assert KeepChars(sp) == sp;
    KeepCharsAppend(sp, [c]);
    KeepCharsAppend(sp + [c], sp);
  }

  lemma KeepCharsOfDropped(c: char)
    requires !Kept(c)
    ensures KeepChars([c]) == ""
  {
    assert [c][0] == c && [c][1..] == [];
  }

  lemma WordsTwoSpaces(a: string, b: string)
    requires PyText.IsWord(a) && PyText.IsWord(b)
    ensures PyText.Words(a + (" " + (" " + b))) == [a, b]
  {
    var r2 := " " + (" " + b);
    assert r2[0] == ' ';
    PyText.WordsCons(a, r2);
    WordsAfterTwoSpaces(b);
  }

  lemma WordsAfterTwoSpaces(b: string)
    requires PyText.IsWord(b)
    ensures PyText.Words(" " + (" " + b)) == [b]
  {
    PyText.WordsSkipsSpace(" " + b);
    PyText.WordsSkipsSpace(b);
    PyText.WordsOne(b);
  }

  lemma WordsDoubleSpace(a: string, b: string)
    requires PyText.IsWord(a) && PyText.IsWord(b)
    ensures PyText.Words(a + "  " + b) == [a, b]
  {
    assert a + "  " + b == a + (" " + (" " + b));
    WordsTwoSpaces(a, b);
  }

  lemma CleanTextDropsControl(a: string, c: char, b: string)
    requires PyText.IsWord(a) && PyText.IsWord(b) && PrintableText(a) && PrintableText(b)
    requires !PyText.IsSpace(c) && !Kept(c)
    ensures CleanText(a + " " + [c] + " " + b) == a + "  " + b
  {
    var ws := [a, [c], b];
    assert PyText.IsWord([c]);
    assert forall i :: 0 <= i < |ws| ==> PyText.IsWord(ws[i]);
    JoinThree(a, [c], b);
    PyText.WordsOfJoin(ws);
    KeepCharsDropsOne(a, c, b);
  }

  lemma CleanTextOfDoubleSpace(a: string, b: string)
    requires PyText.IsWord(a) && PyText.IsWord(b) && PrintableText(a) && PrintableText(b)
    ensures CleanText(a + "  " + b) == a + " " + b
  {
    WordsDoubleSpace(a, b);
    assert Join([a, b], ' ') == a + " " + b;
    WordKept(a);
    WordKept(b);
    KeepCharsAppend(a + " ", b);
    KeepCharsAppend(a, " ");
    KeepCharsIdentity(a);
    KeepCharsIdentity(b);
    assert KeepChars(" ") == " ";
  }

  /** Without that premise cleaning is not idempotent: a dropped control character between
      two words leaves a double space behind, which the next pass collapses. */
  lemma CleanTextNotIdempotent(a: string, c: char, b: string)
    requires PyText.IsWord(a) && PyText.IsWord(b) && PrintableText(a) && PrintableText(b)
    requires !PyText.IsSpace(c) && !Kept(c)
    ensures CleanText(a + " " + [c] + " " + b) == a + "  " + b
    ensures CleanText(CleanText(a + " " + [c] + " " + b)) == a + " " + b
  {
    CleanTextDropsControl(a, c, b);
    CleanTextOfDoubleSpace(a, b);
  }

  /* ---------------- parse_file ---------------- */

  /** What the format's extractor does with the file content: returns text, or raises. */
  datatype Extraction = Extracted(text: string) | Raised(errorType: string, message: string)

  /** The dictionary `parse_file` returns; `basic_info` (regex search) is not modelled. */
  datatype ParseResult =
    | ParseSuccess(text: string, filename: string, format: string)
    | ParseError(message: string, filename: string, errorType: string)
  {
    function Filename(): string {
      match this
      case ParseSuccess(_, f, _) => f
      case ParseError(_, f, _) => f
    }
  }

  function NoTextMessage(filename: string): string {
    "Nessun testo estratto dal file " + filename
  }

  /** `parse_file`: validate the type, extract with the format's extractor, reject blank
      text, clean it. Every exception becomes an error result carrying its type name. */
  function ParseFile(filename: string, extract: string -> Extraction): (r: ParseResult)
    ensures r.Filename() == filename
    ensures ValidateFileType(filename).Err? ==> r == ParseError(UnsupportedFormatMessage, filename, "ValueError")
    ensures r.ParseSuccess? <==>
      ValidateFileType(filename).Ok? && extract(ValidateFileType(filename).value).Extracted?
      && !PyText.Blank(extract(ValidateFileType(filename).value).text)
    ensures r.ParseSuccess? ==>
      r.format == Extension(filename) && r.format in SupportedFormats
      && r.text == CleanText(extract(r.format).text)
  {
    match ValidateFileType(filename)
    case Err(msg) => ParseError(msg, filename, "ValueError")
    case Ok(ext) =>
      match extract(ext)
      case Raised(kind, msg) => ParseError(msg, filename, kind)
      case Extracted(text) =>
        if PyText.Blank(text) then ParseError(NoTextMessage(filename), filename, "ValueError")
        else ParseSuccess(CleanText(text), filename, ext)
  }

  /** Blank extracted text is reported as an error naming the file. */
  lemma BlankTextIsError(filename: string, extract: string -> Extraction)
    requires ValidateFileType(filename).Ok?
    requires extract(ValidateFileType(filename).value).Extracted?
    requires PyText.Blank(extract(ValidateFileType(filename).value).text)
    ensures ParseFile(filename, extract) == ParseError(NoTextMessage(filename), filename, "ValueError")
  {
  }

  /** Non-blank text can still clean down to nothing: a success whose text is empty. */
  lemma SuccessTextMayBeEmpty(filename: string, c: char)
    requires ValidateFileType(filename).Ok?
    requires !PyText.IsSpace(c) && !Kept(c)
    ensures ParseFile(filename, _ => Extracted([c])) == ParseSuccess("", filename, ValidateFileType(filename).value)
  {
    ControlNotBlank(c);
    CleanTextOfControl(c);
  }

  lemma ControlNotBlank(c: char)
    requires !PyText.IsSpace(c)
    ensures !PyText.Blank([c])
  {
    assert !PyText.IsSpace([c][0]);
  }

  /** A lone character that is neither kept nor whitespace cleans to nothing. */
  lemma CleanTextOfControl(c: char)
    requires !PyText.IsSpace(c) && !Kept(c)
    ensures CleanText([c]) == ""
  {
    WordOfOne(c);
    CleanTextOfOneWord([c], [c]);
    KeepCharsOfDropped(c);
  }

  lemma WordOfOne(c: char)
    requires !PyText.IsSpace(c)
    ensures PyText.Words([c]) == [[c]]
  {
    assert PyText.IsWord([c]);
    PyText.WordsOne([c]);
  }

  lemma CleanTextOfOneWord(text: string, w: string)
    requires PyText.Words(text) == [w]
    ensures CleanText(text) == KeepChars(w)
  {
    assert Join([w], ' ') == w;
  }
}
