/** The parts of Python's `str` semantics that the backend relies on: `isspace`,
    argument-less `split`, `strip`, `isprintable` and the text form accepted by `int()`. */
module PyText {
  import opened Wrappers
  import opened Strings

  /** The characters for which Python's `str.isspace` holds. */
  predicate IsSpace(c: char) {
    || c == ' ' || '\t' <= c <= '\r' || '\U{1C}' <= c <= '\U{1F}'
    || c == '\U{85}' || c == '\U{A0}' || c == '\U{1680}' || '\U{2000}' <= c <= '\U{200A}'
    || c == '\U{2028}' || c == '\U{2029}' || c == '\U{202F}' || c == '\U{205F}' || c == '\U{3000}'
  }

  /** `not s or s.isspace()`: the string holds nothing but whitespace. */
  predicate Blank(s: string) {
    forall i :: 0 <= i < |s| ==> IsSpace(s[i])
  }

  /** Python's `str.isprintable` for one character: false for the control characters (Cc),
      the separators other than the ASCII space (Zs, Zl, Zp), the format characters (Cf) and
      the private-use characters (Co) of Unicode 15. Unassigned code points, which Python
      also rejects, are not distinguished. */
  predicate IsPrintable(c: char) {
    !(|| c < ' ' || '\U{7F}' <= c <= '\U{9F}' || c == '\U{A0}' || c == '\U{AD}'
      || '\U{600}' <= c <= '\U{605}' || c == '\U{61C}' || c == '\U{6DD}' || c == '\U{70F}'
      || '\U{890}' <= c <= '\U{891}' || c == '\U{8E2}'
      || c == '\U{1680}' || c == '\U{180E}' || '\U{2000}' <= c <= '\U{200F}'
      || '\U{2028}' <= c <= '\U{202F}' || '\U{205F}' <= c <= '\U{2064}' || '\U{2066}' <= c <= '\U{206F}'
      || c == '\U{3000}' || '\U{E000}' <= c <= '\U{F8FF}' || c == '\U{FEFF}' || '\U{FFF9}' <= c <= '\U{FFFB}'
      || c == '\U{110BD}' || c == '\U{110CD}' || '\U{13430}' <= c <= '\U{1343F}'
      || '\U{1BCA0}' <= c <= '\U{1BCA3}' || '\U{1D173}' <= c <= '\U{1D17A}'
      || c == '\U{E0001}' || '\U{E0020}' <= c <= '\U{E007F}'
      || '\U{F0000}' <= c <= '\U{FFFFD}' || '\U{100000}' <= c <= '\U{10FFFD}')
  }

  /** An Arabic number sign and the language tag (format characters) and a character of the
      supplementary private-use plane are not printable; letters and the space are. */
  lemma FormatAndPrivateUseNotPrintable()
    ensures !IsPrintable('\U{600}') && !IsPrintable('\U{E0001}') && !IsPrintable('\U{F0000}')
    ensures IsPrintable('a') && IsPrintable(' ') && IsPrintable('\U{E9}')
  {
  }

  lemma SpaceIsPrintableOnlyForBlank(c: char)
    requires IsSpace(c)
    ensures IsPrintable(c) <==> c == ' '
  {
  }

  /** Leading whitespace removed. */
  function DropSpace(s: string): (r: string)
    ensures |r| <= |s| && r == s[|s| - |r|..]
    ensures |r| > 0 ==> !IsSpace(r[0])
  {
    if |s| > 0 && IsSpace(s[0]) then DropSpace(s[1..]) else s
  }

  /** The longest prefix without whitespace. */
  function TakeWord(s: string): (w: string)
    ensures |w| <= |s| && w == s[..|w|]
    ensures forall i :: 0 <= i < |w| ==> !IsSpace(w[i])
    ensures |w| < |s| ==> IsSpace(s[|w|])
  {
    if |s| > 0 && !IsSpace(s[0]) then [s[0]] + TakeWord(s[1..]) else ""
  }

  predicate IsWord(w: string) {
    |w| > 0 && forall i :: 0 <= i < |w| ==> !IsSpace(w[i])
  }

  /** Python's `s.split()`: the maximal runs of non-whitespace characters, in order. */
  function Words(s: string): seq<string>
    decreases |s|
  {
    var t := DropSpace(s);
    if |t| == 0 then []
    else
      var w := TakeWord(t);
      [w] + Words(t[|w|..])
  }

  /** Every word is non-empty and free of whitespace. */
  lemma {:induction false} WordsAreWords(s: string)
    ensures forall i :: 0 <= i < |Words(s)| ==> IsWord(Words(s)[i])
    decreases |s|
  {
    var t := DropSpace(s);
    if |t| > 0 {
      var w := TakeWord(t);
      WordsAreWords(t[|w|..]);
      var ws := Words(s);
      assert ws == [w] + Words(t[|w|..]);
      forall i | 0 <= i < |ws| ensures IsWord(ws[i]) {
        if i > 0 { assert ws[i] == Words(t[|w|..])[i - 1]; }
      }
    }
  }

  lemma {:induction false} TakeWordAll(w: string, rest: string)
    requires forall i :: 0 <= i < |w| ==> !IsSpace(w[i])
    requires |rest| > 0 ==> IsSpace(rest[0])
    ensures TakeWord(w + rest) == w
  {
    if |w| > 0 {
      assert (w + rest)[1..] == w[1..] + rest;
      TakeWordAll(w[1..], rest);
      assert w == [w[0]] + w[1..];
    } else {
      assert w + rest == rest;
    }
  }

  lemma WordsCons(w: string, rest: string)
    requires IsWord(w)
    requires |rest| > 0 ==> IsSpace(rest[0])
    ensures Words(w + rest) == [w] + Words(rest)
  {
    var t := w + rest;
    assert DropSpace(t) == t by { assert t[0] == w[0]; }
    TakeWordAll(w, rest);
    assert t[|w|..] == rest;
  }

  /** A single word splits into itself. */
  lemma WordsOne(w: string)
    requires IsWord(w)
    ensures Words(w) == [w]
  {
    WordsCons(w, "");
    assert w + "" == w;
  }

  lemma WordsSkipsSpace(r: string)
    ensures Words(" " + r) == Words(r)
  {
    assert (" " + r)[1..] == r;
    assert DropSpace(" " + r) == DropSpace(r);
  }

  /** Splitting a space-joined list of words gives the words back. */
  lemma {:induction false} WordsOfJoin(ws: seq<string>)
    requires forall i :: 0 <= i < |ws| ==> IsWord(ws[i])
    ensures Words(Join(ws, ' ')) == ws
  {
    if |ws| == 1 {
      WordsCons(ws[0], "");
      assert ws[0] + "" == ws[0];
    } else if |ws| > 1 {
      var tail := ws[1..];
      var rest := Join(tail, ' ');
      assert forall i :: 0 <= i < |tail| ==> IsWord(tail[i]) by {
        forall i | 0 <= i < |tail| ensures IsWord(tail[i]) { assert tail[i] == ws[i + 1]; }
      }
      var spaced := " " + rest;
      assert Join(ws, ' ') == ws[0] + spaced;
      calc {
        Words(Join(ws, ' '));
        Words(ws[0] + spaced);
        { WordsCons(ws[0], spaced); }
        [ws[0]] + Words(spaced);
        { WordsSkipsSpace(rest); }
        [ws[0]] + Words(rest);
        { WordsOfJoin(tail); }
        [ws[0]] + tail;
        ws;
      }
    }
  }

  lemma {:induction false} JoinHead(ws: seq<string>)
    requires |ws| > 0 && |ws[0]| > 0
    ensures |Join(ws, ' ')| > 0 && Join(ws, ' ')[0] == ws[0][0]
  {
  }

  /** Python's `str.strip()`: whitespace removed at both ends. */
  function Strip(s: string): (r: string)
    ensures |r| <= |s|
    ensures |r| > 0 ==> !IsSpace(r[0]) && !IsSpace(r[|r| - 1])
    decreases |s|
  {
    if |s| > 0 && IsSpace(s[0]) then Strip(s[1..])
    else if |s| > 0 && IsSpace(s[|s| - 1]) then Strip(s[..|s| - 1])
    else s
  }

  /** `r` is the slice of `s` starting at `i`, with only whitespace around it. */
  predicate StripsTo(s: string, r: string, i: int) {
    0 <= i <= |s| - |r| && r == s[i..i + |r|] && Blank(s[..i]) && Blank(s[i + |r|..])
  }

  lemma BlankAppend(a: string, b: string)
    requires Blank(a) && Blank(b)
    ensures Blank(a + b)
  {
    forall k | 0 <= k < |a + b| ensures IsSpace((a + b)[k]) {
      if k < |a| { assert (a + b)[k] == a[k]; } else { assert (a + b)[k] == b[k - |a|]; }
    }
  }

  lemma StripsToPastLeading(s: string, r: string, j: int)
    requires |s| > 0 && IsSpace(s[0]) && StripsTo(s[1..], r, j)
    ensures StripsTo(s, r, j + 1)
  {
    var t := s[1..];
    assert s[..j + 1] == [s[0]] + t[..j];
    BlankAppend([s[0]], t[..j]);
    assert s[j + 1..j + 1 + |r|] == t[j..j + |r|];
    assert s[j + 1 + |r|..] == t[j + |r|..];
  }

  lemma StripsToPastTrailing(s: string, r: string, j: int)
    requires |s| > 0 && IsSpace(s[|s| - 1]) && StripsTo(s[..|s| - 1], r, j)
    ensures StripsTo(s, r, j)
  {
    var t := s[..|s| - 1];
    assert s[..j] == t[..j];
    assert s[j..j + |r|] == t[j..j + |r|];
    assert s[j + |r|..] == t[j + |r|..] + [s[|s| - 1]];
    BlankAppend(t[j + |r|..], [s[|s| - 1]]);
  }

  /** `strip` removes exactly the whitespace at the two ends: its result is a slice of `s`
      with nothing but whitespace before and after it. */
  lemma {:induction false} StripMeaning(s: string)
    ensures exists i :: StripsTo(s, Strip(s), i)
    decreases |s|
  {
    var r := Strip(s);
    if |s| > 0 && IsSpace(s[0]) {
      StripMeaning(s[1..]);
      var j :| StripsTo(s[1..], r, j);
      StripsToPastLeading(s, r, j);
    } else if |s| > 0 && IsSpace(s[|s| - 1]) {
      StripMeaning(s[..|s| - 1]);
      var j :| StripsTo(s[..|s| - 1], r, j);
      StripsToPastTrailing(s, r, j);
    } else {
      assert s[0..0 + |r|] == s && s[..0] == "" && s[|r|..] == "";
      assert StripsTo(s, r, 0);
    }
  }

  /** Digits with single underscores between them, as `int()` accepts. */
  predicate DigitGroups(b: string) {
    && |b| > 0 && IsDigit(b[0]) && IsDigit(b[|b| - 1])
    && (forall i :: 0 <= i < |b| ==> IsDigit(b[i]) || b[i] == '_')
    && (forall i :: 0 <= i < |b| - 1 ==> !(b[i] == '_' && b[i + 1] == '_'))
  }

  function RemoveUnderscores(b: string): (r: string)
    requires forall i :: 0 <= i < |b| ==> IsDigit(b[i]) || b[i] == '_'
    ensures AllDigits(r)
  {
    if |b| == 0 then "" else (if b[0] == '_' then "" else [b[0]]) + RemoveUnderscores(b[1..])
  }

  /** `int()` refuses a decimal text of more than this many digits, leading zeros included
      (`sys.int_info.default_max_str_digits`). */
  const MaxStrDigits: nat := 4300

  /** Python's `int(s)` on a string, for ASCII digits: optional surrounding whitespace, an
      optional sign and digit groups of at most `MaxStrDigits` digits; `None` stands for the
      `ValueError` it raises. */
  function PyInt(s: string): Option<int> {
    var t := Strip(s);
    if |t| > 0 && (t[0] == '+' || t[0] == '-') then
      match ReadGroups(t[1..])
      case None => None
      case Some(v) => Some(if t[0] == '-' then 0 - v else v)
    else ReadGroups(t)
  }

  /** The value of unsigned digit groups, or `None` when they are malformed or too long. */
  function ReadGroups(b: string): Option<nat> {
    if !DigitGroups(b) then None
    else
      var digits := RemoveUnderscores(b);
      if |digits| > MaxStrDigits then None else Some(DigitsValue(digits))
  }

  /** A stripped text starting with a minus sign is read as the negated value of the rest. */
  lemma PyIntOfMinus(s: string)
    requires |s| > 0 && s[0] == '-' && Strip(s) == s
    ensures PyInt(s) == if ReadGroups(s[1..]).None? then None else Some(0 - ReadGroups(s[1..]).value)
  {
  }

  /** Plain digits are read as their value up to the limit. */
  lemma ReadGroupsOfDigits(d: string)
    requires |d| > 0 && AllDigits(d)
    ensures ReadGroups(d) == if |d| <= MaxStrDigits then Some(DigitsValue(d)) else None
  {
    assert DigitGroups(d);
    RemoveUnderscoresOfDigits(d);
  }

  lemma {:induction false} RemoveUnderscoresOfDigits(b: string)
    requires AllDigits(b)
    ensures RemoveUnderscores(b) == b
  {
    if |b| > 0 {
      RemoveUnderscoresOfDigits(b[1..]);
      assert b == [b[0]] + b[1..];
    }
  }

  lemma StripNoSpace(s: string)
    requires |s| > 0 && !IsSpace(s[0]) && !IsSpace(s[|s| - 1])
    ensures Strip(s) == s
  {
  }

  /** A plain string of ASCII digits is read by `int()` as its decimal value, unless it has
      more digits than the limit. */
  lemma PyIntOfDigits(s: string)
    requires |s| > 0 && AllDigits(s)
    ensures PyInt(s) == if |s| <= MaxStrDigits then Some(DigitsValue(s)) else None
  {
    StripNoSpace(s);
    assert !(s[0] == '+' || s[0] == '-');
    ReadGroupsOfDigits(s);
  }
}
