/** The range-slider filter of frontend/src/components/data-table/data-table-filter-slider.tsx:
    how the column's loosely typed filter value is read as a list of bounds, which bounds
    the inputs show, and what the min and max inputs store when edited. */
module FilterSlider {
  import opened Wrappers
  import opened Strings
  import opened JsValues
  import opened IsArray

  /* ---------------- Number.parseInt(text) || 0 ---------------- */

  /** JavaScript's StrWhiteSpaceChar: the ASCII blanks, no-break space, byte order mark,
      the Unicode space separators and the two line/paragraph separators. */
  predicate IsJsSpace(c: char) {
    || c == ' ' || c == '\t' || c == '\n' || c == '\U{B}' || c == '\U{C}' || c == '\r'
    || c == '\U{A0}' || c == '\U{FEFF}' || c == '\U{1680}' || ('\U{2000}' <= c <= '\U{200A}')
    || c == '\U{2028}' || c == '\U{2029}' || c == '\U{202F}' || c == '\U{205F}' || c == '\U{3000}'
  }

  function TrimStart(s: string): (r: string)
    ensures |r| <= |s| && (|r| > 0 ==> !IsJsSpace(r[0]))
    ensures r == s[|s| - |r|..]
  {
    if |s| > 0 && IsJsSpace(s[0]) then TrimStart(s[1..]) else s
  }

  /** What `TrimStart` removes is white space only. */
  lemma {:induction false} TrimStartSkipsBlanks(s: string)
    ensures forall i :: 0 <= i < |s| - |TrimStart(s)| ==> IsJsSpace(s[i])
  {
    if |s| > 0 && IsJsSpace(s[0]) {
      TrimStartSkipsBlanks(s[1..]);
      forall i | 0 <= i < |s| - |TrimStart(s)| ensures IsJsSpace(s[i]) {
        if i > 0 { assert s[i] == s[1..][i - 1]; }
      }
    }
  }

  predicate IsHexDigit(c: char) {
    IsDigit(c) || ('a' <= c <= 'f') || ('A' <= c <= 'F')
  }

  function HexDigitValue(c: char): nat
    requires IsHexDigit(c)
  {
    if IsDigit(c) then c as int - '0' as int
    else if 'a' <= c <= 'f' then c as int - 'a' as int + 10
    else c as int - 'A' as int + 10
  }

  /** The longest prefix of `s` whose characters satisfy the radix's digit test. */
  function DigitPrefix(s: string, hex: bool): (d: string)
    ensures |d| <= |s| && d == s[..|d|]
    ensures |d| < |s| ==> !(if hex then IsHexDigit(s[|d|]) else IsDigit(s[|d|]))
  {
    if |s| > 0 && (if hex then IsHexDigit(s[0]) else IsDigit(s[0])) then [s[0]] + DigitPrefix(s[1..], hex)
    else ""
  }

  /** Every character of the prefix passes the radix's digit test. */
  lemma {:induction false} DigitPrefixDigits(s: string, hex: bool)
    ensures hex ==> forall i :: 0 <= i < |DigitPrefix(s, hex)| ==> IsHexDigit(DigitPrefix(s, hex)[i])
    ensures !hex ==> AllDigits(DigitPrefix(s, hex))
  {
    if |s| > 0 && (if hex then IsHexDigit(s[0]) else IsDigit(s[0])) {
      DigitPrefixDigits(s[1..], hex);
      var d := DigitPrefix(s, hex);
      forall i | 0 <= i < |d| ensures if hex then IsHexDigit(d[i]) else IsDigit(d[i]) {
        if i > 0 { assert d[i] == DigitPrefix(s[1..], hex)[i - 1]; }
      }
    }
  }

  function HexValue(d: string): nat
    requires forall i :: 0 <= i < |d| ==> IsHexDigit(d[i])
  {
    if |d| == 0 then 0 else HexValue(d[..|d| - 1]) * 16 + HexDigitValue(d[|d| - 1])
  }

  /** The magnitude after the sign: radix 16 after a "0x" or "0X" prefix, radix 10
      otherwise; `None` (NaN) when no digit follows. */
  function UnsignedPrefixValue(t: string): Option<nat> {
    if |t| >= 2 && t[0] == '0' && (t[1] == 'x' || t[1] == 'X') then
      var d := DigitPrefix(t[2..], true);
      DigitPrefixDigits(t[2..], true);
      if |d| == 0 then None else Some(HexValue(d))
    else
      var d := DigitPrefix(t, false);
      DigitPrefixDigits(t, false);
      if |d| == 0 then None else Some(DigitsValue(d))
  }

  /** `Number.parseInt(s)` with no radix: leading white space, an optional sign, then the
      longest run of digits; trailing text is ignored. `None` stands for NaN. */
  function JsParseInt(s: string): Option<int> {
    var t := TrimStart(s);
    if |t| > 0 && (t[0] == '-' || t[0] == '+') then
      match UnsignedPrefixValue(t[1..])
      case None => None
      case Some(v) => Some(if t[0] == '-' then 0 - v else v)
    else
      match UnsignedPrefixValue(t)
      case None => None
      case Some(v) => Some(v)
  }

  /** `Number.parseInt(text) || 0`: NaN (and zero) read as 0. */
  function ParseIntOrZero(text: string): int {
    match JsParseInt(text)
    case None => 0
    case Some(v) => v
  }

  lemma {:induction false} DigitPrefixOfDigits(d: string, rest: string)
    requires AllDigits(d)
    requires |rest| == 0 || !IsDigit(rest[0])
    ensures DigitPrefix(d + rest, false) == d
  {
    if |d| > 0 {
      DigitPrefixOfDigits(d[1..], rest);
      assert (d + rest)[1..] == d[1..] + rest;
      assert d == [d[0]] + d[1..];
    } else {
      assert d + rest == rest;
    }
  }

  /** A run of decimal digits followed by a non-digit reads back as its value. */
  lemma UnsignedOfDigits(d: string, rest: string)
    requires |d| > 0 && AllDigits(d)
    requires |rest| == 0 || (!IsDigit(rest[0]) && rest[0] != 'x' && rest[0] != 'X')
    ensures UnsignedPrefixValue(d + rest) == Some(DigitsValue(d))
  {
    DigitPrefixOfDigits(d, rest);
    var t := d + rest;
    assert !(|t| >= 2 && t[0] == '0' && (t[1] == 'x' || t[1] == 'X')) by {
      if |d| == 1 {
        if |t| >= 2 { assert t[1] == rest[0]; }
      } else {
        assert t[1] == d[1];
      }
    }
  }

  /** A number rendered as decimal text, possibly followed by a fraction or exponent, is
      read back as that number: the slider's inputs hold what they display. */
  lemma ParseIntOfDecimal(n: int, rest: string)
    requires |rest| == 0 || (!IsDigit(rest[0]) && rest[0] != 'x' && rest[0] != 'X')
    ensures ParseIntOrZero(IntToDecimal(n) + rest) == n
  {
    var m := if n < 0 then -n else n;
    var d := NatToDecimal(m);
    NatToDecimalValue(m);
    var s := IntToDecimal(n) + rest;
    if n < 0 {
      UnsignedOfDigits(d, rest);
      assert s == "-" + (d + rest);
      ReadNegative(s, d + rest, m);
    } else {
      assert s == d + rest;
      ParseNatural(d, rest);
      ReadAsNumber(s, n);
    }
  }

  lemma ReadAsNumber(s: string, v: int)
    requires JsParseInt(s) == Some(v)
    ensures ParseIntOrZero(s) == v
  {
  }

  lemma ParseNatural(d: string, rest: string)
    requires |d| > 0 && AllDigits(d)
    requires |rest| == 0 || (!IsDigit(rest[0]) && rest[0] != 'x' && rest[0] != 'X')
    ensures JsParseInt(d + rest) == Some(DigitsValue(d))
  {
    var s := d + rest;
    UnsignedOfDigits(d, rest);
    assert s[0] == d[0];
    ParseUnsigned(s, DigitsValue(d));
  }

  /** Text starting with a digit is read as its unsigned prefix. */
  lemma ParseUnsigned(s: string, v: nat)
    requires |s| > 0 && IsDigit(s[0]) && UnsignedPrefixValue(s) == Some(v)
    ensures JsParseInt(s) == Some(v)
  {
    NoLeadingSpace(s);
  }

  /** Text starting with '-' is read as the negated unsigned prefix after it. */
  lemma ParseSigned(u: string, v: nat)
    requires UnsignedPrefixValue(u) == Some(v)
    ensures JsParseInt("-" + u) == Some(0 - v)
  {
    var s := "-" + u;
    assert s[0] == '-' && s[1..] == u;
    NoLeadingSpace(s);
  }

  /** A minus sign before an unsigned prefix is read as its negation, stated over abstract
      text so that nothing about the digits' own shape is in scope. */
  lemma ReadNegative(s: string, u: string, v: nat)
    requires s == "-" + u && UnsignedPrefixValue(u) == Some(v)
    ensures ParseIntOrZero(s) == 0 - v
  {
    ParseSigned(u, v);
  }

  lemma NoLeadingSpace(s: string)
    requires |s| > 0 && (s[0] == '-' || IsDigit(s[0]))
    ensures TrimStart(s) == s
  {
    assert !IsJsSpace(s[0]);
  }

  /** Text with no digit after the blanks and sign (an empty input among it) reads as 0. */
  lemma NonNumericIsZero(s: string)
    requires var t := TrimStart(s); |t| == 0 || (!IsDigit(t[0]) && t[0] != '-' && t[0] != '+')
    ensures ParseIntOrZero(s) == 0
  {
  }

  /* ---------------- reading the filter value ---------------- */

  function NumbersOf(items: seq<JsValue>): (xs: seq<int>)
    requires forall i :: 0 <= i < |items| ==> items[i].Num?
    ensures |xs| == |items| && forall i :: 0 <= i < |items| ==> xs[i] == items[i].n
  {
    if |items| == 0 then [] else [items[0].n] + NumbersOf(items[1..])
  }

  /** The `filters` constant: a number is read as `[v, v]`, a number array of one element
      `[a]` as `[a, a]`, another number array as itself, anything else as no filter. */
  function ReadFilter(fv: JsValue): Option<seq<int>> {
    if fv.Num? then Some([fv.n, fv.n])
    else if fv.Arr? && IsArrayOfNumbers(fv) then
      GuardsMeaning(fv);
      var xs := NumbersOf(fv.items);
      if |xs| == 1 then Some([xs[0], xs[0]]) else Some(xs)
    else None
  }

  /** `filters?.[0] ?? min`, the text shown in the min input. */
  function ShownMin(filters: Option<seq<int>>, min: int): int {
    if filters.Some? && |filters.value| > 0 then filters.value[0] else min
  }

  /** `filters?.[1] ?? max`, the text shown in the max input. */
  function ShownMax(filters: Option<seq<int>>, max: int): int {
    if filters.Some? && |filters.value| > 1 then filters.value[1] else max
  }

  /** `filters || [min, max]`, the slider's thumbs; an array is truthy even when empty. */
  function SliderValue(filters: Option<seq<int>>, min: int, max: int): seq<int> {
    if filters.Some? then filters.value else [min, max]
  }

  /** A scalar `v` and a one-element array `[a]` read as the degenerate ranges `[v, v]`
      and `[a, a]`. */
  lemma DegenerateRanges(v: int, a: int)
    ensures ReadFilter(Num(v)) == Some([v, v])
    ensures ReadFilter(Arr([Num(a)])) == Some([a, a])
  {
    GuardsMeaning(Arr([Num(a)]));
  }

  /** A number array of any other length is read unchanged. */
  lemma NumberArrayPassesThrough(items: seq<JsValue>)
    requires |items| != 1 && forall i :: 0 <= i < |items| ==> items[i].Num?
    ensures var r := ReadFilter(Arr(items));
      r.Some? && |r.value| == |items| && forall i :: 0 <= i < |items| ==> r.value[i] == items[i].n
  {
    GuardsMeaning(Arr(items));
  }

  /** Any other value is no filter, and every bound shown falls back to `[min, max]`. */
  lemma OtherValuesShowDefaults(fv: JsValue, min: int, max: int)
    requires !fv.Num? && !(fv.Arr? && forall i :: 0 <= i < |fv.items| ==> fv.items[i].Num?)
    ensures ReadFilter(fv) == None
    ensures ShownMin(ReadFilter(fv), min) == min && ShownMax(ReadFilter(fv), max) == max
    ensures SliderValue(ReadFilter(fv), min, max) == [min, max]
  {
    GuardsMeaning(fv);
  }

  /** The empty number array is a filter with no bounds: the inputs fall back to min and
      max, but the slider is handed the empty list rather than `[min, max]`. */
  lemma EmptyArrayFilter(min: int, max: int)
    ensures ReadFilter(Arr([])) == Some([])
    ensures ShownMin(Some([]), min) == min && ShownMax(Some([]), max) == max
    ensures SliderValue(ReadFilter(Arr([])), min, max) == []
  {
    GuardsMeaning(Arr([]));
  }

  /* ---------------- editing the inputs ---------------- */

  /** The min input's `onChange`: `[val, upper]` when a filter exists and `val` is below its
      upper bound, `[val, max]` otherwise (an upper bound that is `undefined` compares false). */
  function OnMinEdit(filters: Option<seq<int>>, text: string, max: int): (r: seq<int>)
    ensures |r| == 2 && r[0] == ParseIntOrZero(text)
    ensures filters.Some? && |filters.value| > 1 && r[0] < filters.value[1] ==> r[1] == filters.value[1]
    ensures !(filters.Some? && |filters.value| > 1 && r[0] < filters.value[1]) ==> r[1] == max
  {
    var v := ParseIntOrZero(text);
    if filters.Some? && |filters.value| > 1 && v < filters.value[1] then [v, filters.value[1]]
    else [v, max]
  }

  /** The max input's `onChange`: `[lower, val]` when a filter exists and `val` is above its
      lower bound, `[min, val]` otherwise. */
  function OnMaxEdit(filters: Option<seq<int>>, text: string, min: int): (r: seq<int>)
    ensures |r| == 2 && r[1] == ParseIntOrZero(text)
    ensures filters.Some? && |filters.value| > 0 && r[1] > filters.value[0] ==> r[0] == filters.value[0]
    ensures !(filters.Some? && |filters.value| > 0 && r[1] > filters.value[0]) ==> r[0] == min
  {
    var v := ParseIntOrZero(text);
    if filters.Some? && |filters.value| > 0 && v > filters.value[0] then [filters.value[0], v]
    else [min, v]
  }

  /** Typing keeps the other bound of an existing range exactly when the new bound stays on
      its side. */
  lemma EditsKeepOtherBound(lo: int, hi: int, text: string, min: int, max: int)
    ensures OnMinEdit(Some([lo, hi]), text, max) ==
      (if ParseIntOrZero(text) < hi then [ParseIntOrZero(text), hi] else [ParseIntOrZero(text), max])
    ensures OnMaxEdit(Some([lo, hi]), text, min) ==
      (if ParseIntOrZero(text) > lo then [lo, ParseIntOrZero(text)] else [min, ParseIntOrZero(text)])
  {
  }

  /** Neither input clamps into `[min, max]`: any typed number is stored as it is, even one
      beyond the slider's range, and a min above max yields a reversed range. */
  lemma EditsAreNotClamped(n: int, min: int, max: int)
    requires n > max
    ensures OnMinEdit(None, IntToDecimal(n), max) == [n, max]
    ensures OnMaxEdit(None, IntToDecimal(n), min) == [min, n]
  {
    ParseIntOfDecimal(n, "");
    assert IntToDecimal(n) + "" == IntToDecimal(n);
  }

  /** Non-numeric text stores 0 as the edited bound. */
  lemma NonNumericEditStoresZero(filters: Option<seq<int>>, text: string, min: int, max: int)
    requires var t := TrimStart(text); |t| == 0 || (!IsDigit(t[0]) && t[0] != '-' && t[0] != '+')
    ensures OnMinEdit(filters, text, max)[0] == 0
    ensures OnMaxEdit(filters, text, min)[1] == 0
  {
    NonNumericIsZero(text);
  }
}
