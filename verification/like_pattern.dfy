/** The text filters of the list endpoint (backend/app/api/cv.py): a search term is escaped
    and wrapped in `%...%`, and the storage layer evaluates it with PostgreSQL's ILIKE.
    This module gives LIKE its meaning, models the escaping as written, and proves what the
    escaping does and does not guarantee. */
module LikePattern {
  import opened Strings

  /** PostgreSQL LIKE with the default escape character '\': `%` matches any run of
      characters, `_` any single character, `\x` the character x itself, and every other
      pattern character itself; the whole string must be matched. A pattern ending in a
      lone '\' matches nothing (PostgreSQL rejects such a pattern; the patterns built by
      the list endpoint end in '%', so they never end that way). */
  predicate Like(p: string, s: string)
    decreases |p| + |s|
  {
    if |p| == 0 then |s| == 0
    else if p[0] == '%' then Like(p[1..], s) || (|s| > 0 && Like(p, s[1..]))
    else if p[0] == '_' then |s| > 0 && Like(p[1..], s[1..])
    else if p[0] == '\\' then |p| >= 2 && |s| > 0 && s[0] == p[1] && Like(p[2..], s[1..])
    else |s| > 0 && s[0] == p[0] && Like(p[1..], s[1..])
  }

  /** `value ILIKE pattern`: LIKE after case folding both sides. */
  predicate ILike(value: string, pattern: string) {
    Like(Lower(pattern), Lower(value))
  }

  /** The escaping of cv.py:54 (and 62, 65, 68): `term.replace('%', r'\%').replace('_', r'\_')`. */
  function EscapeWildcards(term: string): string {
    Replace(Replace(term, '%', "\\%"), '_', "\\_")
  }

  /** The pattern handed to `ilike`: the escaped term between two `%`. */
  function Wrapped(escaped: string): string {
    "%" + escaped + "%"
  }

  /* ---------------- single-pass escaping ---------------- */

  /** Each character of `special` prefixed by '\', in one pass. */
  function EscapeEach(t: string, special: set<char>): string {
    if |t| == 0 then "" else (if t[0] in special then ['\\', t[0]] else [t[0]]) + EscapeEach(t[1..], special)
  }

  const Wildcards: set<char> := {'%', '_'}
  const LikeMeta: set<char> := {'%', '_', '\\'}

  lemma {:induction false} EscapeEachAppend(a: string, b: string, special: set<char>)
    ensures EscapeEach(a + b, special) == EscapeEach(a, special) + EscapeEach(b, special)
  {
    if |a| > 0 {
      assert (a + b)[1..] == a[1..] + b;
      EscapeEachAppend(a[1..], b, special);
    } else {
      assert a + b == b;
    }
  }

  /** The two chained `replace` calls act as one pass over the term: the first never
      introduces an '_' for the second to rewrite. */
  lemma {:induction false} EscapeWildcardsOnePass(t: string)
    ensures EscapeWildcards(t) == EscapeEach(t, Wildcards)
  {
    if |t| > 0 {
      EscapeWildcardsOnePass(t[1..]);
      var head := if t[0] == '%' then "\\%" else [t[0]];
      assert Replace(t, '%', "\\%") == head + Replace(t[1..], '%', "\\%");
      ReplaceAppend(head, Replace(t[1..], '%', "\\%"), '_', "\\_");
      if t[0] == '%' {
        ReplaceAbsent(head, '_', "\\_");
      } else {
        assert Replace(head, '_', "\\_") == (if t[0] == '_' then "\\_" else [t[0]]) + Replace("", '_', "\\_");
      }
    }
  }

  /** Every character of `r` from `special` has a backslash right before it. */
  predicate SpecialsPreceded(r: string, special: set<char>) {
    forall i :: 0 <= i < |r| && r[i] in special ==> i > 0 && r[i - 1] == '\\'
  }

  /** In an escaped term every `%` and `_` is preceded by a backslash. */
  lemma {:induction false} EscapedWildcardsArePreceded(t: string)
    ensures var r := EscapeWildcards(t);
      forall i :: 0 <= i < |r| && r[i] in Wildcards ==> i > 0 && r[i - 1] == '\\'
  {
    EscapeWildcardsOnePass(t);
    EscapeEachPreceded(t, Wildcards);
  }

  lemma {:induction false} EscapeEachPreceded(t: string, special: set<char>)
    requires '\\' !in special
    ensures SpecialsPreceded(EscapeEach(t, special), special)
  {
    if |t| > 0 {
      EscapeEachPreceded(t[1..], special);
      var head := if t[0] in special then ['\\', t[0]] else [t[0]];
      var tail := EscapeEach(t[1..], special);
      assert SpecialsPreceded(head, special) by {
        if t[0] in special { assert head[0] == '\\' && head[1] == t[0]; }
      }
      if |tail| > 0 {
        EscapeEachHead(t[1..], special);
      }
      PrecededConcat(head, tail, special);
      assert EscapeEach(t, special) == head + tail;
    }
  }

  /** Two runs with preceded specials join into one, when the second does not open with
      a special that would need the first's last character. */
  lemma PrecededConcat(a: string, b: string, special: set<char>)
    requires SpecialsPreceded(a, special) && SpecialsPreceded(b, special)
    requires |b| > 0 ==> b[0] !in special
    ensures SpecialsPreceded(a + b, special)
  {
    var r := a + b;
    forall i | 0 <= i < |r| && r[i] in special ensures i > 0 && r[i - 1] == '\\' {
      if i < |a| {
        assert r[i] == a[i];
        if i > 0 { assert r[i - 1] == a[i - 1]; }
      } else {
        assert r[i] == b[i - |a|];
        assert r[i - 1] == b[i - |a| - 1];
      }
    }
  }

  /** A term without `%` or `_` is passed through unchanged. */
  lemma EscapeWildcardsIdentity(t: string)
    requires '%' !in t && '_' !in t
    ensures EscapeWildcards(t) == t
  {
    ReplaceAbsent(t, '%', "\\%");
    ReplaceAbsent(t, '_', "\\_");
  }

  /** Removes the backslash in front of every `%` and `_`. */
  function UnescapeWildcards(r: string): string
    decreases |r|
  {
    if |r| == 0 then ""
    else if |r| >= 2 && r[0] == '\\' && r[1] in Wildcards then [r[1]] + UnescapeWildcards(r[2..])
    else [r[0]] + UnescapeWildcards(r[1..])
  }

  lemma EscapeEachHead(t: string, special: set<char>)
    requires |EscapeEach(t, special)| > 0
    ensures EscapeEach(t, special)[0] == '\\' || EscapeEach(t, special)[0] !in special
  {
  }

  /** The escaping loses nothing: removing the inserted backslashes restores the term. */
  lemma {:induction false} UnescapeEscape(t: string)
    ensures UnescapeWildcards(EscapeWildcards(t)) == t
  {
    EscapeWildcardsOnePass(t);
    UnescapeEscapeEach(t);
  }

  lemma {:induction false} UnescapeEscapeEach(t: string)
    ensures UnescapeWildcards(EscapeEach(t, Wildcards)) == t
  {
    if |t| > 0 {
      UnescapeEscapeEach(t[1..]);
      var tail := EscapeEach(t[1..], Wildcards);
      var r := EscapeEach(t, Wildcards);
      if t[0] in Wildcards {
        assert r == ['\\', t[0]] + tail;
        assert r[2..] == tail;
      } else {
        assert r == [t[0]] + tail;
        assert r[1..] == tail;
        if |tail| > 0 { EscapeEachHead(t[1..], Wildcards); }
      }
      assert t == [t[0]] + t[1..];
    }
  }

  /* ---------------- what a wrapped pattern matches ---------------- */

  lemma {:induction false} LikePercentMatchesAll(s: string)
    ensures Like("%", s)
    decreases |s|
  {
    if |s| > 0 { LikePercentMatchesAll(s[1..]); }
  }

  /** A leading `%` lets the rest of the pattern match any suffix. */
  lemma {:induction false} LikeLeadingPercent(q: string, s: string)
    ensures Like("%" + q, s) <==> exists k :: 0 <= k <= |s| && Like(q, s[k..])
    decreases |s|
  {
    var p := "%" + q;
    assert p[1..] == q;
    if |s| == 0 {
      assert s[0..] == s;
    } else {
      LikeLeadingPercent(q, s[1..]);
      if Like(p, s) {
        if Like(q, s) {
          assert s[0..] == s;
        } else {
          assert Like(p, s[1..]);
          var k :| 0 <= k <= |s[1..]| && Like(q, s[1..][k..]);
          assert s[1..][k..] == s[k + 1..];
          assert Like(q, s[k + 1..]);
        }
      }
      if exists k :: 0 <= k <= |s| && Like(q, s[k..]) {
        var k :| 0 <= k <= |s| && Like(q, s[k..]);
        if k > 0 {
          assert s[1..][k - 1..] == s[k..];
          assert Like(p, s[1..]);
        } else {
          assert s[0..] == s;
          assert Like(p[1..], s);
        }
        assert Like(p, s);
      }
    }
  }

  /** A fully escaped term followed by `q` matches exactly the strings that start with the
      term and continue with something `q` matches. */
  lemma {:induction false} LikeEscapedPrefix(t: string, q: string, s: string)
    ensures Like(EscapeEach(t, LikeMeta) + q, s) <==> |t| <= |s| && s[..|t|] == t && Like(q, s[|t|..])
  {
    var e := EscapeEach(t, LikeMeta);
    if |t| == 0 {
      assert e + q == q;
      assert s[0..] == s;
    } else {
      LikeEscapedPrefix(t[1..], q, if |s| > 0 then s[1..] else s);
      var rest := EscapeEach(t[1..], LikeMeta) + q;
      var p := e + q;
      if t[0] in LikeMeta {
        assert p == ['\\', t[0]] + rest;
        assert p[0] == '\\' && p[1] == t[0] && p[2..] == rest;
      } else {
        assert p == [t[0]] + rest;
        assert p[0] == t[0] && p[1..] == rest;
      }
      if |s| > 0 {
        if |t| <= |s| {
          assert s[1..][..|t| - 1] == s[1..|t|];
          assert s[..|t|] == [s[0]] + s[1..|t|];
          assert s[1..][|t| - 1..] == s[|t|..];
          assert t == [t[0]] + t[1..];
        }
      }
    }
  }

  /** With every LIKE metacharacter escaped, the wrapped pattern matches exactly the strings
      that contain the term. */
  lemma LikeWrappedContains(t: string, s: string)
    ensures Like(Wrapped(EscapeEach(t, LikeMeta)), s) <==> Contains(s, t)
  {
    var e := EscapeEach(t, LikeMeta);
    assert Wrapped(e) == "%" + (e + "%");
    LikeLeadingPercent(e + "%", s);
    if Like(Wrapped(e), s) {
      var k :| 0 <= k <= |s| && Like(e + "%", s[k..]);
      LikeEscapedPrefix(t, "%", s[k..]);
      assert s[k..][..|t|] == s[k..k + |t|];
      assert OccursAt(s, t, k);
    }
    if Contains(s, t) {
      var k :| 0 <= k <= |s| - |t| && OccursAt(s, t, k);
      LikeEscapedPrefix(t, "%", s[k..]);
      assert s[k..][..|t|] == s[k..k + |t|];
      LikePercentMatchesAll(s[k..][|t|..]);
    }
  }

  /* ---------------- case folding ---------------- */

  lemma {:induction false} LowerEscapeEach(t: string, special: set<char>)
    requires forall c :: c in special ==> LowerChar(c) == c
    requires forall c :: c !in special ==> LowerChar(c) !in special
    ensures Lower(EscapeEach(t, special)) == EscapeEach(Lower(t), special)
  {
    if |t| > 0 {
      LowerEscapeEach(t[1..], special);
      var head := if t[0] in special then ['\\', t[0]] else [t[0]];
      LowerAppend(head, EscapeEach(t[1..], special));
      assert Lower(t)[1..] == Lower(t[1..]);
      assert Lower(['\\', t[0]]) == ['\\', LowerChar(t[0])];
    }
  }

  lemma LikeMetaFolding()
    ensures forall c :: c in LikeMeta ==> LowerChar(c) == c
    ensures forall c :: c !in LikeMeta ==> LowerChar(c) !in LikeMeta
  {
  }

  lemma {:induction false} EscapeEachWithoutBackslash(t: string)
    requires '\\' !in t
    ensures EscapeEach(t, Wildcards) == EscapeEach(t, LikeMeta)
  {
    if |t| > 0 {
      assert t[0] != '\\';
      assert '\\' !in t[1..];
      EscapeEachWithoutBackslash(t[1..]);
    }
  }

  /** ILIKE against a wrapped, fully escaped term is a case-insensitive substring test. */
  lemma ILikeWrappedContains(t: string, value: string)
    ensures ILike(value, Wrapped(EscapeEach(t, LikeMeta))) <==> Contains(Lower(value), Lower(t))
  {
    var e := EscapeEach(t, LikeMeta);
    LikeMetaFolding();
    LowerEscapeEach(t, LikeMeta);
    LowerAppend("%" + e, "%");
    LowerAppend("%", e);
    assert Lower(Wrapped(e)) == Wrapped(EscapeEach(Lower(t), LikeMeta));
    LikeWrappedContains(Lower(t), Lower(value));
  }

  /** For a term without a backslash the escaping as written does what it is for: the text
      filter keeps exactly the values that contain the term, ignoring ASCII case. */
  lemma TextFilterIsSubstringSearch(t: string, value: string)
    requires '\\' !in t
    ensures ILike(value, Wrapped(EscapeWildcards(t))) <==> Contains(Lower(value), Lower(t))
  {
    EscapeWildcardsOnePass(t);
    EscapeEachWithoutBackslash(t);
    ILikeWrappedContains(t, value);
  }

  /** As written, a backslash in the term is left unescaped and becomes LIKE's escape
      character: searching for `a\b` finds the value `ab`, which does not contain it. */
  lemma BackslashTermMatchesWithoutOccurrence(a: char, b: char)
    requires IsAsciiLower(a) && IsAsciiLower(b)
    ensures ILike([a, b], Wrapped(EscapeWildcards([a, '\\', b])))
    ensures !Contains(Lower([a, b]), Lower([a, '\\', b]))
  {
    var t := [a, '\\', b];
    ReplaceAbsent(t, '%', "\\%");
    ReplaceAbsent(t, '_', "\\_");
    var p := Wrapped(t);
    assert p == ['%', a, '\\', b, '%'];
    assert Lower(p) == p;
    assert Lower([a, b]) == [a, b];
    assert Like(p[4..], []);
    assert Like(p[2..], [b]);
    assert Like(p[1..], [a, b]);
  }

  /** As written, a term ending in a backslash escapes the closing `%`: searching for `a\`
      misses the value `a\`, which contains the term, and finds `a%`, which does not. */
  lemma TrailingBackslashEscapesClosingPercent(a: char)
    requires IsAsciiLower(a)
    ensures EscapeWildcards([a, '\\']) == [a, '\\']
    ensures Contains(Lower([a, '\\']), Lower([a, '\\'])) && !ILike([a, '\\'], Wrapped(EscapeWildcards([a, '\\'])))
    ensures !Contains(Lower([a, '%']), Lower([a, '\\'])) && ILike([a, '%'], Wrapped(EscapeWildcards([a, '\\'])))
  {
    var t := [a, '\\'];
    ReplaceAbsent(t, '%', "\\%");
    ReplaceAbsent(t, '_', "\\_");
    var p := Wrapped(t);
    assert p == ['%', a, '\\', '%'];
    assert Lower(p) == p;
    assert Lower(t) == t && Lower([a, '%']) == [a, '%'];
    assert OccursAt(t, t, 0);
    assert !Like(p[2..], ['\\']);
    assert !Like(p[1..], t);
    assert !Like(p[1..], ['\\']) && !Like(p[1..], []);
    assert !Like(p, []);
    assert !Like(p, ['\\']);
    assert !Like(p, t);
    assert Like(p[2..], ['%']);
    assert Like(p[1..], [a, '%']);
    assert !OccursAt([a, '%'], t, 0);
  }

  /** The escaping the text filters evidently intend: the backslash is escaped first, so
      that no character of the term keeps a LIKE meaning. */
  function EscapeLikeTerm(term: string): string {
    Replace(Replace(Replace(term, '\\', "\\\\"), '%', "\\%"), '_', "\\_")
  }

  lemma {:induction false} EscapeLikeTermOnePass(t: string)
    ensures EscapeLikeTerm(t) == EscapeEach(t, LikeMeta)
  {
    if |t| > 0 {
      EscapeLikeTermOnePass(t[1..]);
      var r1 := Replace(t[1..], '\\', "\\\\");
      var r2 := Replace(r1, '%', "\\%");
      var h1 := if t[0] == '\\' then "\\\\" else [t[0]];
      assert Replace(t, '\\', "\\\\") == h1 + r1;
      ReplaceAppend(h1, r1, '%', "\\%");
      var h2 := Replace(h1, '%', "\\%");
      assert h2 == (if t[0] == '%' then "\\%" else h1) by {
        if t[0] == '\\' {
          ReplaceAbsent(h1, '%', "\\%");
        } else {
          assert Replace(h1, '%', "\\%") == (if t[0] == '%' then "\\%" else [t[0]]) + Replace("", '%', "\\%");
        }
      }
      ReplaceAppend(h2, r2, '_', "\\_");
      var h3 := Replace(h2, '_', "\\_");
      assert h3 == (if t[0] in LikeMeta then ['\\', t[0]] else [t[0]]) by {
        if t[0] == '\\' || t[0] == '%' {
          ReplaceAbsent(h2, '_', "\\_");
        } else {
          assert Replace(h2, '_', "\\_") == (if t[0] == '_' then "\\_" else [t[0]]) + Replace("", '_', "\\_");
        }
      }
    }
  }

  /** With the backslash escaped too, the text filter is a case-insensitive substring test
      for every term. */
  lemma EscapedTermFilterIsSubstringSearch(t: string, value: string)
    ensures ILike(value, Wrapped(EscapeLikeTerm(t))) <==> Contains(Lower(value), Lower(t))
  {
    EscapeLikeTermOnePass(t);
    ILikeWrappedContains(t, value);
  }

  /** With the corrected escaping both `%` of the wrapped pattern stay wildcards, whatever
      the term ends in: a value the filter keeps is still kept with any text around it. */
  lemma CorrectedPatternEndsInWildcard(t: string, value: string, before: string, after: string)
    ensures ILike(value, Wrapped(EscapeLikeTerm(t))) ==> ILike(before + value + after, Wrapped(EscapeLikeTerm(t)))
  {
    EscapedTermFilterIsSubstringSearch(t, value);
    EscapedTermFilterIsSubstringSearch(t, before + value + after);
    LowerAppend(before + value, after);
    LowerAppend(before, value);
    if Contains(Lower(value), Lower(t)) {
      var lv, lt := Lower(value), Lower(t);
      var k :| 0 <= k <= |lv| - |lt| && OccursAt(lv, lt, k);
      var w := Lower(before) + lv + Lower(after);
      var j := |Lower(before)| + k;
      assert w[j..j + |lt|] == lv[k..k + |lt|];
      assert OccursAt(w, lt, j);
    }
  }
}
