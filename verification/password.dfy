/** The password-change page, frontend/src/app/impostazioni/password/page.tsx: the policy
    `validatePassword` and the order of the checks `handleSubmit` makes. The Supabase calls
    are reduced to their answers. */
module Password {
  import opened Wrappers
  import opened Strings

  /** `String.prototype.length`: UTF-16 code units, two for a character beyond U+FFFF. */
  function Utf16Length(s: string): nat {
    if |s| == 0 then 0 else (if s[0] as int > 0xFFFF then 2 else 1) + Utf16Length(s[1..])
  }

  predicate IsSpecial(c: char) {
    c == '!' || c == '@' || c == '#' || c == '$' || c == '%' || c == '^' || c == '&' || c == '*'
  }

  /** The policy's checks, in the order they run. */
  datatype Check = MinLength | HasUpper | HasLower | HasDigit | HasSpecial

  const Checks: seq<Check> := [MinLength, HasUpper, HasLower, HasDigit, HasSpecial]

  /** The regular expressions are character classes without the `u` or `i` flag, so they
      match ASCII letters and digits only. */
  predicate Passes(c: Check, p: string) {
    match c
    case MinLength => Utf16Length(p) >= 8
    case HasUpper => exists i :: 0 <= i < |p| && IsAsciiUpper(p[i])
    case HasLower => exists i :: 0 <= i < |p| && IsAsciiLower(p[i])
    case HasDigit => exists i :: 0 <= i < |p| && IsDigit(p[i])
    case HasSpecial => exists i :: 0 <= i < |p| && IsSpecial(p[i])
  }

  function MessageOf(c: Check): (m: string)
    ensures |m| > 0
  {
    match c
    case MinLength => "La password deve contenere almeno 8 caratteri"
    case HasUpper => "La password deve contenere almeno una lettera maiuscola"
    case HasLower => "La password deve contenere almeno una lettera minuscola"
    case HasDigit => "La password deve contenere almeno un numero"
    case HasSpecial => "La password deve contenere almeno un carattere speciale (!@#$%^&*)"
  }

  datatype Validation = Validation(isValid: bool, message: string)

  function ValidatePassword(p: string): Validation {
    if !Passes(MinLength, p) then Validation(false, MessageOf(MinLength))
    else if !Passes(HasUpper, p) then Validation(false, MessageOf(HasUpper))
    else if !Passes(HasLower, p) then Validation(false, MessageOf(HasLower))
    else if !Passes(HasDigit, p) then Validation(false, MessageOf(HasDigit))
    else if !Passes(HasSpecial, p) then Validation(false, MessageOf(HasSpecial))
    else Validation(true, "")
  }

  /** The first check of `cs` that `p` fails. */
  function FirstFailing(cs: seq<Check>, p: string): (r: Option<Check>)
    ensures r.None? <==> forall i :: 0 <= i < |cs| ==> Passes(cs[i], p)
    ensures r.Some? ==> exists k :: 0 <= k < |cs| && cs[k] == r.value && !Passes(cs[k], p)
                                  && forall i :: 0 <= i < k ==> Passes(cs[i], p)
  {
    if |cs| == 0 then None
    else if !Passes(cs[0], p) then Some(cs[0])
    else
      var r := FirstFailing(cs[1..], p);
      assert forall i :: 1 <= i < |cs| ==> cs[i] == cs[1..][i - 1];
      if r.Some? then
        var k :| 0 <= k < |cs[1..]| && cs[1..][k] == r.value && !Passes(cs[1..][k], p)
                 && forall i :: 0 <= i < k ==> Passes(cs[1..][i], p);
        assert cs[k + 1] == r.value;
        r
      else r
  }

  /** The message is that of the first failing check, in the fixed order; a valid result
      carries the empty message. */
  lemma FirstFailureReported(p: string)
    ensures ValidatePassword(p) ==
      match FirstFailing(Checks, p)
      case None => Validation(true, "")
      case Some(c) => Validation(false, MessageOf(c))
  {
    FirstFailingStep([MinLength, HasUpper, HasLower, HasDigit, HasSpecial], p);
    FirstFailingStep([HasUpper, HasLower, HasDigit, HasSpecial], p);
    FirstFailingStep([HasLower, HasDigit, HasSpecial], p);
    FirstFailingStep([HasDigit, HasSpecial], p);
    FirstFailingStep([HasSpecial], p);
  }

  lemma FirstFailingStep(cs: seq<Check>, p: string)
    requires |cs| > 0
    ensures FirstFailing(cs, p) == if !Passes(cs[0], p) then Some(cs[0]) else FirstFailing(cs[1..], p)
  {
  }

  /** Valid iff long enough with an ASCII upper-case letter, lower-case letter, digit and
      one of !@#$%^&*. */
  lemma ValidIff(p: string)
    ensures ValidatePassword(p).isValid <==>
      && Utf16Length(p) >= 8
      && (exists i :: 0 <= i < |p| && IsAsciiUpper(p[i]))
      && (exists i :: 0 <= i < |p| && IsAsciiLower(p[i]))
      && (exists i :: 0 <= i < |p| && IsDigit(p[i]))
      && (exists i :: 0 <= i < |p| && IsSpecial(p[i]))
  {
    assert ValidatePassword(p).isValid <==>
      Passes(MinLength, p) && Passes(HasUpper, p) && Passes(HasLower, p) && Passes(HasDigit, p) && Passes(HasSpecial, p);
  }

  /** The message is empty exactly when the password is valid. */
  lemma MessageEmptyIffValid(p: string)
    ensures ValidatePassword(p).message == "" <==> ValidatePassword(p).isValid
  {
  }

  /** Accented capitals do not satisfy the upper-case check: a long enough password whose
      capitals are all accented (À, È, ...) is refused with the upper-case message. */
  lemma AccentedCapitalsDoNotCount(p: string)
    requires Utf16Length(p) >= 8
    requires forall i :: 0 <= i < |p| ==> !IsAsciiUpper(p[i])
    ensures ValidatePassword(p) == Validation(false, MessageOf(HasUpper))
    ensures !IsAsciiUpper('À') && !IsAsciiUpper('È') && !IsAsciiLower('è') && !IsAsciiLower('à')
  {
    assert Passes(MinLength, p) && !Passes(HasUpper, p);
  }

  lemma {:induction false} Utf16LengthAppend(p: string, q: string)
    ensures Utf16Length(p + q) == Utf16Length(p) + Utf16Length(q)
  {
    if |p| > 0 {
      Utf16LengthAppend(p[1..], q);
      assert (p + q)[1..] == p[1..] + q;
    } else {
      assert p + q == q;
    }
  }

  /** Appending characters to a valid password keeps it valid. */
  lemma AppendKeepsValid(p: string, q: string)
    requires ValidatePassword(p).isValid
    ensures ValidatePassword(p + q).isValid
  {
    Utf16LengthAppend(p, q);
    ValidIff(p);
    ValidIff(p + q);
    var a :| 0 <= a < |p| && IsAsciiUpper(p[a]);
    var b :| 0 <= b < |p| && IsAsciiLower(p[b]);
    var c :| 0 <= c < |p| && IsDigit(p[c]);
    var d :| 0 <= d < |p| && IsSpecial(p[d]);
    assert (p + q)[a] == p[a] && (p + q)[b] == p[b] && (p + q)[c] == p[c] && (p + q)[d] == p[d];
  }

  /* ---------------- handleSubmit ---------------- */

  /** The toast a submission ends with; `Failed` is the generic "Errore" of the `catch`. */
  datatype Outcome = Failed | Invalid(message: string) | Mismatch | WrongCurrent | Changed

  /** The outcome and which Supabase calls were made: `signInWithPassword` to verify the
      current password, `updateUser` to change it. */
  datatype Submission = Submission(outcome: Outcome, verifiedCurrent: bool, updated: bool)

  /** `handleSubmit`, given whether the signed-in user has an e-mail, the two new-password
      fields and the answers of the two calls. */
  function HandleSubmit(hasEmail: bool, newPassword: string, confirm: string,
                        signInOk: bool, updateOk: bool): Submission
  {
    if !hasEmail then Submission(Failed, false, false)
    else
      var v := ValidatePassword(newPassword);
      if !v.isValid then Submission(Invalid(v.message), false, false)
      else if newPassword != confirm then Submission(Mismatch, false, false)
      else if !signInOk then Submission(WrongCurrent, true, false)
      else if !updateOk then Submission(Failed, true, true)
      else Submission(Changed, true, true)
  }

  /** `updateUser` is reached iff the user is known, the policy holds, the confirmation
      matches and the current password is verified; success needs the update too. */
  lemma UpdateOnlyAfterAllChecks(hasEmail: bool, np: string, cp: string, signInOk: bool, updateOk: bool)
    ensures var s := HandleSubmit(hasEmail, np, cp, signInOk, updateOk);
      && (s.updated <==> hasEmail && ValidatePassword(np).isValid && np == cp && signInOk)
      && (s.outcome == Changed <==> s.updated && updateOk)
      && (s.verifiedCurrent <==> hasEmail && ValidatePassword(np).isValid && np == cp)
  {
  }

  /** The policy is checked before the confirmation, which is checked before the current
      password: an earlier failure is reported whatever the later inputs are. */
  lemma ChecksInOrder(np: string, cp: string, cp2: string, signInOk: bool, signInOk2: bool, updateOk: bool)
    ensures !ValidatePassword(np).isValid ==>
      HandleSubmit(true, np, cp, signInOk, updateOk) == Submission(Invalid(ValidatePassword(np).message), false, false)
      == HandleSubmit(true, np, cp2, signInOk2, updateOk)
    ensures ValidatePassword(np).isValid && np != cp ==>
      HandleSubmit(true, np, cp, signInOk, updateOk) == Submission(Mismatch, false, false)
      == HandleSubmit(true, np, cp, signInOk2, updateOk)
  {
  }
}
