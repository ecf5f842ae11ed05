/** The field rules the five authentication forms share. Each rule is an
    else-if chain that yields at most one problem for its field; the
    regular expressions the source uses are stated here as predicates over the
    characters, each next to a plainer characterisation and a lemma that the
    two agree. */
module Validation {
  import opened Common
  import opened Text

  /** The kind of message a field shows; the source's Arabic texts differ
      from page to page but always fall into these kinds. */
  datatype Problem = Required | TooShort | BadFormat | Weak | Mismatch

  /** The keys of a form's `validationErrors` object. */
  datatype Field = Name | Email | Password | ConfirmPassword | Phone | Code | NewPassword

  type Errors = map<Field, Problem>

  /** The problem recorded under `f`, if any. */
  function Lookup(m: Errors, f: Field): Option<Problem> {
    if f in m then Some(m[f]) else None
  }

  /** The `errors` object a `validateForm` builds: a key for every field whose
      rule found a problem, and no other key. */
  function Collect(rules: map<Field, Option<Problem>>): (m: Errors)
    ensures forall g :: Lookup(m, g) == if g in rules then rules[g] else None
    ensures m == map[] <==> forall g :: g in rules ==> rules[g].None?
  {
    var m := map g | g in rules && rules[g].Some? :: rules[g].value;
    assert m == map[] <==> forall g :: g in rules ==> rules[g].None? by {
      if m == map[] {
        forall g | g in rules ensures rules[g].None? {
          assert g !in m;
        }
      } else {
        var g :| g in m;
        assert rules[g].Some?;
      }
    }
    m
  }

  // ---------------------------------------------------------------------
  // Email: /^[^\s@]+@[^\s@]+\.[^\s@]+$/

  /** `[^\s@]`. */
  predicate Plain(c: char) { !IsSpace(c) && c != '@' }

  predicate AllPlain(s: string) {
    forall i :: 0 <= i < |s| ==> Plain(s[i])
  }

  /** `s` splits as a plain run, `@` at `a`, a plain run, `.` at `k`, a plain run. */
  predicate EmailSplit(s: string, a: int, k: int) {
    && 0 < a && a + 1 < k && k + 1 < |s|
    && s[a] == '@' && s[k] == '.'
    && AllPlain(s[..a]) && AllPlain(s[a + 1..k]) && AllPlain(s[k + 1..])
  }

  /** The email pattern, read as the language it accepts (the pattern is
      anchored at both ends). */
  predicate EmailMatches(s: string) {
    exists a, k | 0 <= a < |s| && 0 <= k < |s| :: EmailSplit(s, a, k)
  }

  /** `@` occurs in `s` at `a` and nowhere else. */
  predicate OnlyAt(s: string, a: int) {
    0 <= a < |s| && s[a] == '@' && forall i :: 0 <= i < |s| && i != a ==> s[i] != '@'
  }

  /** The domain after the `@` at `a` has a `.` that is neither its first nor its last character. */
  predicate DotInside(s: string, a: int) {
    exists k | 0 <= a + 1 < k < |s| - 1 :: s[k] == '.'
  }

  /** What the pattern asks of an address in plain words: no whitespace, exactly
      one `@`, something before it, and a dot strictly inside the domain. */
  predicate EmailShape(s: string) {
    NoSpace(s) && exists a | 0 < a < |s| :: OnlyAt(s, a) && DotInside(s, a)
  }

  lemma MatchesGivesShape(s: string, a: int, k: int)
    requires EmailSplit(s, a, k)
    ensures EmailShape(s)
  {
    forall i | 0 <= i < |s| ensures !IsSpace(s[i]) && (i != a ==> s[i] != '@') {
      if i < a {
        assert s[i] == s[..a][i];
      } else if a < i < k {
        assert s[i] == s[a + 1..k][i - a - 1];
      } else if k < i {
        assert s[i] == s[k + 1..][i - k - 1];
      }
    }
    assert OnlyAt(s, a);
    assert DotInside(s, a) by { assert s[k] == '.'; }
  }

  lemma ShapeGivesMatches(s: string, a: int, k: int)
    requires NoSpace(s) && 0 < a && OnlyAt(s, a)
    requires a + 1 < k < |s| - 1 && s[k] == '.'
    ensures EmailMatches(s)
  {
    forall i | 0 <= i < |s| && i != a ensures Plain(s[i]) {
    }
    assert AllPlain(s[..a]);
    assert AllPlain(s[a + 1..k]);
    assert AllPlain(s[k + 1..]);
    assert EmailSplit(s, a, k);
  }

  /** The anchored email pattern accepts exactly the addresses of `EmailShape`. */
  lemma {:induction false} EmailMatchesIffShape(s: string)
    ensures EmailMatches(s) <==> EmailShape(s)
  {
    if EmailMatches(s) {
      var a, k :| 0 <= a < |s| && 0 <= k < |s| && EmailSplit(s, a, k);
      MatchesGivesShape(s, a, k);
    }
    if EmailShape(s) {
      var a :| 0 < a < |s| && OnlyAt(s, a) && DotInside(s, a);
      var k :| a + 1 < k < |s| - 1 && s[k] == '.';
      ShapeGivesMatches(s, a, k);
    }
  }

  /** The email rule of every form: blank after trimming is required, and
      anything else must match the pattern. */
  function EmailRule(s: string): (p: Option<Problem>)
    ensures IsBlank(s) ==> p == Some(Required)
    ensures !IsBlank(s) && !EmailShape(s) ==> p == Some(BadFormat)
    ensures p.None? <==> EmailShape(s)
  {
    EmailMatchesIffShape(s);
    if |Trim(s)| == 0 then
      assert !EmailShape(s) by {
        forall a | 0 < a < |s| ensures !OnlyAt(s, a) {
          assert IsSpace(s[a]);
        }
      }
      Some(Required)
    else if !EmailMatches(s) then Some(BadFormat)
    else None
  }

  // ---------------------------------------------------------------------
  // Six-digit codes: /^\d{6}$/

  predicate SixDigits(s: string) {
    |s| == 6 && forall i :: 0 <= i < |s| ==> IsDigit(s[i])
  }

  /** The code rule of the verification and reset forms. */
  function CodeRule(s: string): (p: Option<Problem>)
    ensures IsBlank(s) ==> p == Some(Required)
    ensures !IsBlank(s) && !SixDigits(s) ==> p == Some(BadFormat)
    ensures p.None? <==> SixDigits(s)
  {
    if |Trim(s)| == 0 then
      assert !SixDigits(s) by {
        if |s| == 6 { assert IsSpace(s[0]); }
      }
      Some(Required)
    else if !SixDigits(s) then Some(BadFormat)
    else None
  }

  // ---------------------------------------------------------------------
  // Password strength:
  // /(?=.*[a-z])(?=.*[A-Z])(?=.*\d)(?=.*[@$!%*?&])[A-Za-z\d@$!%*?&]/

  /** The four character classes the lookaheads demand. */
  datatype Class = LowerClass | UpperClass | DigitClass | SpecialClass

  predicate IsSpecial(c: char) {
    c == '@' || c == '$' || c == '!' || c == '%' || c == '*' || c == '?' || c == '&'
  }

  predicate InClass(c: char, k: Class) {
    match k
    case LowerClass => IsLower(c)
    case UpperClass => IsUpper(c)
    case DigitClass => IsDigit(c)
    case SpecialClass => IsSpecial(c)
  }

  /** `[A-Za-z\d@$!%*?&]`: a character of any of the four classes. */
  predicate Allowed(c: char) {
    IsLower(c) || IsUpper(c) || IsDigit(c) || IsSpecial(c)
  }

  /** `(?=.*[class])` at position `p`: a character of the class at some `j >= p`
      with no line terminator in between (`.` does not match one). */
  predicate LookaheadFinds(s: string, p: int, k: Class) {
    exists j | 0 <= p <= j < |s| :: InClass(s[j], k) && NoTerminatorBetween(s, p, j)
  }

  predicate NoTerminatorBetween(s: string, p: int, j: int)
    requires 0 <= p <= j <= |s|
  {
    forall i :: p <= i < j ==> !IsLineTerminator(s[i])
  }

  /** The whole pattern matches starting at `p`. */
  predicate StrengthMatchAt(s: string, p: int) {
    && 0 <= p < |s| && Allowed(s[p])
    && LookaheadFinds(s, p, LowerClass) && LookaheadFinds(s, p, UpperClass)
    && LookaheadFinds(s, p, DigitClass) && LookaheadFinds(s, p, SpecialClass)
  }

  /** `RegExp.prototype.test` with the unanchored pattern: a match starts somewhere. */
  predicate StrengthMatches(s: string) {
    exists p | 0 <= p < |s| :: StrengthMatchAt(s, p)
  }

  predicate HasClass(s: string, k: Class) {
    exists i | 0 <= i < |s| :: InClass(s[i], k)
  }

  /** The plain reading: a lower-case letter, an upper-case letter, a digit and
      one of `@$!%*?&` each occur somewhere; other characters are not refused. */
  predicate HasAllClasses(s: string) {
    HasClass(s, LowerClass) && HasClass(s, UpperClass) && HasClass(s, DigitClass) && HasClass(s, SpecialClass)
  }

  predicate NoLineTerminator(s: string) {
    forall i :: 0 <= i < |s| ==> !IsLineTerminator(s[i])
  }

  /** The index of the first allowed character, where a match starts if one does. */
  function FirstAllowed(s: string): (p: nat)
    ensures p <= |s|
    ensures forall i :: 0 <= i < p ==> !Allowed(s[i])
    ensures p < |s| ==> Allowed(s[p])
  {
    if |s| == 0 || Allowed(s[0]) then 0 else 1 + FirstAllowed(s[1..])
  }

  lemma MatchHasClasses(s: string, p: int)
    requires StrengthMatchAt(s, p)
    ensures HasAllClasses(s)
  {
    forall k ensures HasClass(s, k) {
      var j :| p <= j < |s| && InClass(s[j], k) && NoTerminatorBetween(s, p, j);
      assert InClass(s[j], k);
    }
  }

  lemma ClassesGiveMatch(s: string)
    requires NoLineTerminator(s) && HasAllClasses(s)
    ensures StrengthMatchAt(s, FirstAllowed(s))
  {
    var p := FirstAllowed(s);
    forall k ensures LookaheadFinds(s, p, k) {
      var j :| 0 <= j < |s| && InClass(s[j], k);
      assert Allowed(s[j]) by {
        match k
        case LowerClass =>
        case UpperClass =>
        case DigitClass =>
        case SpecialClass =>
      }
      assert p <= j;
      assert NoTerminatorBetween(s, p, j);
    }
  }

  /** A match always means the four classes occur; on a single line (no line
      terminator) the converse holds too, so the pattern accepts exactly the
      passwords that contain all four classes. */
  lemma {:induction false} StrengthMatchesIffClasses(s: string)
    ensures StrengthMatches(s) ==> HasAllClasses(s)
    ensures NoLineTerminator(s) ==> (StrengthMatches(s) <==> HasAllClasses(s))
  {
    if StrengthMatches(s) {
      var p :| 0 <= p < |s| && StrengthMatchAt(s, p);
      MatchHasClasses(s, p);
    }
    if NoLineTerminator(s) && HasAllClasses(s) {
      ClassesGiveMatch(s);
    }
  }

  /** Across a line break the lookaheads cannot see past it: this password has
      all four classes and nine characters, but the pattern finds no match. */
  lemma LineBreakDefeatsLookahead()
    ensures HasAllClasses("abcd\nAB1@") && |"abcd\nAB1@"| >= 8
    ensures !StrengthMatches("abcd\nAB1@")
  {
    var s := "abcd\nAB1@";
    assert InClass(s[0], LowerClass) && InClass(s[5], UpperClass);
    assert InClass(s[7], DigitClass) && InClass(s[8], SpecialClass);
    forall p | 0 <= p < |s| ensures !StrengthMatchAt(s, p) {
      if p <= 4 {
        assert !LookaheadFinds(s, p, UpperClass) by {
          forall j | p <= j < |s| && InClass(s[j], UpperClass) ensures !NoTerminatorBetween(s, p, j) {
            assert IsLineTerminator(s[4]);
          }
        }
      } else {
        assert !LookaheadFinds(s, p, LowerClass);
      }
    }
  }

  /** The password rule of registration and password reset. */
  function PasswordRule(s: string): (p: Option<Problem>)
    ensures s == "" ==> p == Some(Required)
    ensures 0 < |s| < 8 ==> p == Some(TooShort)
    ensures |s| >= 8 && !StrengthMatches(s) ==> p == Some(Weak)
    ensures p.None? <==> |s| >= 8 && StrengthMatches(s)
  {
    if s == "" then Some(Required)
    else if |s| < 8 then Some(TooShort)
    else if !StrengthMatches(s) then Some(Weak)
    else None
  }

  /** On a single line, the password rule accepts exactly the passwords of at
      least eight characters that contain all four classes. */
  lemma PasswordRuleOnOneLine(s: string)
    requires NoLineTerminator(s)
    ensures PasswordRule(s).None? <==> |s| >= 8 && HasAllClasses(s)
  {
    StrengthMatchesIffClasses(s);
  }

  /** The confirmation rule: required, then equal to the password; the password's
      own validity plays no part. */
  function ConfirmRule(password: string, confirm: string): (p: Option<Problem>)
    ensures confirm == "" ==> p == Some(Required)
    ensures confirm != "" && confirm != password ==> p == Some(Mismatch)
    ensures p.None? <==> confirm != "" && confirm == password
  {
    if confirm == "" then Some(Required)
    else if password != confirm then Some(Mismatch)
    else None
  }

  // ---------------------------------------------------------------------
  // Registration-only rules

  /** The name rule: blank after trimming is required, fewer than two
      characters after trimming is too short. */
  function NameRule(s: string): (p: Option<Problem>)
    ensures IsBlank(s) ==> p == Some(Required)
    ensures !IsBlank(s) && |Trim(s)| < 2 ==> p == Some(TooShort)
    ensures p.None? <==> |Trim(s)| >= 2
  {
    if |Trim(s)| == 0 then Some(Required)
    else if |Trim(s)| < 2 then Some(TooShort)
    else None
  }

  /** `[\d\s\-\(\)]`. */
  predicate PhoneChar(c: char) {
    IsDigit(c) || IsSpace(c) || c == '-' || c == '(' || c == ')'
  }

  /** `/^[\d\s\-\(\)]+$/`. */
  predicate PhoneMatches(s: string) {
    |s| > 0 && forall i :: 0 <= i < |s| ==> PhoneChar(s[i])
  }

  /** The phone rule: an empty phone is fine; otherwise every character must be
      a digit, whitespace, a hyphen or a parenthesis. */
  function PhoneRule(s: string): (p: Option<Problem>)
    ensures p.Some? ==> p.value == BadFormat
    ensures p.None? <==> forall i :: 0 <= i < |s| ==> PhoneChar(s[i])
  {
    if s != "" && !PhoneMatches(s) then Some(BadFormat) else None
  }

  /** The login form only asks that the password be non-empty. */
  function PresenceRule(s: string): (p: Option<Problem>)
    ensures p.Some? ==> p.value == Required
    ensures p.None? <==> |s| > 0
  {
    if s == "" then Some(Required) else None
  }
}
