/** The two format checks of the auth controller, `isValidName` and
    `isValidEmail`, which test a string against a regular expression. */
module AuthValidation {
  import opened Outcomes
  import opened JsValues

  predicate IsAsciiLetter(c: char)
  {
    'a' <= c <= 'z' || 'A' <= c <= 'Z'
  }

  /** `/^[a-zA-Z\s]+$/.test(name)`. */
  predicate IsValidName(name: string)
  {
    |name| >= 1 && forall i | 0 <= i < |name| :: IsAsciiLetter(name[i]) || IsJsWhitespace(name[i])
  }

  /** `[a-zA-Z0-9._%+-]`: a character of the part before '@'. */
  predicate IsLocalChar(c: char)
  {
    IsAsciiLetter(c) || IsDecimalDigit(c) || c in {'.', '_', '%', '+', '-'}
  }

  /** `[a-zA-Z0-9.-]`: a character of the domain. */
  predicate IsDomainChar(c: char)
  {
    IsAsciiLetter(c) || IsDecimalDigit(c) || c in {'.', '-'}
  }

  predicate IsLocalPart(s: string)
  {
    |s| >= 1 && forall i | 0 <= i < |s| :: IsLocalChar(s[i])
  }

  predicate IsDomainPart(s: string)
  {
    |s| >= 1 && forall i | 0 <= i < |s| :: IsDomainChar(s[i])
  }

  /** `[a-zA-Z]{2,}` */
  predicate IsTopLevelPart(s: string)
  {
    |s| >= 2 && forall i | 0 <= i < |s| :: IsAsciiLetter(s[i])
  }

  /** `s` splits at '@' position `at` and '.' position `dot` into the
      three parts of `/^[a-zA-Z0-9._%+-]+@[a-zA-Z0-9.-]+\.[a-zA-Z]{2,}$/`. */
  predicate EmailSplit(s: string, at: nat, dot: nat)
  {
    && 0 < at < dot < |s|
    && s[at] == '@' && s[dot] == '.'
    && IsLocalPart(s[..at]) && IsDomainPart(s[at + 1..dot]) && IsTopLevelPart(s[dot + 1..])
  }

  /** What the regular expression matches, read off the pattern: some
      split of the whole string into local '@' domain '.' tld. */
  ghost predicate MatchesEmailPattern(s: string)
  {
    exists at: nat, dot: nat :: EmailSplit(s, at, dot)
  }

  /** The first position of `c` in `s`. */
  function IndexOf(s: string, c: char): (r: Option<nat>)
    ensures r.Some? ==> r.value < |s| && s[r.value] == c
    ensures r.Some? ==> forall j | 0 <= j < r.value :: s[j] != c
    ensures r.None? <==> c !in s
  {
    if s == [] then None
    else if s[0] == c then Some(0)
    else
      match IndexOf(s[1..], c)
      case Some(k) => Some(k + 1)
      case None =>
        assert forall j | 1 <= j < |s| :: s[j] == s[1..][j - 1];
        None
  }

  /** The last position of `c` in `s`. */
  function LastIndexOf(s: string, c: char): (r: Option<nat>)
    ensures r.Some? ==> r.value < |s| && s[r.value] == c
    ensures r.Some? ==> forall j | r.value < j < |s| :: s[j] != c
    ensures r.None? <==> c !in s
  {
    if s == [] then None
    else if s[|s| - 1] == c then Some(|s| - 1)
    else
      match LastIndexOf(s[..|s| - 1], c)
      case Some(k) => Some(k)
      case None =>
        assert forall j | 0 <= j < |s| - 1 :: s[j] == s[..|s| - 1][j];
        None
  }

  /** `isValidEmail(email)`: the part before the (only possible) '@' is a
      local part; after it, the last '.' separates a domain from a
      top-level part of letters. */
  predicate IsValidEmail(email: string)
  {
    match IndexOf(email, '@')
    case None => false
    case Some(at) =>
      var rest := email[at + 1..];
      match LastIndexOf(rest, '.')
      case None => false
      case Some(dot) =>
        IsLocalPart(email[..at]) && IsDomainPart(rest[..dot]) && IsTopLevelPart(rest[dot + 1..])
  }

  /** `s` cut around an '@' at `at`, and its remainder around a '.' at
      `dot`. */
  lemma CutTwice(s: string, at: nat, dot: nat)
    requires at < |s| && s[at] == '@'
    requires dot < |s| - at - 1 && s[at + 1..][dot] == '.'
    ensures s == s[..at] + "@" + s[at + 1..][..dot] + "." + s[at + 1..][dot + 1..]
  {
    var rest := s[at + 1..];
    assert rest == rest[..dot] + "." + rest[dot + 1..];
    assert s == s[..at] + "@" + rest;
  }

  /** The two cuts the check makes in an accepted email, and what it
      checks of the three parts. */
  lemma EmailCuts(s: string) returns (at: nat, dot: nat)
    requires IsValidEmail(s)
    ensures at < |s| && s[at] == '@'
    ensures dot < |s| - at - 1 && s[at + 1..][dot] == '.'
    ensures IsLocalPart(s[..at]) && IsDomainPart(s[at + 1..][..dot]) && IsTopLevelPart(s[at + 1..][dot + 1..])
  {
    at := IndexOf(s, '@').value;
    dot := LastIndexOf(s[at + 1..], '.').value;
  }

  /** The three parts an accepted email is made of. */
  lemma EmailParts(s: string) returns (local: string, domain: string, tld: string)
    requires IsValidEmail(s)
    ensures s == local + "@" + domain + "." + tld
    ensures IsLocalPart(local) && IsDomainPart(domain) && IsTopLevelPart(tld)
  {
    var at, dot := EmailCuts(s);
    local, domain, tld := s[..at], s[at + 1..][..dot], s[at + 1..][dot + 1..];
    CutTwice(s, at, dot);
  }

  /** The scan accepts only strings the pattern matches. */
  lemma ValidEmailMatchesPattern(s: string)
    requires IsValidEmail(s)
    ensures MatchesEmailPattern(s)
  {
    var local, domain, tld := EmailParts(s);
    var at, dot := |local|, |local| + 1 + |domain|;
    assert s[..at] == local;
    assert s[at + 1..dot] == domain;
    assert s[dot + 1..] == tld;
    assert EmailSplit(s, at, dot);
  }

  /** A local part has no '@', so the split's '@' is the first. */
  lemma SplitAtIsFirst(s: string, at: nat, dot: nat)
    requires EmailSplit(s, at, dot)
    ensures IndexOf(s, '@') == Some(at)
  {
    assert forall j | 0 <= j < at :: s[j] == s[..at][j];
  }

  /** A top-level part has no '.', so the split's '.' is the last one
      after the '@'. */
  lemma SplitDotIsLast(s: string, at: nat, dot: nat)
    requires EmailSplit(s, at, dot)
    ensures LastIndexOf(s[at + 1..], '.') == Some(dot - at - 1)
  {
    var rest := s[at + 1..];
    var k := dot - at - 1;
    assert rest[k] == '.';
    assert forall j | k < j < |rest| :: rest[j] == s[dot + 1..][j - k - 1];
  }

  /** The scan accepts every string the pattern matches. */
  lemma PatternIsValidEmail(s: string, at: nat, dot: nat)
    requires EmailSplit(s, at, dot)
    ensures IsValidEmail(s)
  {
    SplitAtIsFirst(s, at, dot);
    SplitDotIsLast(s, at, dot);
    var rest := s[at + 1..];
    var k := dot - at - 1;
    assert rest[..k] == s[at + 1..dot];
    assert rest[k + 1..] == s[dot + 1..];
  }

  /** The scan agrees with the pattern, in both directions. */
  lemma ValidEmailIffPattern(s: string)
    ensures IsValidEmail(s) <==> MatchesEmailPattern(s)
  {
    if IsValidEmail(s) {
      ValidEmailMatchesPattern(s);
    }
    if MatchesEmailPattern(s) {
      var at: nat, dot: nat :| EmailSplit(s, at, dot);
      PatternIsValidEmail(s, at, dot);
    }
  }

  /** Every accepted email holds exactly one '@'. */
  lemma ValidEmailHasOneAt(s: string)
    requires IsValidEmail(s)
    ensures multiset(s)['@'] == 1
  {
    var local, domain, tld := EmailParts(s);
    assert !IsLocalChar('@') && !IsDomainChar('@') && !IsAsciiLetter('@');
    assert '@' !in local && '@' !in domain && '@' !in tld;
    assert multiset(s) == multiset(local) + multiset("@") + multiset(domain) + multiset(".") + multiset(tld);
  }

  /** A text with a decimal digit or a ',' is no name. This covers every
      number's text and every array of two or more elements. */
  lemma NameRejectsDigitOrComma(s: string, i: nat)
    requires i < |s| && (IsDecimalDigit(s[i]) || s[i] == ',')
    ensures !IsValidName(s)
  {
  }

  /** A text with a ',' is no email: this covers every array of two or
      more elements. */
  lemma EmailRejectsComma(s: string)
    requires ',' in s
    ensures !IsValidEmail(s)
  {
    if IsValidEmail(s) {
      var local, domain, tld := EmailParts(s);
    }
  }

  /** A text without '@' is no email: this covers the text of every number. */
  lemma EmailRejectsNoAt(s: string)
    requires '@' !in s
    ensures !IsValidEmail(s)
  {
  }

  /** `isValidName(value)` returns true, for a request field of any JSON
      type: the regular expression tests `String(value)`, which throws for
      a value ToPrimitiveThrows holds of. A value whose text the model
      does not spell out is a number (or holds one) and fails, by
      NameRejectsDigitOrComma. */
  predicate NameTest(value: Json)
  {
    !ToPrimitiveThrows(value) &&
    match ToJsString(value)
    case Some(s) => IsValidName(s)
    case None => false
  }

  /** `isValidEmail(value)` returns true, for a request field of any JSON
      type; see NameTest, EmailRejectsComma and EmailRejectsNoAt. */
  predicate EmailTest(value: Json)
  {
    !ToPrimitiveThrows(value) &&
    match ToJsString(value)
    case Some(s) => IsValidEmail(s)
    case None => false
  }

  /** `{"name": true}` or `{"name": null}` passes the name check on its
      text, while no number does. */
  lemma NameTestOfLiterals(r: real)
    ensures NameTest(JBool(true)) && NameTest(JBool(false)) && NameTest(JNull)
    ensures !NameTest(JNum(Finite(r)))
  {
    var t := ToJsString(JNum(Finite(r)));
    if t.Some? {
      var n := r.Floor;
      var m: nat := if n < 0 then -n else n;
      NatTextDigits(m);
      NameRejectsDigitOrComma(t.value, if n < 0 then 1 else 0);
    }
  }

  /** No null, boolean or number passes the email check: their texts hold
      no '@'. */
  lemma EmailTestOfScalars(j: Json)
    requires j.JNull? || j.JBool? || j.JNum?
    ensures !EmailTest(j)
  {
    var t := ToJsString(j);
    if j.JNum? && j.n.Finite? && t.Some? {
      var n := j.n.value.Floor;
      var m: nat := if n < 0 then -n else n;
      NatTextDigits(m);
      assert forall i | 0 <= i < |t.value| :: t.value[i] == '-' || IsDecimalDigit(t.value[i]);
    }
    if t.Some? {
      EmailRejectsNoAt(t.value);
    }
  }
}
