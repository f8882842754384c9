/** What the signup and settings forms share: the email pattern `/\S+@\S+\.\S+/`,
    the error map, and clearing one field's error while the user types. */
module FormRules {
  import opened Wrappers
  import opened Text

  /** Field name to message; a field shows an error when its message is non-empty. */
  type Errors = map<string, string>

  /** `errors[name]` is truthy, so the form displays the message. */
  predicate ShowsError(errors: Errors, key: string) {
    key in errors && errors[key] != ""
  }

  /** `Object.keys(newErrors).length === 0`. */
  predicate NoErrors(errors: Errors) {
    |errors| == 0
  }

  /** `if (errors[name]) setErrors(prev => ({ ...prev, [name]: '' }))`: a shown error is
      blanked (the key stays), and every other entry is left alone. */
  function ClearError(errors: Errors, key: string): (r: Errors)
    ensures r.Keys == errors.Keys
    ensures !ShowsError(r, key)
    ensures forall k :: k in errors && k != key ==> r[k] == errors[k]
  {
    if ShowsError(errors, key) then errors[key := ""] else errors
  }

  const NameRequired := "Name is required"
  const EmailRequired := "Email is required"
  const EmailInvalid := "Email is invalid"

  /** The name rule both forms apply: `if (!name.trim())`. */
  function NameRule(name: string): (r: Option<string>)
    ensures r == (if IsBlank(name) then Some(NameRequired) else None)
  {
    if Trim(name) == "" then Some(NameRequired) else None
  }

  /** The email rule both forms apply: required after trimming, else the pattern is
      tested against the untrimmed text. */
  function EmailRule(email: string): (r: Option<string>)
    ensures r == (if IsBlank(email) then Some(EmailRequired)
                  else if !MatchesEmailRegex(email) then Some(EmailInvalid)
                  else None)
  {
    LooksLikeEmailIffRegex(email);
    if Trim(email) == "" then Some(EmailRequired)
    else if !LooksLikeEmail(email) then Some(EmailInvalid)
    else None
  }

  /** Collects the failed rules into an error map: `key` maps to the rule's message. */
  function CollectErrors(keys: set<string>, rule: string -> Option<string>): (errors: Errors)
    ensures errors.Keys == set k | k in keys && rule(k).Some?
    ensures forall k :: k in errors ==> errors[k] == rule(k).value
  {
    map k | k in keys && rule(k).Some? :: rule(k).value
  }

  /** The collected map is empty exactly when every rule passes. */
  lemma NoErrorsIffAllPass(keys: set<string>, rule: string -> Option<string>)
    ensures NoErrors(CollectErrors(keys, rule)) <==> forall k :: k in keys ==> rule(k).None?
  {
    var errors := CollectErrors(keys, rule);
    if !NoErrors(errors) {
      var k :| k in errors;
      assert k in keys && rule(k).Some?;
    } else {
      forall k | k in keys ensures rule(k).None? {
        assert k in errors.Keys <==> rule(k).Some?;
      }
    }
  }

  predicate NonSpaceRun(s: string, lo: int, hi: int)
    requires 0 <= lo <= hi <= |s|
  {
    forall k :: lo <= k < hi ==> !IsWhitespace(s[k])
  }

  /** The regular expression `\S+@\S+\.\S+` matches `s[i..j]` with the '@' at `at`
      and the escaped '.' at `dot`. */
  ghost predicate RegexMatchesAt(s: string, i: int, at: int, dot: int, j: int) {
    && 0 <= i < at && at + 1 < dot && dot + 1 < j <= |s|
    && s[at] == '@' && s[dot] == '.'
    && NonSpaceRun(s, i, at) && NonSpaceRun(s, at + 1, dot) && NonSpaceRun(s, dot + 1, j)
  }

  /** `/\S+@\S+\.\S+/.test(s)`: the unanchored pattern matches somewhere in `s`. */
  ghost predicate MatchesEmailRegex(s: string) {
    exists i, at, dot, j :: RegexMatchesAt(s, i, at, dot, j)
  }

  /** The shortest witness of a match: one non-space before the '@', a non-space run
      from the '@' to a '.', and one non-space after the '.'. */
  predicate EmailMatchAt(s: string, at: int, dot: int) {
    && 1 <= at && at + 1 < dot && dot + 1 < |s|
    && s[at] == '@' && s[dot] == '.'
    && !IsWhitespace(s[at - 1]) && !IsWhitespace(s[dot + 1])
    && NonSpaceRun(s, at + 1, dot)
  }

  /** The email check the validators evaluate. */
  predicate LooksLikeEmail(s: string) {
    exists at, dot | 0 <= at < |s| && 0 <= dot < |s| :: EmailMatchAt(s, at, dot)
  }

  /** The check accepts exactly the strings the regular expression matches somewhere. */
  lemma LooksLikeEmailIffRegex(s: string)
    ensures LooksLikeEmail(s) <==> MatchesEmailRegex(s)
  {
    if LooksLikeEmail(s) {
      var at, dot :| 0 <= at < |s| && 0 <= dot < |s| && EmailMatchAt(s, at, dot);
      assert RegexMatchesAt(s, at - 1, at, dot, dot + 2);
    }
    if MatchesEmailRegex(s) {
      var i, at, dot, j :| RegexMatchesAt(s, i, at, dot, j);
      assert !IsWhitespace(s[at - 1]);
      assert !IsWhitespace(s[dot + 1]);
      assert EmailMatchAt(s, at, dot);
    }
  }

  /** Examples: the pattern needs no anchors, and a space between '@' and '.' breaks it. */
  lemma EmailExamples()
    ensures LooksLikeEmail("john.doe@school.edu")
    ensures LooksLikeEmail("  a@b.c  ")
    ensures !LooksLikeEmail("a@b c.d")
    ensures !LooksLikeEmail("a@.b")
  {
    assert EmailMatchAt("john.doe@school.edu", 8, 15);
    assert EmailMatchAt("  a@b.c  ", 3, 5);
    var s := "a@b c.d";
    forall at, dot | 0 <= at < |s| && 0 <= dot < |s| ensures !EmailMatchAt(s, at, dot) {
      if at == 1 && dot == 5 {
        assert IsWhitespace(s[3]);
      }
    }
  }
}
