/** Field validators shared by users, tags and passwords.

    The charset check is the regular expression `^[\w.@+-]+$`, applied with a
    *search*. Without the MULTILINE flag `^` anchors at position 0 only, and `$`
    matches at the end of the string or just before a final newline. The model
    gives the pattern's meaning declaratively (`FieldPatternMatches`) and the
    matcher operationally (`RegexSearch`: a greedy scan of the character class
    followed by backtracking to a position where `$` holds), and proves the two
    agree. */
module Validators {
  import opened Common

  /** `\w` restricted to ASCII: letters, digits and the underscore. */
  predicate IsWordChar(c: char) {
    ('a' <= c <= 'z') || ('A' <= c <= 'Z') || ('0' <= c <= '9') || c == '_'
  }

  /** The character class `[\w.@+-]`. */
  predicate InFieldCharset(c: char) {
    IsWordChar(c) || c == '.' || c == '@' || c == '+' || c == '-'
  }

  predicate AllInCharset(s: string) {
    forall i :: 0 <= i < |s| ==> InFieldCharset(s[i])
  }

  /** What the pattern accepts: one or more class characters, optionally
      followed by exactly one final newline. */
  predicate FieldPatternMatches(s: string) {
    || (|s| > 0 && AllInCharset(s))
    || (|s| > 1 && s[|s| - 1] == '\n' && AllInCharset(s[..|s| - 1]))
  }

  // ---------------------------------------------------------------------------
  // The matcher.

  /** Greedy `[\w.@+-]+` from position `i`: the first position at or after `i`
      that holds no class character. */
  function ScanClass(s: string, i: nat): (k: nat)
    requires i <= |s|
    ensures i <= k <= |s|
    ensures forall j :: i <= j < k ==> InFieldCharset(s[j])
    ensures k < |s| ==> !InFieldCharset(s[k])
    decreases |s| - i
  {
    if i == |s| || !InFieldCharset(s[i]) then i else ScanClass(s, i + 1)
  }

  /** `$` without MULTILINE: end of string, or the position of a final newline. */
  predicate DollarAt(s: string, j: nat) {
    j == |s| || (j == |s| - 1 && s[j] == '\n')
  }

  /** Backtracking: the `+` gives back characters one at a time (but keeps at
      least one) until `$` matches. */
  predicate Backtrack(s: string, j: nat) {
    if j == 0 then false else DollarAt(s, j) || Backtrack(s, j - 1)
  }

  /** `re.search` of the anchored pattern: only position 0 can match `^`. */
  predicate RegexSearch(s: string) {
    Backtrack(s, ScanClass(s, 0))
  }

  lemma {:induction false} BacktrackFindsDollar(s: string, j: nat)
    requires Backtrack(s, j)
    ensures exists m :: 1 <= m <= j && DollarAt(s, m)
  {
    if !DollarAt(s, j) {
      BacktrackFindsDollar(s, j - 1);
    }
  }

  lemma {:induction false} BacktrackReaches(s: string, j: nat, m: nat)
    requires 1 <= m <= j && DollarAt(s, m)
    ensures Backtrack(s, j)
  {
    if m < j && !DollarAt(s, j) {
      BacktrackReaches(s, j - 1, m);
    }
  }

  lemma SearchImpliesPattern(s: string)
    requires RegexSearch(s)
    ensures FieldPatternMatches(s)
  {
    var k := ScanClass(s, 0);
    BacktrackFindsDollar(s, k);
    var m :| 1 <= m <= k && DollarAt(s, m);
    if m == |s| {
      assert AllInCharset(s);
    } else {
      assert s[..|s| - 1] == s[..m];
      assert AllInCharset(s[..|s| - 1]);
    }
  }

  lemma PatternImpliesSearch(s: string)
    requires FieldPatternMatches(s)
    ensures RegexSearch(s)
  {
    var k := ScanClass(s, 0);
    if |s| > 0 && AllInCharset(s) {
      BacktrackReaches(s, k, |s|);
    } else {
      var m := |s| - 1;
      assert forall j :: 0 <= j < m ==> s[..m][j] == s[j];
      BacktrackReaches(s, k, m);
    }
  }

  /** The matcher accepts exactly the strings the pattern describes. */
  lemma RegexSearchCorrect(s: string)
    ensures RegexSearch(s) <==> FieldPatternMatches(s)
  {
    if RegexSearch(s) {
      SearchImpliesPattern(s);
    }
    if FieldPatternMatches(s) {
      PatternImpliesSearch(s);
    }
  }

  // ---------------------------------------------------------------------------
  // The two validators of backend/utils/validators.py.

  /** A Django `ValidationError`, with the code it carries (if any). */
  datatype Check = Accept | Reject(code: Option<string>)

  /** `password_slug_username_validation`: returns without effect when the
      pattern finds a match, raises with code 'invalid_field' otherwise. */
  function PasswordSlugUsernameValidation(value: string): (r: Check)
    ensures r.Accept? <==> FieldPatternMatches(value)
    ensures r.Reject? ==> r.code == Some("invalid_field")
  {
    RegexSearchCorrect(value);
    if RegexSearch(value) then Accept else Reject(Some("invalid_field"))
  }

  /** The serializer methods that wrap the validator (`validate_slug` of
      `TagSerializer`, `validate_new_password` of
      `ChangeUserPasswordSerializer`): the value comes back unchanged, or the
      validator's Django `ValidationError` leaves the method untouched (its
      `except serializers.ValidationError` does not catch it) and DRF's field
      validation turns it into a field error that keeps the code
      'invalid_field'. */
  function ValidatedField(value: string): (r: Result<string, Check>)
    ensures r.Success? <==> FieldPatternMatches(value)
    ensures r.Success? ==> r.value == value
    ensures r.Failure? ==> r.error == Reject(Some("invalid_field"))
  {
    match PasswordSlugUsernameValidation(value)
    case Accept => Success(value)
    case Reject(code) => Failure(Reject(code))
  }

  /** The empty string is rejected: the `+` needs one character. */
  lemma EmptyValueRejected()
    ensures PasswordSlugUsernameValidation("") == Reject(Some("invalid_field"))
  {
  }

  /** A newline is not in the class, yet one final newline after an accepted
      value is still accepted, because `$` matches just before it. */
  lemma TrailingNewlineAccepted(s: string)
    requires PasswordSlugUsernameValidation(s).Accept?
    requires forall i :: 0 <= i < |s| ==> s[i] != '\n'
    ensures !InFieldCharset('\n')
    ensures PasswordSlugUsernameValidation(s + "\n").Accept?
    ensures PasswordSlugUsernameValidation(s + "\n\n").Reject?
  {
    var t := s + "\n";
    assert t[..|t| - 1] == s;
    var u := s + "\n\n";
    assert u[|u| - 2] == '\n';
  }

  /** `hex_name_color_validator`: accepted exactly when the colour-name table
      (`webcolors.hex_to_name`, here a partial map from accepted spellings to
      names) knows the value; otherwise a `ValidationError` without a code. */
  function HexNameColorValidator(hexToName: map<string, string>, value: string): (r: Check)
    ensures r.Accept? <==> value in hexToName
    ensures r.Reject? ==> r.code.None?
  {
    if value in hexToName then Accept else Reject(None)
  }
}
