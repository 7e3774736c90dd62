/**
  The input validators of ValidationUtil: total predicates over a Java String that may be null.
  Each regular expression is a single character class matched against the whole string,
  so it is written here as a predicate on the characters.
 */
module ValidationUtil {
  import opened Wrappers
  import opened JavaString

  /** [0-9] */
  predicate IsDigit(c: char) {
    '0' <= c <= '9'
  }

  predicate IsLetterOrDigit(c: char) {
    'A' <= c <= 'Z' || 'a' <= c <= 'z' || IsDigit(c)
  }

  /** The class before the at sign: [A-Za-z0-9+_.-] */
  predicate IsLocalChar(c: char) {
    IsLetterOrDigit(c) || c == '+' || c == '_' || c == '.' || c == '-'
  }

  /** The class after the at sign: [A-Za-z0-9.-] */
  predicate IsDomainChar(c: char) {
    IsLetterOrDigit(c) || c == '.' || c == '-'
  }

  predicate AllDigits(s: string) {
    forall k :: 0 <= k < |s| ==> IsDigit(s[k])
  }

  predicate AllDomainChars(s: string) {
    forall k :: 0 <= k < |s| ==> IsDomainChar(s[k])
  }

  /** How far the leading run of local-part characters reaches: the greedy match of [A-Za-z0-9+_.-]+. */
  function LocalRun(s: string): (n: nat)
    ensures n <= |s|
    ensures forall k :: 0 <= k < n ==> IsLocalChar(s[k])
    ensures n < |s| ==> !IsLocalChar(s[n])
  {
    if s != [] && IsLocalChar(s[0]) then 1 + LocalRun(s[1..]) else 0
  }

  /** isValidEmail: false for null, otherwise whether ^[A-Za-z0-9+_.-]+@[A-Za-z0-9.-]+$ matches. */
  predicate IsValidEmail(email: JString) {
    match email
    case None => false
    case Some(s) =>
      var n := LocalRun(s);
      0 < n < |s| - 1 && s[n] == '@' && AllDomainChars(s[n + 1..])
  }

  /** The pattern read as a split: a non-empty local part, the at sign at k, a non-empty domain. */
  ghost predicate EmailSplitsAt(s: string, k: int) {
    && 0 < k < |s| - 1
    && s[k] == '@'
    && (forall i :: 0 <= i < k ==> IsLocalChar(s[i]))
    && (forall i :: k < i < |s| ==> IsDomainChar(s[i]))
  }

  /** The greedy matcher accepts exactly the strings that the pattern describes. */
  lemma EmailMatchesPattern(email: JString)
    ensures IsValidEmail(email) <==> email.Some? && exists k :: EmailSplitsAt(email.value, k)
  {
    if email.Some? {
      var s := email.value;
      var n := LocalRun(s);
      if IsValidEmail(email) {
        assert forall i :: n < i < |s| ==> s[i] == s[n + 1..][i - n - 1];
        assert EmailSplitsAt(s, n);
      }
      if k :| EmailSplitsAt(s, k) {
        assert n == k;
        var domain := s[n + 1..];
        assert forall i :: 0 <= i < |domain| ==> domain[i] == s[n + 1 + i];
      }
    }
  }

  /** No character class of the pattern contains the at sign, so a valid address holds exactly one. */
  lemma ValidEmailHasOneAt(s: string)
    requires IsValidEmail(Some(s))
    ensures multiset(s)['@'] == 1
  {
    var n := LocalRun(s);
    assert s == s[..n] + [s[n]] + s[n + 1..];
    assert forall k :: 0 <= k < n ==> s[..n][k] != '@';
    var domain := s[n + 1..];
    assert forall k :: 0 <= k < |domain| ==> domain[k] != '@';
    assert '@' !in multiset(s[..n]);
    assert '@' !in multiset(domain);
  }

  /** isNonEmpty: not null and not empty once trimmed. */
  predicate IsNonEmpty(value: JString) {
    value.Some? && Trim(value.value) != []
  }

  /** A string is non-empty in this sense exactly when it holds a character above U+0020. */
  lemma NonEmptyIffVisibleChar(value: JString)
    ensures IsNonEmpty(value) <==> value.Some? && exists k :: 0 <= k < |value.value| && !IsTrimmable(value.value[k])
  {
    if value.Some? {
      TrimEmptyIff(value.value);
    }
  }

  /** isValidMobile: not null and exactly ten characters of [0-9]. */
  predicate IsValidMobile(mobile: JString) {
    mobile.Some? && |mobile.value| == 10 && AllDigits(mobile.value)
  }

  /** isInteger: not null, not blank once trimmed, and ^[0-9]+$ matches the untrimmed string. */
  predicate IsInteger(value: JString) {
    value.Some? && Trim(value.value) != [] && value.value != [] && AllDigits(value.value)
  }

  /** The trim test in isInteger is redundant: the result is "one or more ASCII digits, nothing else". */
  lemma IntegerIffDigits(value: JString)
    ensures IsInteger(value) <==> value.Some? && value.value != [] && AllDigits(value.value)
  {
    if value.Some? && value.value != [] && AllDigits(value.value) {
      TrimEmptyIff(value.value);
      assert !IsTrimmable(value.value[0]);
    }
  }

  /** Every number isValidMobile accepts, isInteger accepts too. */
  lemma MobileIsInteger(mobile: JString)
    requires IsValidMobile(mobile)
    ensures IsInteger(mobile)
  {
    IntegerIffDigits(mobile);
  }

  /** isLengthBetween: not null and the trimmed length, in UTF-16 code units, lies in [min, max]. */
  predicate IsLengthBetween(value: JString, min: int, max: int) {
    value.Some? && min <= Utf16Length(Trim(value.value)) <= max
  }

  /**
    Padding never matters to isLengthBetween, an inverted range accepts nothing, the lower
    bound 1 implies isNonEmpty.
   */
  lemma LengthBetweenProperties(s: string, min: int, max: int)
    ensures IsLengthBetween(Some(s), min, max) <==> IsLengthBetween(Some(Trim(s)), min, max)
    ensures min > max ==> !IsLengthBetween(Some(s), min, max)
    ensures IsLengthBetween(Some(s), 1, max) ==> IsNonEmpty(Some(s))
  {
    var t := Trim(s);
    TrimIdempotent(s);
    assert Utf16Length(Trim(t)) == Utf16Length(t);
  }

  /** Lengths are UTF-16 code units: a single character outside the Basic Multilingual Plane has length 2. */
  lemma SupplementaryCountsTwice(c: char)
    requires c >= '\U{10000}'
    ensures IsLengthBetween(Some([c]), 2, 2) && !IsLengthBetween(Some([c]), 1, 1)
  {
    var one := [c];
    assert !IsTrimmable(one[0]);
    assert Trim(one) == one;
    assert one[1..] == [];
    assert Utf16Length(one) == 2;
  }
}
