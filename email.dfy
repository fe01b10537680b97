/** The address pattern both auth handlers test with `email.match`:
    `^[a-zA-Z0-9._%+-]+@[a-zA-Z0-9.-]+\.[a-zA-Z]{2,}$`, written as a predicate
    over characters. */
module EmailPattern {
  import opened JsString

  predicate Letter(c: char) { 'a' <= c <= 'z' || 'A' <= c <= 'Z' }

  predicate Digit(c: char) { '0' <= c <= '9' }

  /** The local part's class `[a-zA-Z0-9._%+-]`. */
  predicate LocalChar(c: char) {
    Letter(c) || Digit(c) || c == '.' || c == '_' || c == '%' || c == '+' || c == '-'
  }

  /** The domain's class `[a-zA-Z0-9.-]`. */
  predicate DomainChar(c: char) { Letter(c) || Digit(c) || c == '.' || c == '-' }

  /** Every character of `s[lo..hi]` is in the local part's class. */
  predicate LocalRange(s: string, lo: int, hi: int)
    requires 0 <= lo <= hi <= |s|
  {
    forall i :: lo <= i < hi ==> LocalChar(s[i])
  }

  /** Every character of `s[lo..hi]` is in the domain's class. */
  predicate DomainRange(s: string, lo: int, hi: int)
    requires 0 <= lo <= hi <= |s|
  {
    forall i :: lo <= i < hi ==> DomainChar(s[i])
  }

  /** Every character of `s[lo..hi]` is an ASCII letter. */
  predicate LetterRange(s: string, lo: int, hi: int)
    requires 0 <= lo <= hi <= |s|
  {
    forall i :: lo <= i < hi ==> Letter(s[i])
  }

  /** `s` splits as local part `s[..at]`, `@`, domain prefix `s[at+1..dot]`,
      `.`, and a label `s[dot+1..]` of two or more letters running to the end. */
  predicate SplitsAt(s: string, at: int, dot: int) {
    && 1 <= at
    && at + 2 <= dot
    && dot + 3 <= |s|
    && s[at] == '@'
    && s[dot] == '.'
    && LocalRange(s, 0, at)
    && DomainRange(s, at + 1, dot)
    && LetterRange(s, dot + 1, |s|)
  }

  /** The whole string matches the pattern: the regular expression has an
      accepting run exactly when such a split exists. */
  predicate MatchesPattern(s: string) {
    exists at, dot | 0 <= at < |s| && 0 <= dot < |s| :: SplitsAt(s, at, dot)
  }

  /** Every character of a split string is a local, domain or `@` character. */
  lemma SplitChars(s: string, at: int, dot: int, i: int)
    requires SplitsAt(s, at, dot) && 0 <= i < |s|
    ensures LocalChar(s[i]) || DomainChar(s[i]) || s[i] == '@'
  {
  }

  /** An accepted address holds no white space. */
  lemma AcceptedHasNoSpace(s: string)
    requires MatchesPattern(s)
    ensures NoSpace(s)
  {
    var at, dot :| 0 <= at < |s| && 0 <= dot < |s| && SplitsAt(s, at, dot);
    forall i | 0 <= i < |s| ensures !IsSpace(s[i]) {
      SplitChars(s, at, dot, i);
    }
  }

  /** An accepted address holds exactly one `@`. */
  lemma AcceptedHasOneAt(s: string)
    requires MatchesPattern(s)
    ensures multiset(s)['@'] == 1
  {
    var at, dot :| 0 <= at < |s| && 0 <= dot < |s| && SplitsAt(s, at, dot);
    var local, domain := s[..at], s[at + 1..];
    assert s == local + ['@'] + domain;
    assert '@' !in local by {
      forall i | 0 <= i < |local| ensures local[i] != '@' {
        assert LocalChar(local[i]);
      }
    }
    assert '@' !in domain by {
      forall i | 0 <= i < |domain| ensures domain[i] != '@' {
        SplitChars(s, at, dot, at + 1 + i);
      }
    }
  }

  /** The character classes do not depend on case. */
  lemma ClassesIgnoreCase(c: char)
    ensures Letter(LowerChar(c)) == Letter(c)
    ensures LocalChar(LowerChar(c)) == LocalChar(c)
    ensures DomainChar(LowerChar(c)) == DomainChar(c)
    ensures (LowerChar(c) == '@') == (c == '@')
    ensures (LowerChar(c) == '.') == (c == '.')
  {
  }

  /** A split of `s` is a split of its lower-cased form, and back. */
  lemma {:induction false} SplitIgnoresCase(s: string, at: int, dot: int)
    ensures SplitsAt(ToLower(s), at, dot) == SplitsAt(s, at, dot)
  {
    var l := ToLower(s);
    forall i | 0 <= i < |s| ensures LocalChar(l[i]) == LocalChar(s[i])
      && DomainChar(l[i]) == DomainChar(s[i]) && Letter(l[i]) == Letter(s[i])
      && (l[i] == '@') == (s[i] == '@') && (l[i] == '.') == (s[i] == '.')
    {
      ClassesIgnoreCase(s[i]);
    }
  }

  /** The pattern is case-insensitive: an address is accepted exactly when its
      lower-cased form is. */
  lemma PatternIgnoresCase(s: string)
    ensures MatchesPattern(ToLower(s)) == MatchesPattern(s)
  {
    if MatchesPattern(s) {
      var at, dot :| 0 <= at < |s| && 0 <= dot < |s| && SplitsAt(s, at, dot);
      SplitIgnoresCase(s, at, dot);
    }
    if MatchesPattern(ToLower(s)) {
      var at, dot :| 0 <= at < |s| && 0 <= dot < |s| && SplitsAt(ToLower(s), at, dot);
      SplitIgnoresCase(s, at, dot);
    }
  }

  /** Two addresses that differ only in case are accepted together. */
  lemma CaseVariantAccepted(s: string, t: string)
    requires ToLower(s) == ToLower(t)
    ensures MatchesPattern(s) == MatchesPattern(t)
  {
    PatternIgnoresCase(s);
    PatternIgnoresCase(t);
  }

  /** For an accepted address, the key the registration handler looks up
      (`toLowerCase()`) equals the key it stores and the login handler looks
      up (`toLowerCase().trim()`). */
  lemma LookupKeyIsStoredKey(s: string)
    requires MatchesPattern(s)
    ensures Trim(ToLower(s)) == ToLower(s)
  {
    PatternIgnoresCase(s);
    AcceptedHasNoSpace(ToLower(s));
    TrimSpaceless(ToLower(s));
  }
}
