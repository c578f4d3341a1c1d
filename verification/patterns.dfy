/**
 * The two regular expressions the auth pages test, written as predicates over
 * characters:
 *
 *   email     /^[^\s@]+@[^\s@]+\.[^\s@]+$/
 *   password  /^(?=.*[a-z])(?=.*[A-Z])(?=.*\d)(?=.*[@$!%*?&])[A-Za-z\d@$!%*?&]{8,}$/
 */
module Patterns {
  import opened JsText

  /** `[^\s@]` */
  predicate EmailChar(c: char)
  {
    !IsWhitespace(c) && c != '@'
  }

  /** `[^\s@]+` matches the whole of `s` */
  predicate EmailRun(s: string)
  {
    |s| > 0 && forall k | 0 <= k < |s| :: EmailChar(s[k])
  }

  /** The email regex, read off its structure: three runs split by an `@` at `i` and a `.` at `j`. */
  predicate EmailRegex(s: string)
    ensures EmailRegex(s) ==> |s| >= 5 && '@' in s && '.' in s
  {
    exists i, j | 0 <= i < j < |s| ::
      s[i] == '@' && s[j] == '.' && EmailRun(s[..i]) && EmailRun(s[i + 1..j]) && EmailRun(s[j + 1..])
  }

  /** The character `@` occurs at `i` and nowhere else. */
  predicate OnlyAtSignAt(s: string, i: int)
  {
    0 <= i < |s| && s[i] == '@' && forall k | 0 <= k < |s| && k != i :: s[k] != '@'
  }

  /** Some `.` of `d` is neither its first nor its last character. */
  predicate HasInnerDot(d: string)
  {
    exists k | 0 < k < |d| - 1 :: d[k] == '.'
  }

  /**
   * The shape the email regex accepts: no whitespace, exactly one `@`, something
   * before it, and a domain with an inner dot.
   */
  predicate EmailShape(s: string)
  {
    && (forall k | 0 <= k < |s| :: !IsWhitespace(s[k]))
    && exists i | 0 < i < |s| :: OnlyAtSignAt(s, i) && HasInnerDot(s[i + 1..])
  }

  /** The email regex accepts exactly the strings of that shape. */
  lemma EmailRegexIsShape(s: string)
    ensures EmailRegex(s) <==> EmailShape(s)
  {
    if EmailRegex(s) {
      var i, j :| 0 <= i < j < |s| && s[i] == '@' && s[j] == '.'
        && EmailRun(s[..i]) && EmailRun(s[i + 1..j]) && EmailRun(s[j + 1..]);
      RegexMatchHasShape(s, i, j);
    }
    if EmailShape(s) {
      var i :| 0 < i < |s| && OnlyAtSignAt(s, i) && HasInnerDot(s[i + 1..]);
      var d := s[i + 1..];
      var k :| 0 < k < |d| - 1 && d[k] == '.';
      ShapeGivesRegexMatch(s, i, i + 1 + k);
    }
  }

  lemma RegexMatchHasShape(s: string, i: int, j: int)
    requires 0 <= i < j < |s| && s[i] == '@' && s[j] == '.'
    requires EmailRun(s[..i]) && EmailRun(s[i + 1..j]) && EmailRun(s[j + 1..])
    ensures EmailShape(s)
  {
    forall k | 0 <= k < |s| && k != i ensures EmailChar(s[k]) || k == j {
      if k < i {
        assert s[k] == s[..i][k];
      } else if k < j {
        assert s[k] == s[i + 1..j][k - i - 1];
      } else if k > j {
        assert s[k] == s[j + 1..][k - j - 1];
      }
    }
    assert OnlyAtSignAt(s, i);
    var d := s[i + 1..];
    assert d[j - i - 1] == '.';
    assert HasInnerDot(d);
  }

  lemma ShapeGivesRegexMatch(s: string, i: int, j: int)
    requires 0 < i && i + 1 < j < |s| - 1
    requires forall k | 0 <= k < |s| :: !IsWhitespace(s[k])
    requires OnlyAtSignAt(s, i) && s[j] == '.'
    ensures EmailRegex(s)
  {
  }

  predicate IsLower(c: char) { 'a' <= c <= 'z' }
  predicate IsUpper(c: char) { 'A' <= c <= 'Z' }

  /** `[@$!%*?&]` */
  predicate IsSpecial(c: char)
  {
    c == '@' || c == '$' || c == '!' || c == '%' || c == '*' || c == '?' || c == '&'
  }

  /** `[A-Za-z\d@$!%*?&]` */
  predicate PasswordChar(c: char)
  {
    IsLower(c) || IsUpper(c) || IsDigit(c) || IsSpecial(c)
  }

  /**
   * The password regex: at least eight characters, all from the allowed class,
   * with a lowercase letter, an uppercase letter, a digit and a special
   * character somewhere (the four lookaheads).
   */
  predicate StrongPassword(s: string)
    ensures StrongPassword(s) ==> forall k | 0 <= k < |s| :: '!' <= s[k] <= 'z' && !IsWhitespace(s[k])
  {
    && |s| >= 8
    && (forall k | 0 <= k < |s| :: PasswordChar(s[k]))
    && (exists k | 0 <= k < |s| :: IsLower(s[k]))
    && (exists k | 0 <= k < |s| :: IsUpper(s[k]))
    && (exists k | 0 <= k < |s| :: IsDigit(s[k]))
    && (exists k | 0 <= k < |s| :: IsSpecial(s[k]))
  }

  /** A single left-to-right pass deciding the password regex. */
  method MatchPassword(s: string) returns (ok: bool)
    ensures ok <==> StrongPassword(s)
  {
    var allowed, lower, upper, digit, special := true, false, false, false, false;
    var n := 0;
    while n < |s|
      invariant 0 <= n <= |s|
      invariant allowed <==> forall k | 0 <= k < n :: PasswordChar(s[k])
      invariant lower <==> exists k | 0 <= k < n :: IsLower(s[k])
      invariant upper <==> exists k | 0 <= k < n :: IsUpper(s[k])
      invariant digit <==> exists k | 0 <= k < n :: IsDigit(s[k])
      invariant special <==> exists k | 0 <= k < n :: IsSpecial(s[k])
    {
      var c := s[n];
      allowed := allowed && PasswordChar(c);
      lower := lower || IsLower(c);
      upper := upper || IsUpper(c);
      digit := digit || IsDigit(c);
      special := special || IsSpecial(c);
      n := n + 1;
    }
    ok := |s| >= 8 && allowed && lower && upper && digit && special;
  }

  /** A single left-to-right pass deciding the email regex. */
  method MatchEmail(s: string) returns (ok: bool)
    ensures ok <==> EmailShape(s)
    ensures ok <==> EmailRegex(s)
  {
    EmailRegexIsShape(s);
    var noSpace := true;
    var ats := 0;
    var at := -1;
    var n := 0;
    while n < |s|
      invariant 0 <= n <= |s|
      invariant noSpace <==> forall k | 0 <= k < n :: !IsWhitespace(s[k])
      invariant 0 <= ats <= 2
      invariant ats == 0 <==> forall k | 0 <= k < n :: s[k] != '@'
      invariant ats == 1 <==> (0 <= at < n && OnlyAtSignAt(s[..n], at))
      invariant ats >= 1 ==> 0 <= at < n && s[at] == '@' && forall k | 0 <= k < at :: s[k] != '@'
    {
      if IsWhitespace(s[n]) {
        noSpace := false;
      }
      if s[n] == '@' {
        if ats == 0 {
          at := n;
        }
        ats := if ats == 2 then 2 else ats + 1;
      }
      n := n + 1;
      assert s[..n][..n - 1] == s[..n - 1];
    }
    assert s[..n] == s;
    if noSpace && ats == 1 && at > 0 {
      var dot := false;
      var m := at + 2;
      while m < |s| - 1
        invariant at + 2 <= m
        invariant dot <==> exists k | at + 2 <= k < m && k < |s| - 1 :: s[k] == '.'
      {
        dot := dot || s[m] == '.';
        m := m + 1;
      }
      ok := dot;
      assert dot <==> HasInnerDot(s[at + 1..]) by {
        var d := s[at + 1..];
        assert forall k | 0 < k < |d| - 1 :: d[k] == s[at + 1 + k];
        if dot {
          var k :| at + 2 <= k < m && k < |s| - 1 && s[k] == '.';
          assert d[k - at - 1] == '.';
        }
      }
    } else {
      ok := false;
    }
  }
}
