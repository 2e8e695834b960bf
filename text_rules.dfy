/** Character- and string-level tests that the survey validator relies on:
    JavaScript's whitespace class `\s`, an unanchored search for the e-mail
    pattern `\S+@\S+\.\S+`, and the numeric coercion behind
    `isNaN(v) || v <= 0`, restricted to unsigned decimal text. */
module TextRules {

  /** JavaScript's `\s`: the ECMAScript WhiteSpace and LineTerminator code points. */
  predicate IsWhitespace(c: char) {
    var n := c as int;
    || (0x09 <= n <= 0x0D)
    || n == 0x20 || n == 0xA0 || n == 0x1680
    || (0x2000 <= n <= 0x200A)
    || n == 0x2028 || n == 0x2029 || n == 0x202F || n == 0x205F
    || n == 0x3000 || n == 0xFEFF
  }

  /** s[i..j] is a non-empty stretch matched by `\S+`. */
  ghost predicate NonSpaceRun(s: string, i: int, j: int) {
    && 0 <= i < j <= |s|
    && forall k :: i <= k < j ==> !IsWhitespace(s[k])
  }

  /** The substring s[i..e] is matched by `\S+@\S+\.\S+`, the `@` standing at
      a and the `.` at d. */
  ghost predicate PatternMatchesAt(s: string, i: int, a: int, d: int, e: int) {
    && NonSpaceRun(s, i, a)
    && a < |s| && s[a] == '@'
    && NonSpaceRun(s, a + 1, d)
    && d < |s| && s[d] == '.'
    && NonSpaceRun(s, d + 1, e)
  }

  /** What `RegExp.prototype.test` answers for the unanchored pattern: some
      substring of s matches it. */
  ghost predicate EmailPatternFound(s: string) {
    exists i, a, d, e :: PatternMatchesAt(s, i, a, d, e)
  }

  /** A domain part starting at k ends with the `.` at d: s[k..d] is a
      non-empty stretch of non-whitespace and a non-whitespace character
      follows the dot. */
  ghost predicate DomainEndsAt(s: string, k: int, d: int) {
    && 0 <= k < d
    && d + 1 < |s|
    && (forall j :: k <= j < d ==> !IsWhitespace(s[j]))
    && s[d] == '.'
    && !IsWhitespace(s[d + 1])
  }

  /** The shortest witnesses of a match: an `@` at a with a non-whitespace
      character before it, and a domain part ending at the `.` at d. */
  ghost predicate AnchorsAt(s: string, a: int, d: int) {
    && 1 <= a < |s|
    && s[a] == '@'
    && !IsWhitespace(s[a - 1])
    && DomainEndsAt(s, a + 1, d)
  }

  /** Scans for a domain part beginning at k. */
  function DomainFrom(s: string, k: nat): bool
    decreases |s| - k
  {
    if k >= |s| || IsWhitespace(s[k]) then false
    else if k + 2 < |s| && s[k + 1] == '.' && !IsWhitespace(s[k + 2]) then true
    else DomainFrom(s, k + 1)
  }

  /** Scans for an `@` at or after a that starts a match. */
  function MatchFrom(s: string, a: nat): bool
    decreases |s| - a
  {
    if a >= |s| then false
    else if 1 <= a && s[a] == '@' && !IsWhitespace(s[a - 1]) && DomainFrom(s, a + 1) then true
    else MatchFrom(s, a + 1)
  }

  lemma {:induction false} DomainFromCorrect(s: string, k: nat)
    ensures DomainFrom(s, k) <==> exists d :: DomainEndsAt(s, k, d)
    decreases |s| - k
  {
    if k >= |s| || IsWhitespace(s[k]) {
    } else if k + 2 < |s| && s[k + 1] == '.' && !IsWhitespace(s[k + 2]) {
      assert DomainEndsAt(s, k, k + 1);
    } else {
      var next := k + 1;
      DomainFromCorrect(s, next);
      if d :| DomainEndsAt(s, k, d) {
        assert d != next;
        assert DomainEndsAt(s, next, d);
      }
      if d :| DomainEndsAt(s, next, d) {
        assert DomainEndsAt(s, k, d);
      }
    }
  }

  lemma {:induction false} MatchFromCorrect(s: string, a: nat)
    ensures MatchFrom(s, a) <==> exists b, d :: a <= b && AnchorsAt(s, b, d)
    decreases |s| - a
  {
    if a >= |s| {
    } else {
      DomainFromCorrect(s, a + 1);
      MatchFromCorrect(s, a + 1);
      if b, d :| a <= b && AnchorsAt(s, b, d) {
        if b == a {
          assert DomainEndsAt(s, a + 1, d);
        } else {
          assert a + 1 <= b && AnchorsAt(s, b, d);
        }
      }
      if 1 <= a && s[a] == '@' && !IsWhitespace(s[a - 1]) && DomainFrom(s, a + 1) {
        var d :| DomainEndsAt(s, a + 1, d);
        assert AnchorsAt(s, a, d);
      }
    }
  }

  /** Shrinking a match to its anchors and growing the anchors back into a
      match show the two descriptions agree. */
  lemma AnchorsIffPattern(s: string)
    ensures (exists a, d :: AnchorsAt(s, a, d)) <==> EmailPatternFound(s)
  {
    if a, d :| AnchorsAt(s, a, d) {
      assert PatternMatchesAt(s, a - 1, a, d, d + 2);
    }
    if i, a, d, e :| PatternMatchesAt(s, i, a, d, e) {
      assert !IsWhitespace(s[a - 1]);
      assert !IsWhitespace(s[d + 1]);
      assert AnchorsAt(s, a, d);
    }
  }

  /** The decision procedure used by the validator for `/\S+@\S+\.\S+/.test(s)`:
      it answers exactly what the unanchored regular-expression search answers. */
  function IsEmailLike(s: string): (r: bool)
    ensures r <==> EmailPatternFound(s)
  {
    MatchFromCorrect(s, 0);
    AnchorsIffPattern(s);
    MatchFrom(s, 0)
  }

  /** Every character is a digit or a dot. */
  ghost predicate AllDigitsOrDots(s: string) {
    forall k :: 0 <= k < |s| ==> IsDigit(s[k]) || s[k] == '.'
  }

  /** Some character is a digit from 1 to 9. */
  ghost predicate HasNonZeroDigit(s: string) {
    exists k :: 0 <= k < |s| && '1' <= s[k] <= '9'
  }

  predicate IsDigit(c: char) {
    '0' <= c <= '9'
  }

  /** The recursive scan, last character first, for "only digits and dots". */
  predicate OnlyDigitsAndDots(s: string) {
    s == [] || ((IsDigit(s[|s| - 1]) || s[|s| - 1] == '.') && OnlyDigitsAndDots(s[..|s| - 1]))
  }

  function DotCount(s: string): nat {
    if s == [] then 0 else DotCount(s[..|s| - 1]) + (if s[|s| - 1] == '.' then 1 else 0)
  }

  function DigitCount(s: string): nat {
    if s == [] then 0 else DigitCount(s[..|s| - 1]) + (if IsDigit(s[|s| - 1]) then 1 else 0)
  }

  /** Text that JavaScript's `Number` reads as an unsigned decimal literal:
      digits with at most one `.`, and at least one digit (`"5"`, `"5."`,
      `".5"`, `"007"`). */
  predicate IsUnsignedDecimal(s: string) {
    OnlyDigitsAndDots(s) && DotCount(s) <= 1 && DigitCount(s) >= 1
  }

  /** The digits of s read as one natural number, other characters skipped.
      For an unsigned decimal literal the exact value of the literal is this
      number divided by ten to the count of digits after the dot, so the two
      share their sign. (JavaScript rounds that value to a double, which is 0
      for a literal too small to represent; the model does not round.) */
  function DigitsValue(s: string): nat {
    if s == [] then 0
    else
      var last := s[|s| - 1];
      if IsDigit(last) then DigitsValue(s[..|s| - 1]) * 10 + (last as int - '0' as int)
      else DigitsValue(s[..|s| - 1])
  }

  /** The digits of s make a positive number exactly when one of them is not
      zero. */
  lemma {:induction false} DigitsValuePositive(s: string)
    ensures DigitsValue(s) > 0 <==> HasNonZeroDigit(s)
  {
    if s != [] {
      var p := s[..|s| - 1];
      DigitsValuePositive(p);
      if k :| 0 <= k < |p| && '1' <= p[k] <= '9' {
        assert s[k] == p[k];
      }
      if k :| 0 <= k < |s| && '1' <= s[k] <= '9' {
        if k < |p| {
          assert p[k] == s[k];
        }
      }
    }
  }

  /** Every character of the text is a digit or a dot exactly when the
      recursive scan says so. */
  lemma {:induction false} OnlyDigitsAndDotsIff(s: string)
    ensures OnlyDigitsAndDots(s) <==> AllDigitsOrDots(s)
  {
    if s != [] {
      var p := s[..|s| - 1];
      OnlyDigitsAndDotsIff(p);
      assert forall k :: 0 <= k < |p| ==> p[k] == s[k];
    }
  }

  /** The model of `!(isNaN(s) || s <= 0)`: s reads as an unsigned decimal
      literal with a non-zero digit. It accepts a text exactly when the text
      is made of digits and at most one dot and one of its digits is not zero:
      `"0"`, `"0.0"`, `"-1"`, `"1e3"` and `"abc"` are all rejected, `"0.5"` and
      `"7"` accepted. */
  predicate IsPositiveNumber(s: string): (r: bool)
    ensures r <==> AllDigitsOrDots(s) && DotCount(s) <= 1 && HasNonZeroDigit(s)
  {
    NumberTestClosedForm(s);
    IsUnsignedDecimal(s) && DigitsValue(s) > 0
  }

  /** The closed form of the number test, from the three recursive scans. */
  lemma NumberTestClosedForm(s: string)
    ensures IsUnsignedDecimal(s) && DigitsValue(s) > 0 <==>
      AllDigitsOrDots(s) && DotCount(s) <= 1 && HasNonZeroDigit(s)
  {
    DigitsValuePositive(s);
    OnlyDigitsAndDotsIff(s);
    if k :| 0 <= k < |s| && '1' <= s[k] <= '9' {
      DigitCountPositive(s, k);
    }
  }

  /** A digit anywhere in the text makes its digit count positive. */
  lemma {:induction false} DigitCountPositive(s: string, k: nat)
    requires k < |s| && IsDigit(s[k])
    ensures DigitCount(s) >= 1
  {
    if k < |s| - 1 {
      DigitCountPositive(s[..|s| - 1], k);
    }
  }
}
