/** `PasswordValidator.isValid`: a null password is invalid; any other is
    valid exactly when the configured pattern matches the whole of it, and a
    mismatch replaces the default violation by the configured message.

    The regular-expression engine is not modelled: a pattern is a predicate
    that decides whether it matches a whole string, as Java's
    `String.matches` does. Two predicates give the patterns the validator's
    tests configure. */
module Validation {
  import opened Wrappers
  import opened Text

  type Pattern = string -> bool

  /** The boolean `isValid` returns. */
  predicate Accepts(pattern: Pattern, value: Option<string>) {
    value.Some? && pattern(value.value)
  }

  /** The part of the validation context `isValid` can change. */
  class ConstraintValidatorContext {
    var defaultConstraintViolation: bool
    var violations: seq<string>

    constructor ()
      ensures defaultConstraintViolation && violations == []
    {
      defaultConstraintViolation := true;
      violations := [];
    }

    method DisableDefaultConstraintViolation()
      modifies this
      ensures !defaultConstraintViolation && violations == old(violations)
    {
      defaultConstraintViolation := false;
    }

    /** `buildConstraintViolationWithTemplate(template).addConstraintViolation()`. */
    method AddConstraintViolation(template: string)
      modifies this
      ensures violations == old(violations) + [template]
      ensures defaultConstraintViolation == old(defaultConstraintViolation)
    {
      violations := violations + [template];
    }
  }

  class PasswordValidator {
    const pattern: Pattern
    const message: string

    constructor (pattern: Pattern, message: string)
      ensures this.pattern == pattern && this.message == message
    {
      this.pattern := pattern;
      this.message := message;
    }

    method IsValid(value: Option<string>, context: ConstraintValidatorContext) returns (valid: bool)
      modifies context
      ensures valid == Accepts(pattern, value)
      ensures value.Some? && !valid ==>
                !context.defaultConstraintViolation && context.violations == old(context.violations) + [message]
      ensures !(value.Some? && !valid) ==>
                context.defaultConstraintViolation == old(context.defaultConstraintViolation)
                && context.violations == old(context.violations)
    {
      if value.None? {
        return false;
      }
      var matches := pattern(value.value);
      if !matches {
        context.DisableDefaultConstraintViolation();
        context.AddConstraintViolation(message);
      }
      valid := matches;
    }
  }

  /** Java's line terminators, which `.` does not match by default. */
  predicate IsLineTerminator(c: char) {
    c == '\n' || c == '\r' || c == '\U{0085}' || c == '\U{2028}' || c == '\U{2029}'
  }

  /** The pattern `.*`. */
  predicate DotStar(s: string) {
    forall i :: 0 <= i < |s| ==> !IsLineTerminator(s[i])
  }

  /** `\w`: an ASCII letter, digit or underscore. */
  predicate IsWordChar(c: char) {
    ('a' <= c <= 'z') || ('A' <= c <= 'Z') || IsDigit(c) || c == '_'
  }

  predicate AllWordChars(s: string) {
    forall i :: 0 <= i < |s| ==> IsWordChar(s[i])
  }

  /** The pattern `\w+\d+!`, read literally: one or more word characters, then
      one or more digits, then '!'. */
  predicate WordDigitsBang(s: string) {
    && |s| >= 3 && s[|s| - 1] == '!'
    && exists k :: 1 <= k < |s| - 1 && AllWordChars(s[..k]) && AllDigits(s[k..|s| - 1])
  }

  /** Since digits are word characters, `\w+\d+!` matches exactly the strings
      of two or more word characters ending in a digit, followed by '!'. */
  lemma WordDigitsBangIff(s: string)
    ensures WordDigitsBang(s) <==>
              |s| >= 3 && s[|s| - 1] == '!' && AllWordChars(s[..|s| - 1]) && IsDigit(s[|s| - 2])
  {
    if |s| >= 3 && s[|s| - 1] == '!' && AllWordChars(s[..|s| - 1]) && IsDigit(s[|s| - 2]) {
      var k := |s| - 2;
      assert AllWordChars(s[..k]) by {
        forall i | 0 <= i < k ensures IsWordChar(s[..k][i]) {
          assert s[..k][i] == s[..|s| - 1][i];
        }
      }
      assert AllDigits(s[k..|s| - 1]) by {
        assert s[k..|s| - 1] == [s[|s| - 2]];
      }
    }
    if WordDigitsBang(s) {
      var k :| 1 <= k < |s| - 1 && AllWordChars(s[..k]) && AllDigits(s[k..|s| - 1]);
      var w := s[..|s| - 1];
      forall i | 0 <= i < |w| ensures IsWordChar(w[i]) {
        if i < k {
          assert w[i] == s[..k][i];
        } else {
          assert w[i] == s[k..|s| - 1][i - k];
        }
      }
      assert s[|s| - 2] == s[k..|s| - 1][|s| - 2 - k];
    }
  }

  /** The validator's tests: null is rejected and leaves the context alone;
      under `.*` the empty password is valid; under `\w+\d+!` "Valid123!" is
      valid and "InvalidPassword" is not. */
  lemma ValidatorTestCases()
    ensures !Accepts(DotStar, None) && !Accepts(WordDigitsBang, None)
    ensures Accepts(DotStar, Some(""))
    ensures Accepts(WordDigitsBang, Some("Valid123!"))
    ensures !Accepts(WordDigitsBang, Some("InvalidPassword"))
  {
    WordDigitsBangIff("Valid123!");
    WordDigitsBangIff("InvalidPassword");
    assert "Valid123!"[..8] == "Valid123";
    assert "InvalidPassword"[14] == 'd';
  }
}
