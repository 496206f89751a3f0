/**
  The scenarios of the validator's test fixture, one lemma per case and named
  after it: each builds the validator with `Create` and states the expected
  classification or constructor outcome.
*/
module NumberValidatorScenarios {
  import opened NumberGrammar
  import opened NumberValidation

  // Values the fixture expects to be accepted.

  lemma ForPositiveIfOnlyPositive()
    ensures Create(3, 2, true).Success? && Create(3, 2, true).value.IsValidNumber("1.23")
  {
    var m := NumberMatch("", "1", ".", "23");
    assert Render(m) == "1.23";
    IsValidNumberOnGroups(NumberValidator(3, 2, true), m);
  }

  lemma ForZeroIfOnlyPositive()
    ensures Create(3, 2, true).Success? && Create(3, 2, true).value.IsValidNumber("0.0")
  {
    var m := NumberMatch("", "0", ".", "0");
    assert Render(m) == "0.0";
    IsValidNumberOnGroups(NumberValidator(3, 2, true), m);
  }

  lemma IfPushingLimitsWithSign()
    ensures Create(4, 2, false).Success? && Create(4, 2, false).value.IsValidNumber("-1.23")
  {
    var m := NumberMatch("-", "1", ".", "23");
    assert Render(m) == "-1.23";
    IsValidNumberOnGroups(NumberValidator(4, 2, false), m);
  }

  lemma IfPointExceedsPrecisionButDigitsDont()
    ensures Create(3, 2, false).Success? && Create(3, 2, false).value.IsValidNumber("1.23")
  {
    var m := NumberMatch("", "1", ".", "23");
    assert Render(m) == "1.23";
    IsValidNumberOnGroups(NumberValidator(3, 2, false), m);
  }

  lemma IfCommaInsteadOfPoint()
    ensures Create(3, 2, false).Success? && Create(3, 2, false).value.IsValidNumber("1,23")
  {
    var m := NumberMatch("", "1", ",", "23");
    assert Render(m) == "1,23";
    IsValidNumberOnGroups(NumberValidator(3, 2, false), m);
  }

  // Strings outside the grammar.

  lemma IfPointIsNotLeadByDigits()
    ensures Create(3, 2, false).Success? && !Create(3, 2, false).value.IsValidNumber(".00")
  {
    RejectsMalformed(NumberValidator(3, 2, false), ".00");
  }

  lemma IfCommaIsNotLeadByDigits()
    ensures Create(2, 1, false).Success? && !Create(2, 1, false).value.IsValidNumber(",0")
  {
    RejectsMalformed(NumberValidator(2, 1, false), ",0");
  }

  lemma IfPointIsNotFollowedByDigits()
    ensures Create(3, 2, false).Success? && !Create(3, 2, false).value.IsValidNumber("-1.")
  {
    RejectsMalformed(NumberValidator(3, 2, false), "-1.");
  }

  lemma IfCommaIsNotFollowedByDigits()
    ensures Create(2, 1, false).Success? && !Create(2, 1, false).value.IsValidNumber("0,")
  {
    RejectsMalformed(NumberValidator(2, 1, false), "0,");
  }

  lemma ForBareSign()
    ensures Create(20, 19, false).Success? && !Create(20, 19, false).value.IsValidNumber("-")
  {
    RejectsMalformed(NumberValidator(20, 19, false), "-");
  }

  lemma ForNotNumbers()
    ensures Create(20, 19, false).Success? && !Create(20, 19, false).value.IsValidNumber("+Sample.Text")
  {
    RejectsMalformed(NumberValidator(20, 19, false), "+Sample.Text");
  }

  // Well-formed values over the precision budget, the scale bound or the sign policy.

  lemma IfPrecisionExceedsLimitWithLeadingZeroes()
    ensures Create(3, 2, true).Success? && !Create(3, 2, true).value.IsValidNumber("00.00")
  {
    var m := NumberMatch("", "00", ".", "00");
    assert Render(m) == "00.00";
    PrecisionBudget(NumberValidator(3, 2, true), m);
  }

  lemma IfPrecisionExceedsLimitWithPlusSign()
    ensures Create(3, 2, true).Success? && !Create(3, 2, true).value.IsValidNumber("+1.23")
  {
    var m := NumberMatch("+", "1", ".", "23");
    assert Render(m) == "+1.23";
    PrecisionBudget(NumberValidator(3, 2, true), m);
  }

  lemma IfPrecisionExceedsLimitWithMinusSign()
    ensures Create(3, 2, false).Success? && !Create(3, 2, false).value.IsValidNumber("-1.23")
  {
    var m := NumberMatch("-", "1", ".", "23");
    assert Render(m) == "-1.23";
    PrecisionBudget(NumberValidator(3, 2, false), m);
  }

  lemma ForPositiveIfPrecisionExceedsLimit()
    ensures Create(3, 2, true).Success? && !Create(3, 2, true).value.IsValidNumber("41.23")
  {
    var m := NumberMatch("", "41", ".", "23");
    assert Render(m) == "41.23";
    PrecisionBudget(NumberValidator(3, 2, true), m);
  }

  lemma IfScaleExceedsLimit()
    ensures Create(3, 2, true).Success? && !Create(3, 2, true).value.IsValidNumber("1.234")
  {
    var m := NumberMatch("", "1", ".", "234");
    assert Render(m) == "1.234";
    ScaleBound(NumberValidator(3, 2, true), m);
  }

  lemma ForNegativeIfOnlyPositive()
    ensures Create(3, 2, true).Success? && !Create(3, 2, true).value.IsValidNumber("-1.23")
  {
    var m := NumberMatch("-", "1", ".", "23");
    assert Render(m) == "-1.23";
    OnlyPositiveRejectsMinus(NumberValidator(3, 2, true), m);
  }

  /**
    The sign policy in isolation: "-1.2" fits N(4,2), so only the policy
    decides it; a '+' sign passes the policy.
  */
  lemma SignPolicyAlone()
    ensures Create(4, 2, false).Success? && Create(4, 2, false).value.IsValidNumber("-1.2")
    ensures Create(4, 2, true).Success? && !Create(4, 2, true).value.IsValidNumber("-1.2")
    ensures Create(4, 2, true).Success? && Create(4, 2, true).value.IsValidNumber("+1.2")
  {
    var minus, plus := NumberMatch("-", "1", ".", "2"), NumberMatch("+", "1", ".", "2");
    assert Render(minus) == "-1.2" && Render(plus) == "+1.2";
    IsValidNumberOnGroups(NumberValidator(4, 2, false), minus);
    OnlyPositiveRejectsMinus(NumberValidator(4, 2, true), minus);
    IsValidNumberOnGroups(NumberValidator(4, 2, true), plus);
  }

  /** One trailing newline is passed over, as the regular expression's `$` does. */
  lemma TrailingNewlineIgnored()
    ensures Create(3, 2, false).Success? && Create(3, 2, false).value.IsValidNumber("1.23\n")
  {
    var m := NumberMatch("", "1", ".", "23");
    assert Render(m) + "\n" == "1.23\n";
    IsValidNumberOnGroups(NumberValidator(3, 2, false), m);
  }

  /** A second trailing newline is not. */
  lemma SecondTrailingNewlineRejected()
    ensures Create(3, 2, false).Success? && !Create(3, 2, false).value.IsValidNumber("1.23\n\n")
  {
    var s := "1.23\n\n";
    assert s[..|s| - 1] == "1.23\n";
    assert DigitRunEnd("1.23\n", 2) == 4;
    RejectsMalformed(NumberValidator(3, 2, false), s);
  }

  /** Configurations the fixture expects to construct, and those it expects to throw. */
  lemma ConstructorOutcomes()
    ensures Create(1, 0, true).Success? && Create(3, 1, true).Success?
    ensures Create(-1, 2, true) == Failure(NonPositivePrecision)
    ensures Create(7, 7, true) == Failure(ScaleOutOfRange)
    ensures Create(3, 4, true) == Failure(ScaleOutOfRange)
    ensures Create(1, -2, true) == Failure(ScaleOutOfRange)
    ensures Create(5).Success? && Create(5).value == NumberValidator(5, 0, false)
  {
  }
}
