/**
  A validator for decimal literals in the fixed-width numeric format N(m,k):
  at most m symbols counting the sign (when one is written) and every integer
  and fractional digit, but not the decimal separator; at most k fractional
  digits; optionally no minus sign.

  The configuration is immutable once built (all fields of the validator are
  readonly), so it is a datatype value; the constructor that throws on a bad
  configuration is `Create`, which returns a `Result`.
*/
module NumberValidation {
  import opened NumberGrammar

  datatype Result<+T, +E> = Success(value: T) | Failure(error: E)

  /** The two configuration errors the constructor raises, in the order it checks them. */
  datatype ConfigError = NonPositivePrecision | ScaleOutOfRange

  datatype NumberValidator = NumberValidator(precision: int, scale: int, onlyPositive: bool)
  {
    /** The configuration invariant every constructed validator satisfies. */
    predicate Valid() {
      precision > 0 && 0 <= scale < precision
    }

    /**
      The groups of a match fit the format: sign length plus integer and
      fractional digit counts within `precision`, fractional digits within
      `scale`, and no minus sign when only positive values are allowed.
      A '+' sign takes a unit of precision just as a '-' does.
    */
    predicate Admits(m: NumberMatch) {
      && |m.sign| + |m.intDigits| + |m.fracDigits| <= precision
      && |m.fracDigits| <= scale
      && !(onlyPositive && m.sign == "-")
    }

    /**
      The declarative meaning of validity: `value` is, up to one trailing
      newline, the text of a decomposition in the grammar that the format admits.
    */
    ghost predicate Conforms(value: string) {
      exists m :: WellFormed(m) && (value == Render(m) || value == Render(m) + "\n") && Admits(m)
    }

    /**
      Classifies `value`: empty or not matching the grammar gives false; then
      the precision budget, the scale bound and the sign policy are checked on
      the lengths of the matched groups.
    */
    function IsValidNumber(value: string): (r: bool)
      ensures r <==> Conforms(value)
    {
      ConformsViaMatch(this, value);
      if |value| == 0 then false
      else match Match(value)
        case None => false
        case Some(m) =>
          var intPart := |m.sign| + |m.intDigits|;
          var fracPart := |m.fracDigits|;
          if intPart + fracPart > precision || fracPart > scale then false
          else if onlyPositive && m.sign == "-" then false
          else true
    }
  }

  /**
    The constructor: stores the three settings, then fails when precision is
    not positive, or else when scale is negative or not below precision.
  */
  function Create(precision: int, scale: int := 0, onlyPositive: bool := false): (r: Result<NumberValidator, ConfigError>)
    ensures r.Success? <==> precision > 0 && 0 <= scale < precision
    ensures r.Success? ==> r.value.Valid()
    ensures r.Success? ==>
              r.value.precision == precision && r.value.scale == scale && r.value.onlyPositive == onlyPositive
    ensures r == Failure(NonPositivePrecision) <==> precision <= 0
    ensures r == Failure(ScaleOutOfRange) <==> precision > 0 && (scale < 0 || scale >= precision)
  {
    if precision <= 0 then Failure(NonPositivePrecision)
    else if scale < 0 || scale >= precision then Failure(ScaleOutOfRange)
    else Success(NumberValidator(precision, scale, onlyPositive))
  }

  /** Validity is decided by the one match the grammar allows. */
  lemma ConformsViaMatch(v: NumberValidator, value: string)
    ensures v.Conforms(value) <==> Match(value).Some? && v.Admits(Match(value).value)
  {
    if v.Conforms(value) {
      var m :| WellFormed(m) && (value == Render(m) || value == Render(m) + "\n") && v.Admits(m);
      MatchComplete(m);
    }
  }

  /** On the text of well-formed groups, the result is exactly whether the format admits them. */
  lemma IsValidNumberOnGroups(v: NumberValidator, m: NumberMatch)
    requires WellFormed(m)
    ensures v.IsValidNumber(Render(m)) == v.Admits(m)
    ensures v.IsValidNumber(Render(m) + "\n") == v.Admits(m)
  {
    MatchComplete(m);
    ConformsViaMatch(v, Render(m));
    ConformsViaMatch(v, Render(m) + "\n");
  }

  /** A string outside the grammar is rejected, whatever the configuration. */
  lemma RejectsMalformed(v: NumberValidator, value: string)
    requires Match(value).None?
    ensures !v.IsValidNumber(value)
  {
    ConformsViaMatch(v, value);
  }

  /** The empty string never validates. */
  lemma RejectsEmpty(v: NumberValidator)
    ensures !v.IsValidNumber("")
  {
    assert Match("") == None;
  }

  /**
    Precision budget: sign length (for '+' as well as '-') plus every integer
    digit (leading zeros included) plus every fractional digit over
    `precision` is rejected; the separator takes no budget.
  */
  lemma PrecisionBudget(v: NumberValidator, m: NumberMatch)
    requires WellFormed(m)
    requires |m.sign| + |m.intDigits| + |m.fracDigits| > v.precision
    ensures !v.IsValidNumber(Render(m))
  {
    IsValidNumberOnGroups(v, m);
  }

  /** Scale bound: more than `scale` fractional digits is rejected. */
  lemma ScaleBound(v: NumberValidator, m: NumberMatch)
    requires WellFormed(m)
    requires |m.fracDigits| > v.scale
    ensures !v.IsValidNumber(Render(m))
  {
    IsValidNumberOnGroups(v, m);
  }

  /** With only positive values allowed, a leading '-' is rejected. */
  lemma OnlyPositiveRejectsMinus(v: NumberValidator, m: NumberMatch)
    requires WellFormed(m) && v.onlyPositive && m.sign == "-"
    ensures !v.IsValidNumber(Render(m))
  {
    IsValidNumberOnGroups(v, m);
  }

  /**
    The sign policy rejects nothing but a '-': an unsigned or '+'-signed value
    is classified alike with and without it.
  */
  lemma OnlyPositiveIgnoresOtherSigns(precision: int, scale: int, m: NumberMatch)
    requires WellFormed(m) && m.sign != "-"
    ensures NumberValidator(precision, scale, true).IsValidNumber(Render(m))
         == NumberValidator(precision, scale, false).IsValidNumber(Render(m))
  {
    IsValidNumberOnGroups(NumberValidator(precision, scale, true), m);
    IsValidNumberOnGroups(NumberValidator(precision, scale, false), m);
  }

  /** Which of '.' and ',' is written as the separator never changes the result. */
  lemma SeparatorIrrelevant(v: NumberValidator, s: string, t: string)
    requires SameUpToSeparators(s, t)
    ensures v.IsValidNumber(s) == v.IsValidNumber(t)
  {
    MatchSeparatorInsensitive(s, t);
    ConformsViaMatch(v, s);
    ConformsViaMatch(v, t);
  }

  /** `s` with every '.' written as ','. */
  function PointsToCommas(s: string): (r: string)
    ensures SameUpToSeparators(s, r)
    ensures forall k :: 0 <= k < |r| ==> r[k] != '.'
  {
    seq(|s|, k requires 0 <= k < |s| => if s[k] == '.' then ',' else s[k])
  }

  /** Replacing '.' with ',' throughout never changes the result. */
  lemma PointAndCommaAlike(v: NumberValidator, s: string)
    ensures v.IsValidNumber(PointsToCommas(s)) == v.IsValidNumber(s)
  {
    SeparatorIrrelevant(v, s, PointsToCommas(s));
  }
}
