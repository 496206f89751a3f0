/**
  The grammar of an N(m,k) literal, as the validator's regular expression
  `^([+-]?)(\d+)([.,](\d+))?$` states it, with a hand-written recogniser in
  place of the regular-expression engine.

  Deviations from the .NET engine that this recogniser does not reproduce:
  `\d` is read as the ASCII digits '0'..'9' only (.NET also accepts other
  Unicode decimal digits). The engine's treatment of `$`, which also matches
  just before one final '\n', IS reproduced (see `Match`).
*/
module NumberGrammar {

  datatype Option<+T> = None | Some(value: T)

  predicate IsDigit(c: char) { '0' <= c <= '9' }

  predicate IsSign(c: char) { c == '+' || c == '-' }

  predicate IsSeparator(c: char) { c == '.' || c == ',' }

  predicate AllDigits(s: string) { forall k :: 0 <= k < |s| ==> IsDigit(s[k]) }

  /**
    The capture groups of a successful match: group 1 is `sign`, group 2 is
    `intDigits`, group 3 is `separator + fracDigits` and group 4 is
    `fracDigits`. An optional group that took no part in the match reads as
    the empty string, as a .NET group's Value does.
  */
  datatype NumberMatch = NumberMatch(sign: string, intDigits: string, separator: string, fracDigits: string)

  /** The groups describe a string of the language: `[+-]? digit+ ([.,] digit+)?`. */
  predicate WellFormed(m: NumberMatch) {
    && (m.sign == "" || (|m.sign| == 1 && IsSign(m.sign[0])))
    && |m.intDigits| > 0 && AllDigits(m.intDigits)
    && ((m.separator == "" && m.fracDigits == "") ||
        (|m.separator| == 1 && IsSeparator(m.separator[0]) && |m.fracDigits| > 0 && AllDigits(m.fracDigits)))
  }

  /** The text the groups were matched from. */
  function Render(m: NumberMatch): string {
    m.sign + m.intDigits + m.separator + m.fracDigits
  }

  /** The end of the longest run of digits in `s` that starts at `i`. */
  function DigitRunEnd(s: string, i: nat): (j: nat)
    requires i <= |s|
    ensures i <= j <= |s|
    ensures forall k :: i <= k < j ==> IsDigit(s[k])
    ensures j < |s| ==> !IsDigit(s[j])
    decreases |s| - i
  {
    if i < |s| && IsDigit(s[i]) then DigitRunEnd(s, i + 1) else i
  }

  /**
    Matches all of `s` against the grammar: an optional sign, a greedy run of
    integer digits, then either the end of `s` or a separator followed by a
    run of digits that reaches the end. The grammar leaves no choice to
    backtrack over, so the greedy reading is the only one.
  */
  function MatchBody(s: string): (r: Option<NumberMatch>)
    ensures r.Some? ==> WellFormed(r.value) && Render(r.value) == s
  {
    var signEnd := if |s| > 0 && IsSign(s[0]) then 1 else 0;
    var intEnd := DigitRunEnd(s, signEnd);
    if intEnd == signEnd then None
    else if intEnd == |s| then
      assert s == s[..signEnd] + s[signEnd..intEnd];
      Some(NumberMatch(s[..signEnd], s[signEnd..intEnd], "", ""))
    else if !IsSeparator(s[intEnd]) then None
    else
      var fracEnd := DigitRunEnd(s, intEnd + 1);
      if fracEnd == intEnd + 1 || fracEnd < |s| then None
      else
        assert s == s[..signEnd] + s[signEnd..intEnd] + s[intEnd..intEnd + 1] + s[intEnd + 1..];
        Some(NumberMatch(s[..signEnd], s[signEnd..intEnd], s[intEnd..intEnd + 1], s[intEnd + 1..]))
  }

  /**
    The match the regular expression makes on `s`. Its `$` matches at the end
    of `s` or just before a final '\n', so one trailing newline is skipped.
  */
  function Match(s: string): (r: Option<NumberMatch>)
    ensures r.Some? ==> WellFormed(r.value) && (s == Render(r.value) || s == Render(r.value) + "\n")
  {
    if |s| > 0 && s[|s| - 1] == '\n' then MatchBody(s[..|s| - 1]) else MatchBody(s)
  }

  /** The recogniser finds every string of the language, and recovers its groups. */
  lemma MatchBodyComplete(m: NumberMatch)
    requires WellFormed(m)
    ensures MatchBody(Render(m)) == Some(m)
  {
    var s := Render(m);
    var signEnd := |m.sign|;
    var intEnd := signEnd + |m.intDigits|;
    assert s[..signEnd] == m.sign;
    assert s[signEnd..intEnd] == m.intDigits;
    assert (if |s| > 0 && IsSign(s[0]) then 1 else 0) == signEnd by {
      if m.sign == "" { assert s[0] == m.intDigits[0]; }
    }
    assert DigitRunEnd(s, signEnd) == intEnd by {
      assert forall k :: signEnd <= k < intEnd ==> s[k] == m.intDigits[k - signEnd];
      if intEnd < |s| { assert s[intEnd] == m.separator[0]; }
    }
    if m.separator != "" {
      var fracStart := intEnd + 1;
      assert s[intEnd..fracStart] == m.separator;
      assert s[fracStart..] == m.fracDigits;
      assert DigitRunEnd(s, fracStart) == |s| by {
        assert forall k :: fracStart <= k < |s| ==> s[k] == m.fracDigits[k - fracStart];
      }
    }
  }

  /** `Match` accepts the rendering of well-formed groups, with or without one trailing newline. */
  lemma MatchComplete(m: NumberMatch)
    requires WellFormed(m)
    ensures Match(Render(m)) == Some(m)
    ensures Match(Render(m) + "\n") == Some(m)
  {
    var s := Render(m);
    MatchBodyComplete(m);
    assert s[|s| - 1] != '\n' by {
      if m.separator == "" {
        assert s[|s| - 1] == m.intDigits[|m.intDigits| - 1];
      } else {
        assert s[|s| - 1] == m.fracDigits[|m.fracDigits| - 1];
      }
    }
    assert (s + "\n")[..|s + "\n"| - 1] == s;
  }

  /**
    The regular expression is unambiguous: a string of the language has one
    decomposition into groups.
  */
  lemma DecompositionUnique(m1: NumberMatch, m2: NumberMatch)
    requires WellFormed(m1) && WellFormed(m2)
    requires Render(m1) == Render(m2)
    ensures m1 == m2
  {
    MatchBodyComplete(m1);
    MatchBodyComplete(m2);
  }

  /** `s` and `t` differ at most in which separator character stands at a position. */
  predicate SameUpToSeparators(s: string, t: string) {
    |s| == |t| && forall k :: 0 <= k < |s| ==> s[k] == t[k] || (IsSeparator(s[k]) && IsSeparator(t[k]))
  }

  lemma DigitRunEndSeparatorInsensitive(s: string, t: string, i: nat)
    requires SameUpToSeparators(s, t) && i <= |s|
    ensures DigitRunEnd(s, i) == DigitRunEnd(t, i)
  {
  }

  /**
    Exchanging one separator character for the other changes neither whether
    the grammar matches nor the sign, integer and fractional groups.
  */
  lemma MatchBodySeparatorInsensitive(s: string, t: string)
    requires SameUpToSeparators(s, t)
    ensures MatchBody(s).Some? <==> MatchBody(t).Some?
    ensures MatchBody(s).Some? ==>
              && MatchBody(s).value.sign == MatchBody(t).value.sign
              && MatchBody(s).value.intDigits == MatchBody(t).value.intDigits
              && MatchBody(s).value.fracDigits == MatchBody(t).value.fracDigits
  {
    var signEnd := if |s| > 0 && IsSign(s[0]) then 1 else 0;
    if |s| > 0 {
      assert IsSign(s[0]) <==> IsSign(t[0]);
    }
    DigitRunEndSeparatorInsensitive(s, t, signEnd);
    var intEnd := DigitRunEnd(s, signEnd);
    assert s[..signEnd] == t[..signEnd];
    assert s[signEnd..intEnd] == t[signEnd..intEnd];
    if signEnd < intEnd < |s| {
      assert IsSeparator(s[intEnd]) <==> IsSeparator(t[intEnd]);
      if IsSeparator(s[intEnd]) {
        DigitRunEndSeparatorInsensitive(s, t, intEnd + 1);
        var fracEnd := DigitRunEnd(s, intEnd + 1);
        if fracEnd == |s| {
          assert s[intEnd + 1..] == t[intEnd + 1..];
        }
      }
    }
  }

  lemma MatchSeparatorInsensitive(s: string, t: string)
    requires SameUpToSeparators(s, t)
    ensures Match(s).Some? <==> Match(t).Some?
    ensures Match(s).Some? ==>
              && Match(s).value.sign == Match(t).value.sign
              && Match(s).value.intDigits == Match(t).value.intDigits
              && Match(s).value.fracDigits == Match(t).value.fracDigits
  {
    if |s| > 0 && s[|s| - 1] == '\n' {
      assert t[|t| - 1] == '\n';
      MatchBodySeparatorInsensitive(s[..|s| - 1], t[..|t| - 1]);
    } else {
      MatchBodySeparatorInsensitive(s, t);
    }
  }
}
