# NumberValidator in Dafny

A model of the `NumberValidator` of the HomeExercises project. It decides whether
a string is a decimal literal in the fixed-width numeric format N(m,k):

- m (`precision`) is the largest number of symbols allowed. It counts the sign
  when one is written and every integer and fractional digit. The decimal
  separator does not count.
- k (`scale`) is the largest number of fractional digits allowed.
- With `onlyPositive` set, a value with a minus sign is refused.

The model has three modules:

- `NumberGrammar` (NumberGrammar.dfy) replaces the validator's regular expression
  `^([+-]?)(\d+)([.,](\d+))?$` with a hand-written recogniser.
  - `NumberMatch` holds the capture groups: sign, integer digits, separator and
    fractional digits. An optional group that did not take part reads as `""`,
    as in .NET.
  - `WellFormed` and `Render` give the grammar declaratively.
  - `Match` is the recogniser. It is proved sound and complete against
    `WellFormed`/`Render`, and the decomposition it finds is proved unique.
- `NumberValidation` (NumberValidator.dfy) holds the validator.
  - The validator is an immutable datatype `NumberValidator(precision, scale,
    onlyPositive)`, because its C# fields are all `readonly`. `Valid()` is its
    configuration invariant.
  - The throwing constructor becomes `Create`. It returns
    `Failure(NonPositivePrecision)` or `Failure(ScaleOutOfRange)` in the order the
    constructor checks them. `scale` defaults to 0 and `onlyPositive` to false,
    as in C#.
  - `IsValidNumber` follows the early-return checks of the C# method. Its
    contract says the result is true exactly when the string is, up to one
    trailing newline, the text of a well-formed decomposition that the format
    admits (`Conforms`, `Admits`).
- `NumberValidatorScenarios` (NumberValidatorScenarios.dfy) restates each case of
  the C# test fixture as a lemma named after the case.

The code, not the comment above it, decides how the sign is counted. The
comment at HomeExercises/NumberValidatorTests.cs:86-87 says the sign counts
toward m only for a negative number. Line 98 counts a `+` sign as well, and the
fixture case on line 28 expects exactly that. The model follows the code:
`Admits` charges `|sign|` for either sign.

`IsValidNumber` is a function of an immutable value. Repeated calls on the same
validator and string therefore give the same result by construction.

## Model

| member | source | states |
|---|---|---|
| `NumberGrammar.DigitRunEnd` | HomeExercises/NumberValidatorTests.cs:79 | the greedy `\d+` run from a position: every character it covers is a digit, and the character after it, if any, is not |
| `NumberGrammar.MatchBody` | HomeExercises/NumberValidatorTests.cs:79 | when the anchored pattern matches, the groups it returns are well formed and concatenate back to the whole input |
| `NumberGrammar.Match` | HomeExercises/NumberValidatorTests.cs:79 | when the match succeeds, the groups are well formed and the input is their text, possibly followed by one newline (what .NET's `$` allows) |
| `NumberGrammar.MatchBodyComplete` | HomeExercises/NumberValidatorTests.cs:79 | every string of the language `[+-]? digit+ ([.,] digit+)?` is matched, and the match recovers exactly the groups it was built from |
| `NumberGrammar.MatchComplete` | HomeExercises/NumberValidatorTests.cs:79 | a well-formed text matches with the same groups, with or without one trailing newline |
| `NumberGrammar.DecompositionUnique` | HomeExercises/NumberValidatorTests.cs:79 | the pattern is unambiguous: two well-formed group tuples with the same text are equal, so the group lengths read on lines 98-100 are well defined |
| `NumberGrammar.MatchBodySeparatorInsensitive` | HomeExercises/NumberValidatorTests.cs:79 | swapping '.' and ',' at separator positions keeps whether the pattern matches, and keeps the sign, integer and fractional groups |
| `NumberGrammar.MatchSeparatorInsensitive` | HomeExercises/NumberValidatorTests.cs:79 | the same, also when a trailing newline is skipped |
| `NumberValidation.Create` | HomeExercises/NumberValidatorTests.cs:70-80 | construction succeeds exactly when precision > 0 and 0 <= scale < precision; the result stores the three settings and satisfies `Valid`; it fails with NonPositivePrecision exactly when precision <= 0, and with ScaleOutOfRange exactly when precision > 0 and scale is out of [0, precision) |
| `NumberValidation.NumberValidator.IsValidNumber` | HomeExercises/NumberValidatorTests.cs:82-108 | true exactly when the value is, up to one trailing newline, the text of a well-formed sign/integer/fraction decomposition within the precision budget and the scale bound, and not a minus sign under onlyPositive |
| `NumberValidation.ConformsViaMatch` | HomeExercises/NumberValidatorTests.cs:93-107 | the declarative meaning holds exactly when the one match found passes the bounds and the sign policy |
| `NumberValidation.IsValidNumberOnGroups` | HomeExercises/NumberValidatorTests.cs:98-107 | on the text of well-formed groups, with or without a trailing newline, the result equals the conjunction of the precision budget, the scale bound and the sign policy |
| `NumberValidation.RejectsMalformed` | HomeExercises/NumberValidatorTests.cs:93-95 | a string the pattern does not match is rejected under every configuration |
| `NumberValidation.RejectsEmpty` | HomeExercises/NumberValidatorTests.cs:90-91 | the empty string is rejected under every configuration |
| `NumberValidation.PrecisionBudget` | HomeExercises/NumberValidatorTests.cs:98-103 | sign length (for '+' as well as '-') plus integer digits (leading zeros included) plus fractional digits above precision is rejected; the separator is not counted |
| `NumberValidation.ScaleBound` | HomeExercises/NumberValidatorTests.cs:100-103 | more fractional digits than scale is rejected |
| `NumberValidation.OnlyPositiveRejectsMinus` | HomeExercises/NumberValidatorTests.cs:105-106 | with onlyPositive set, a well-formed value with a '-' sign is rejected |
| `NumberValidation.OnlyPositiveIgnoresOtherSigns` | HomeExercises/NumberValidatorTests.cs:105-107 | for an unsigned or '+'-signed value, onlyPositive does not change the result |
| `NumberValidation.SeparatorIrrelevant` | HomeExercises/NumberValidatorTests.cs:79 | two strings that differ only in which separator character stands at some positions get the same result |
| `NumberValidation.PointAndCommaAlike` | HomeExercises/NumberValidatorTests.cs:79 | writing every '.' as ',' never changes the result |
| `NumberValidatorScenarios.ForPositiveIfOnlyPositive` | HomeExercises/NumberValidatorTests.cs:10 | (3,2,true) accepts "1.23" |
| `NumberValidatorScenarios.ForZeroIfOnlyPositive` | HomeExercises/NumberValidatorTests.cs:11 | (3,2,true) accepts "0.0" |
| `NumberValidatorScenarios.IfPushingLimitsWithSign` | HomeExercises/NumberValidatorTests.cs:12 | (4,2,false) accepts "-1.23", sign included in the budget of 4 |
| `NumberValidatorScenarios.IfPointExceedsPrecisionButDigitsDont` | HomeExercises/NumberValidatorTests.cs:13 | (3,2,false) accepts "1.23": the separator takes no precision |
| `NumberValidatorScenarios.IfCommaInsteadOfPoint` | HomeExercises/NumberValidatorTests.cs:14 | (3,2,false) accepts "1,23" |
| `NumberValidatorScenarios.IfPointIsNotLeadByDigits` | HomeExercises/NumberValidatorTests.cs:21 | (3,2,false) rejects ".00" |
| `NumberValidatorScenarios.IfCommaIsNotLeadByDigits` | HomeExercises/NumberValidatorTests.cs:22 | (2,1,false) rejects ",0" |
| `NumberValidatorScenarios.IfPointIsNotFollowedByDigits` | HomeExercises/NumberValidatorTests.cs:23 | (3,2,false) rejects "-1." |
| `NumberValidatorScenarios.IfCommaIsNotFollowedByDigits` | HomeExercises/NumberValidatorTests.cs:24 | (2,1,false) rejects "0," |
| `NumberValidatorScenarios.ForBareSign` | HomeExercises/NumberValidatorTests.cs:25 | (20,19,false) rejects "-" |
| `NumberValidatorScenarios.ForNotNumbers` | HomeExercises/NumberValidatorTests.cs:26 | (20,19,false) rejects "+Sample.Text" |
| `NumberValidatorScenarios.IfPrecisionExceedsLimitWithLeadingZeroes` | HomeExercises/NumberValidatorTests.cs:27 | (3,2,true) rejects "00.00": leading zeros count |
| `NumberValidatorScenarios.IfPrecisionExceedsLimitWithPlusSign` | HomeExercises/NumberValidatorTests.cs:28 | (3,2,true) rejects "+1.23": a '+' sign counts |
| `NumberValidatorScenarios.IfPrecisionExceedsLimitWithMinusSign` | HomeExercises/NumberValidatorTests.cs:29 | (3,2,false) rejects "-1.23" |
| `NumberValidatorScenarios.ForPositiveIfPrecisionExceedsLimit` | HomeExercises/NumberValidatorTests.cs:30 | (3,2,true) rejects "41.23" |
| `NumberValidatorScenarios.IfScaleExceedsLimit` | HomeExercises/NumberValidatorTests.cs:31 | (3,2,true) rejects "1.234" |
| `NumberValidatorScenarios.ForNegativeIfOnlyPositive` | HomeExercises/NumberValidatorTests.cs:32 | (3,2,true) rejects "-1.23" |
| `NumberValidatorScenarios.SignPolicyAlone` | HomeExercises/NumberValidatorTests.cs:105-106 | "-1.2" fits N(4,2), so it is accepted without onlyPositive and rejected with it; "+1.2" is accepted with it |
| `NumberValidatorScenarios.TrailingNewlineIgnored` | HomeExercises/NumberValidatorTests.cs:79 | (3,2,false) accepts "1.23\n", because `$` matches before a final newline |
| `NumberValidatorScenarios.SecondTrailingNewlineRejected` | HomeExercises/NumberValidatorTests.cs:79 | (3,2,false) rejects "1.23\n\n" |
| `NumberValidatorScenarios.ConstructorOutcomes` | HomeExercises/NumberValidatorTests.cs:39-53 | (1,0) and (3,1) construct; (-1,2) fails on precision; (7,7), (3,4) and (1,-2) fail on scale; the defaults give scale 0 and onlyPositive false |

## Left out

- The NUnit/FluentAssertions test harness (`NumberValidatorTests`) is not modelled as code. Its cases are the lemmas of `NumberValidatorScenarios`.
- The .NET regular-expression engine is not modelled. `Match` recognises the same pattern by hand. `RegexOptions.IgnoreCase` has no effect because the pattern has no letters.
- NumberGrammar.Match: reads `\d` as the ASCII digits '0'..'9' only. .NET also matches other Unicode decimal digits, so values written with them are rejected here but accepted by the source.
- A null string is not modelled, because Dafny strings cannot be null. The empty-string half of `string.IsNullOrEmpty` is modelled (`RejectsEmpty`).
- Exception types and message texts are not modelled. The two `ArgumentException`s become the two `ConfigError` values.
- The constructor assigns the fields before it throws. That order is not observable, because no object escapes a throwing constructor, so `Create` builds the value only on success.
- C# `int` width is not modelled for `precision` and `scale`. They are only compared, never computed with. The group-length sum on line 102 is at most the string's length, so it cannot overflow.
- Concurrency is not modelled. The validator holds no mutable state.
