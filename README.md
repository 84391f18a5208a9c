# Dexter core, modelled in Dafny

Dexter is a Discord bot. This project models the parts of it that compute
something and proves what they promise. It does not model Discord,
databases or files.

- **The `math` command's evaluator** (`math_eval.dfy`):
  - the `MathResult` accumulator: error flag and text, a verbose trace kept
    as two parallel lists, and a capped dice summary;
  - the parenthesis pre-pass and `Simplify`;
  - the precedence tiers that split an expression at its rightmost
    operator;
  - dice rolls (`Roll`) and `Factorial`.
- **English helpers of `LanguageHelper`** (`language.dfy`): articles,
  plurals, ordinals, possessives, case matching and term-tag parsing.
- **The term randomiser** (`templates.dfy`): `RandomizePredicate` and the
  per-bank cache `TermClass`.
- **Time zones** (`timezones.dfy`): offset parsing
  (`TimeZoneData.Parse`) and both `SearchTimeZone` rankings.
- **Link extraction** (`hyperlinks.dfy`): `GetHyperLinks` and
  `CheckForLinks`.
- **Daylight-saving rules of a user profile** (`daylight.dfy`): `DayInYear`
  and `DaylightShiftRules`, over a proleptic Gregorian calendar written
  out here.
- **Permission level, Patreon tier and the user tag** (`permissions.dfy`).
- **Levelling** (`leveling.dfy`): the role difference, voice and text
  experience grants, and text cooldowns, as a `LevelingService` class with
  a grant ledger.
- **The leaderboard** (`leaderboard.dfy`): range check, rank window, and
  item rendering.
- **The custom-command table** (`custom_commands.dfy`): the table itself,
  the `cc` command, its approval callbacks and `ccedit`, as classes over
  the table's rows.

`common.dfy` holds the .NET behaviour the rest relies on:

- 32-bit integers and the cast of a double to `int`;
- C#'s truncating `/` and `%`;
- decimal text and `int.Parse`;
- case mapping and `string.Replace`;
- `Random`, modelled as an injected stream of draws (class `Rng`);
- `List.Sort`.

A thrown exception is the `Thrown` case of `Outcome`, named by its .NET
type. A loop that never ends is the `Hangs` case (`Diverges` in the
evaluator).

## Model

| member | source | states |
|---|---|---|
| Common.Rng.Next | Dexter/Helpers/LanguageHelper.cs:169 | `Random.Next(n)` consumes one draw and returns a number below `n`, or 0 when `n` is 0 |
| Common.Rng.NextRange | Dexter/Services/LevelingService.cs:88 | `Random.Next(min, max)` consumes one draw and returns a number in [min, max), or `min` when the two are equal |
| Common.Sort | Dexter/Commands/LevelingCommands/LeaderboardCommand.cs:47-48 | `List.Sort` with a comparison returns a permutation of the list, sorted by that comparison |
| Common.InsertSorted | Dexter/Commands/LevelingCommands/LeaderboardCommand.cs:47-48 | inserting into a sorted list keeps it sorted and adds exactly that element |
| Common.TruncRem | Dexter/Databases/UserProfiles/UserProfile.cs:264 | C#'s `%`: `a == (a / b) * b + r` with truncating division, `\|r\| < \|b\|`, and `r` has the sign of `a` |
| Common.TruncDiv | Dexter/Databases/UserProfiles/UserProfile.cs:264 | C#'s `/` on integers agrees with floor division for a non-negative dividend and a positive divisor |
| Common.Wrap32 | Dexter/Commands/LevelingCommands/LeaderboardCommand.cs:36 | unchecked `int` arithmetic: the result is an Int32 congruent to the exact value modulo 2^32, and equal to it when it fits |
| Common.CastToInt32 | Dexter/Commands/UtilityCommands/MathCommand.cs:527 | the `(int)` cast keeps a value that fits in an Int32 and gives `int.MinValue` otherwise |
| Common.Trunc | Dexter/Commands/UtilityCommands/MathCommand.cs:527 | truncation toward zero: the integer lies within 1 of the operand, on the side of zero |
| Common.ParseInt32 | Dexter/Helpers/LanguageHelper.cs:131 | `int.TryParse` succeeds only with an Int32, and fails on the empty string |
| Common.ParseInt32OfIntToString | Dexter/Helpers/LanguageHelper.cs:131 | `int.TryParse` reads back the decimal text of every Int32 |
| Common.IntToString | Dexter/Helpers/LanguageHelper.cs:300 | the decimal text is non-empty and starts with `-` exactly for a negative number |
| Common.IndexOf | Dexter/Helpers/LanguageHelper.cs:172 | `IndexOf(char)`: -1, or a position holding the character with none before it |
| Common.IndexOfMissing | Dexter/Helpers/LanguageHelper.cs:593-599 | `IndexOf` is -1 exactly when the character is absent |
| Common.ToLower | Dexter/Commands/CustomCommands/CustomCommand.cs:70 | `ToLower` keeps the length and maps every character on its own: an upper-case letter becomes lower case and any other character is kept (ASCII letters only, see Left out) |
| Common.ToUpper | Dexter/Helpers/LanguageHelper.cs:288 | `ToUpper` keeps the length and maps every character on its own: a lower-case letter becomes upper case and any other character is kept (ASCII letters only, see Left out) |
| MathEval.MathResult.constructor | Dexter/Commands/UtilityCommands/MathCommand.cs:428-436 | a new accumulator has both flags down, a zero result, an empty error text, an empty trace and no dice |
| MathEval.NewMathResult | Dexter/Commands/UtilityCommands/MathCommand.cs:438-440 | the constructor evaluates the argument with its spaces removed and neutral value 1: for every argument the outcome, error flag and draws are those of `Process`, the pre-pass `ResolveFrom` followed by the reference evaluator `EvaluateTerm`; a double outcome is stored as `Result` |
| MathEval.MathResult.ThrowError | Dexter/Commands/UtilityCommands/MathCommand.cs:442-446 | appends a newline and the message to `Error`, raises `ErrorFlag`, returns 1, and only adds to the journal |
| MathEval.MathResult.ThrowVerboseError | Dexter/Commands/UtilityCommands/MathCommand.cs:448-453 | as `ThrowError`, and also raises `VerboseFlag` |
| MathEval.MathResult.Echo | Dexter/Commands/UtilityCommands/MathCommand.cs:455-458 | appends the message to `Verbose` and the stack to `VerboseStack` together, so the two lists keep equal lengths |
| MathEval.MathResult.ToString | Dexter/Commands/UtilityCommands/MathCommand.cs:460-469 | empty unless `VerboseFlag` is up; otherwise the trace text of the paired messages and stacks |
| MathEval.TraceTextAppend | Dexter/Commands/UtilityCommands/MathCommand.cs:460-469 | the trace of one more echoed message is the old trace followed by that message's line |
| MathEval.ExtendsTransitive | Dexter/Commands/UtilityCommands/MathCommand.cs:442-458 | the journal only grows: flags once raised stay raised, and the error text and the trace are only appended to, across any chain of calls |
| MathEval.MathResult.NewDice | Dexter/Commands/UtilityCommands/MathCommand.cs:471-478 | counts the die, appends `d{faces}:` for the first 8 dice, `...` exactly at the 9th, and nothing after |
| MathEval.MathResult.NewRoll | Dexter/Commands/UtilityCommands/MathCommand.cs:480-484 | appends the roll to the summary unless more than 8 dice were started |
| MathEval.MathResult.EndDice | Dexter/Commands/UtilityCommands/MathCommand.cs:486-490 | closes the summary line (last character dropped, optional `...`, newline) unless more than 8 dice were started |
| MathEval.CommasToSemicolons | Dexter/Commands/UtilityCommands/MathCommand.cs:497-508 | same length; a comma at index 1 or later and at depth 0 becomes `;`, and every other character is kept |
| MathEval.SemicolonsKeepParens | Dexter/Commands/UtilityCommands/MathCommand.cs:497-508 | the comma rewrite keeps every parenthesis |
| MathEval.ValueLiteral | Dexter/Commands/UtilityCommands/MathCommand.cs:520 | the literal starts with `*` iff a digit precedes the group, then `_` for a negative value or a space otherwise |
| MathEval.SimplifyValue | Dexter/Commands/UtilityCommands/MathCommand.cs:514-520 | the text before the group and the text after it are kept around the literal of the group's value |
| MathEval.ParenCountSimplified | Dexter/Commands/UtilityCommands/MathCommand.cs:514-520 | replacing a group by its value removes all of its parentheses |
| MathEval.Simplify | Dexter/Commands/UtilityCommands/MathCommand.cs:493-521 | a group with a comma becomes `Left + "[" + semicolons + "]" + Right`; a group without parentheses becomes the literal of its value under `Evaluate`, NaN included, or stops with its exception, the error flag and draws following `Evaluate`; a rewrite always has fewer parentheses |
| MathEval.FindClose | Dexter/Commands/UtilityCommands/MathCommand.cs:211-230 | the index of the first `)` (`IndexOf`, or -1), and the stack with every `(` before it pushed (`ScanStack`) |
| MathEval.FirstCloseIs | Dexter/Commands/UtilityCommands/MathCommand.cs:211-215 | an index with no `)` before it, holding a `)` (or -1 when there is none), is `IndexOf` of `)` |
| MathEval.ScanStack | Dexter/Commands/UtilityCommands/MathCommand.cs:211-215 | the stack after the scan of one round: the old stack followed by the positions of every `(` before the first `)` |
| MathEval.OpensCover | Dexter/Commands/UtilityCommands/MathCommand.cs:213-214 | a `(` before the scanned end is pushed, at or below the top of the stack |
| MathEval.GroupParenFree | Dexter/Commands/UtilityCommands/MathCommand.cs:218-221 | the group between the top of the stack and the first `)` holds no parenthesis, although the stack is kept from round to round |
| MathEval.RoundOf | Dexter/Commands/UtilityCommands/MathCommand.cs:211-229 | one round as a value: a resolved text is non-empty and has fewer parentheses; a halt with a number is the error value 1 with the error flag up |
| MathEval.GroupRound | Dexter/Commands/UtilityCommands/MathCommand.cs:493-521 | the collapse of one group as a value: a comma group becomes its bracketed semicolon form, any other group the literal of its `Evaluate` value, or the round halts with the escape; a rewrite has fewer parentheses |
| MathEval.RoundOfEnds | Dexter/Commands/UtilityCommands/MathCommand.cs:211-228 | a round without `)` never ends (a `(` is left); a `)` with an empty stack halts with 1 and the error flag up |
| MathEval.RoundOfTop | Dexter/Commands/UtilityCommands/MathCommand.cs:218-221 | with a non-empty stack the top is popped: the slice throws `ArgumentOutOfRangeException` when the top is not before the `)`, and otherwise the parenthesis-free group collapses as `GroupRound` |
| MathEval.ResolveFrom | Dexter/Commands/UtilityCommands/MathCommand.cs:210-229 | the whole pre-pass as a value: a resolved text is non-empty and free of parentheses; a halt with a number is 1 with the error flag up |
| MathEval.UnmatchedCloseHalts | Dexter/Commands/UtilityCommands/MathCommand.cs:225-228 | a first `)` with no `(` before it halts the pre-pass, and so the evaluation, with 1 and the error flag up |
| MathEval.ProcessParenFree | Dexter/Commands/UtilityCommands/MathCommand.cs:129-136 | on text without parentheses the evaluation is the reference evaluator `Evaluate` |
| MathEval.CollapseFirstGroup | Dexter/Commands/UtilityCommands/MathCommand.cs:211-229 | one pass follows the reference round `RoundOf` (outcome, stack, error flag and draws): the first group closes and the text loses parentheses; an unmatched `)` halts with the error value 1 and the error flag up; a `(` without a `)` never ends |
| MathEval.CollapseAt | Dexter/Commands/UtilityCommands/MathCommand.cs:216-228 | a `)` with an empty stack throws the unbalanced-closing error; otherwise the round continues as `RoundOf` says |
| MathEval.CollapseTop | Dexter/Commands/UtilityCommands/MathCommand.cs:218-221 | pops the top of the stack and collapses the group before the `)` as `RoundOf` says, or halts when the slice would be reversed |
| MathEval.CollapseGroup | Dexter/Commands/UtilityCommands/MathCommand.cs:218-221 | the `Simplify` call of one round follows `GroupRound` for a comma group or a parenthesis-free group; a rewrite has fewer parentheses and a halt is an escape |
| MathEval.ResolveParentheses | Dexter/Commands/UtilityCommands/MathCommand.cs:210-229 | the pre-pass follows `ResolveFrom`: it ends with a non-empty text free of parentheses, leaves text without parentheses unchanged, or halts; a first `)` with no `(` before it halts with 1 and the error flag up |
| MathEval.ProcessMath | Dexter/Commands/UtilityCommands/MathCommand.cs:129-136 | for every argument the outcome, error flag and draw position are those of `Process`: the neutral value for the empty argument, the pre-pass and then `EvaluateTerm` otherwise; for a parenthesis-free argument that is `Evaluate` |
| MathEval.EvaluateResolved | Dexter/Commands/UtilityCommands/MathCommand.cs:237-338 | a non-empty parenthesis-free term evaluates as `EvaluateTerm`: a split at the operator `Classify` picks, a factorial of the operand (NaN included), or the multiplicand before a function name, echoed and evaluated, then the number, 1 once the error flag is up |
| MathEval.ProcessBinary | Dexter/Commands/UtilityCommands/MathCommand.cs:237-312 | a split is evaluated as `EvaluateSplit`: the left side, then the right side, each with the tier's neutral value, then the operator; NaN goes on into the operator and only an exception stops it |
| MathEval.LeafValue | Dexter/Commands/UtilityCommands/MathCommand.cs:425 | `Double.Parse` gives a number exactly when the text parses, and a `FormatException` otherwise |
| MathEval.DigitRun | Dexter/Commands/UtilityCommands/MathCommand.cs:326-334 | the length of the leading digits: every character before it is a digit and the one at it is not |
| MathEval.Multiplicand | Dexter/Commands/UtilityCommands/MathCommand.cs:324-338 | the leading digits of a term when something other than a digit follows them; empty when the term starts with a non-digit or is digits only |
| MathEval.EvaluateSplitStep | Dexter/Commands/UtilityCommands/MathCommand.cs:237-312 | the reference evaluator of a split is the operator applied to the left side, evaluated first, and the right side, evaluated after it |
| MathEval.OnePlusTwo | Dexter/Commands/UtilityCommands/MathCommand.cs:239-252 | `1+2` evaluates to 3 with no error |
| MathEval.MinusFive | Dexter/Commands/UtilityCommands/MathCommand.cs:239-257 | `-5` evaluates to -5: the empty left side counts 0 |
| MathEval.Two | Dexter/Commands/UtilityCommands/MathCommand.cs:423-425 | `2` evaluates to 2 |
| MathEval.TwoPowThree | Dexter/Commands/UtilityCommands/MathCommand.cs:287-299 | `2^3` evaluates to `Math.Pow(2, 3)` |
| MathEval.PowerChain | Dexter/Commands/UtilityCommands/MathCommand.cs:287-299 | `2^3^2` evaluates to `Math.Pow(Math.Pow(2, 3), 2)` |
| MathEval.ZeroPowZero | Dexter/Commands/UtilityCommands/MathCommand.cs:294-295 | `0^0` yields 1 with the error flag up |
| MathEval.DivideByZero | Dexter/Commands/UtilityCommands/MathCommand.cs:269-272 | `1/0` yields 1 with the error flag up |
| MathEval.FiveRemZero | Dexter/Commands/UtilityCommands/MathCommand.cs:312 | `5%0` is NaN, without an error |
| MathEval.NaNGoesOn | Dexter/Commands/UtilityCommands/MathCommand.cs:237-312 | in `5%0+0^0` the NaN does not stop the evaluation: the right side still raises the error flag |
| MathEval.LastSplit | Dexter/Commands/UtilityCommands/MathCommand.cs:239-259 | the rightmost split position of a tier, or -1; no split position of that tier lies to its right |
| MathEval.Classify | Dexter/Commands/UtilityCommands/MathCommand.cs:239-320 | the split is at the rightmost operator of the lowest tier present, no lower tier splits anywhere, and a bare `!` suffix is a factorial |
| MathEval.PowerIsLeftAssociative | Dexter/Commands/UtilityCommands/MathCommand.cs:287-299 | `2^3^2` splits at its second `^`, so it evaluates as `(2^3)^2` |
| MathEval.ScientificSignIsNoSplit | Dexter/Commands/UtilityCommands/MathCommand.cs:241-244 | the sign in `1E-5` is no split point, and `1E-5-2` splits at its last `-` |
| MathEval.Combine | Dexter/Commands/UtilityCommands/MathCommand.cs:248-312 | division by 0 and `0^0` are errors; `+ - * /` compute the exact result, `^` uses `Math.Pow`, `%` the truncated remainder `RealRem`, and `%` by 0 or a NaN operand give NaN; `d`/`D` roll dice |
| MathEval.RealRem | Dexter/Commands/UtilityCommands/MathCommand.cs:312 | C#'s `%` on doubles: `a - r` is a whole multiple of `b`, `r` has the sign of `a` and is smaller than `b` in magnitude |
| MathEval.Arith | Dexter/Commands/UtilityCommands/MathCommand.cs:245-312 | double arithmetic: the result is NaN exactly when an operand is NaN or for `x % 0` |
| MathEval.Apply | Dexter/Commands/UtilityCommands/MathCommand.cs:245-312 | evaluates as `Combined`: an error case yields 1 with the error flag up; otherwise the combined value, NaN included, or the value of the dice roll with its draws |
| MathEval.RoundHalfEven | Dexter/Commands/UtilityCommands/MathCommand.cs:527 | `Math.Round` gives an integer within 0.5 of the operand, the even one at a midpoint |
| MathEval.RoundHalfEvenUnique | Dexter/Commands/UtilityCommands/MathCommand.cs:534 | that integer is the only one with these properties |
| MathEval.Roll | Dexter/Commands/UtilityCommands/MathCommand.cs:523-565 | the value is that of the dice specification; the error flag goes up exactly when the guards fail; the summary changes only for verbose rolls of a non-zero count |
| MathEval.RollDice | Dexter/Commands/UtilityCommands/MathCommand.cs:527-564 | a count of 0 gives 0 before any face check; fewer than one face is an error; otherwise the dice are thrown |
| MathEval.RollSomeDice | Dexter/Commands/UtilityCommands/MathCommand.cs:539-564 | throws a non-zero count of dice, recording the summary when verbose |
| MathEval.ThrowAndSummarise | Dexter/Commands/UtilityCommands/MathCommand.cs:539-562 | the sum of the \|count\| rolls, negated for a negative count, and the trace message |
| MathEval.ThrowDice | Dexter/Commands/UtilityCommands/MathCommand.cs:547-559 | the loop adds one die per step; it fails only when `Random.Next` gets an overflowing bound |
| MathEval.DrawDie | Dexter/Commands/UtilityCommands/MathCommand.cs:551-558 | one die: a face times the sign, with its text counted only while the verbose summary is below 80 characters |
| MathEval.DieFace | Dexter/Commands/UtilityCommands/MathCommand.cs:552 | a face lies in [1, faces] |
| MathEval.DiceRollsRange | Dexter/Commands/UtilityCommands/MathCommand.cs:552 | every roll lies in [1, faces], or in [-faces, -1] for a negative count |
| MathEval.DiceValueBounds | Dexter/Commands/UtilityCommands/MathCommand.cs:543-559 | a valid roll of n > 0 dice sums to a value in [n, n·faces]; for n < 0 the range is negated |
| MathEval.OneFacedDice | Dexter/Commands/UtilityCommands/MathCommand.cs:543-559 | n one-faced dice sum to exactly n |
| MathEval.ShownTextBounded | Dexter/Commands/UtilityCommands/MathCommand.cs:555-558 | the rolls shown in the verbose summary stop once 80 characters are reached, so they take fewer than 93 characters |
| MathEval.Factorial | Dexter/Commands/UtilityCommands/MathCommand.cs:567-579 | an overflowing product gives 1 with a verbose error; otherwise the factorial of the rounded operand, with one trace line and no error |
| MathEval.SmallFactorial | Dexter/Commands/UtilityCommands/MathCommand.cs:569-570 | an operand rounding to 1 or less, negatives included, gives 1 without an error |
| MathEval.FactSplit | Dexter/Commands/UtilityCommands/MathCommand.cs:570-571 | the descending product from `a` down to `i + 1`, times `i!`, is `a!` |
| MathEval.FactPositive | Dexter/Commands/UtilityCommands/MathCommand.cs:570-571 | the factorial is at least 1 |
| Language.FirstWord | Dexter/Helpers/LanguageHelper.cs:189 | the first space-separated word is a prefix of the text and holds no space |
| Language.JoinSplit | Dexter/Helpers/LanguageHelper.cs:189 | joining the parts of `Split` with the separator gives the text back |
| Language.TrimStart | Dexter/Helpers/LanguageHelper.cs:189 | `TrimStart` drops exactly the leading white space |
| Language.TrimEnd | Dexter/Helpers/LanguageHelper.cs:189 | `TrimEnd` drops exactly the trailing white space |
| Language.SplitAt | Dexter/Helpers/LanguageHelper.cs:189 | `Split` cuts at the first separator and splits the rest the same way |
| Language.ArticleFor | Dexter/Helpers/LanguageHelper.cs:191-195 | the article starts with `A` when capitalised and with `a` otherwise |
| Language.GuessIndefiniteArticle | Dexter/Helpers/LanguageHelper.cs:188-196 | throws `IndexOutOfRangeException` exactly for a blank word; otherwise an article with the requested capital |
| Language.ArticleOfFirstLetter | Dexter/Helpers/LanguageHelper.cs:189-195 | the article depends only on the lower-cased first letter of the trimmed word |
| Language.ArticleChoices | Dexter/Helpers/LanguageHelper.cs:191-195 | the article is one of `an`, `a(n)`, `a` (capitalised variants when asked); `an` exactly for a/e/i/o and `a(n)` exactly for h/u |
| Language.ArticleCapitalised | Dexter/Helpers/LanguageHelper.cs:191-195 | the capitalised article is the lower-case one with its first letter raised |
| Language.IsConsonant | Dexter/Helpers/LanguageHelper.cs:253 | a consonant is a letter that is not a vowel, `y` included, and never also a vowel |
| Language.Possessive | Dexter/Helpers/LanguageHelper.cs:319-321 | appends `'` to a word ending in `s` and `'s` otherwise |
| Language.OrdinalBase | Dexter/Helpers/LanguageHelper.cs:300 | the sign is dropped, except for `int.MinValue`, which has no positive counterpart |
| Language.Ordinal | Dexter/Helpers/LanguageHelper.cs:298-311 | the digits of \|n\| followed by the English suffix |
| Language.SuffixIsEnglish | Dexter/Helpers/LanguageHelper.cs:302-310 | the suffix is `th` for 11-13 modulo 100, else `st`, `nd`, `rd` for a last digit 1, 2, 3, else `th` |
| Language.OrdinalIgnoresSign | Dexter/Helpers/LanguageHelper.cs:298-311 | `-n` and `n` have the same ordinal |
| Language.MatchCaseChar | Dexter/Helpers/LanguageHelper.cs:285-290 | the character is the input letter, upper-case iff the pattern character is |
| Language.MatchCase | Dexter/Helpers/LanguageHelper.cs:262-276 | same length; each character within the pattern's length takes its case, and the rest is copied unchanged |
| Language.CaseMatchedKeepsLetters | Dexter/Helpers/LanguageHelper.cs:262-276 | case matching changes only case |
| Language.CaseMatchedSelf | Dexter/Helpers/LanguageHelper.cs:262-276 | a word matched against itself is unchanged |
| Language.RuleOf | Dexter/Helpers/LanguageHelper.cs:207-234 | the rule chosen is the first, in the order the source tries them, whose test the lower-cased word passes (the empty word and a lone `y` are the throwing tests), and the word is long enough for it |
| Language.EnglishRule | Dexter/Helpers/LanguageHelper.cs:220-234 | for a non-empty word passing none of the Latin endings: the first of the later rules, in order, whose test passes |
| Language.SibilantRule | Dexter/Helpers/LanguageHelper.cs:220-225 | a word ending in `s` or `z` doubles its last letter exactly when it passes the consonant-vowel-consonant test, and takes `es` otherwise |
| Language.ApplyRule | Dexter/Helpers/LanguageHelper.cs:211-236 | applying a rule throws `IndexOutOfRangeException` exactly for the empty word and a lone `y`, and otherwise ends in `a`, `i` or `s` |
| Language.GuessPlural | Dexter/Helpers/LanguageHelper.cs:205-237 | a word in the irregular table, lower-cased, gives that entry case-matched to the word; otherwise it throws exactly for the empty word or `y`, and a plural ends in `a`, `i` or `s` |
| Language.PluralByEnding | Dexter/Helpers/LanguageHelper.cs:210-236 | outside the table, the plural for each first-passing rule: on/um→a, us→i, is→es, ex/ix→ices, s/z doubled after consonant-vowel-consonant and else +es, fe→ves, f→ves, vowel+y→+s, consonant+y→last letter+ies, o/x/sh/ch→+es, otherwise +s; the empty word and a lone `y` throw |
| Language.FirstPassingUnique | Dexter/Helpers/LanguageHelper.cs:207-236 | at most one rule is the first to pass |
| Language.GuessPluralFixed | Dexter/Helpers/LanguageHelper.cs:231 | consonant + `y` becomes the stem + `ies`; every other word is as written |
| Language.RuleKeepsStem | Dexter/Helpers/LanguageHelper.cs:211-236 | every rule but consonant + `y` keeps all but at most the last two letters |
| Language.PluralKeepsStem | Dexter/Helpers/LanguageHelper.cs:205-237 | a corrected plural of a regular word of two or more letters keeps all but at most its last two letters |
| Language.CityTakesConsonantY | Dexter/Helpers/LanguageHelper.cs:229-231 | `city` falls under the consonant + `y` rule |
| Language.CityRule | Dexter/Helpers/LanguageHelper.cs:229-231 | `city` is already lower case, so its rule is consonant + `y` |
| Language.PluralOfCity | Dexter/Helpers/LanguageHelper.cs:231 | as written, the plural of `city` is `yies`; corrected, it is `cities` |
| Language.CheckReplace | Dexter/Helpers/LanguageHelper.cs:127-136 | -1 without the identifier prefix; the index when the rest parses as a non-negative int; the error code otherwise |
| Language.CheckReplaceIndex | Dexter/Helpers/LanguageHelper.cs:127-136 | the identifier followed by the digits of an index reads back as that index |
| Templates.FirstIndexOf | Dexter/Helpers/LanguageHelper.cs:172 | `List.IndexOf`: the first position holding the value, or -1 exactly when it is absent |
| Templates.TermClass.constructor | Dexter/Helpers/LanguageHelper.cs:148-152 | a term class holds its identifier and bank, with an empty cache |
| Templates.TermClass.GetOrGenerateCached | Dexter/Helpers/LanguageHelper.cs:164-178 | a negative index throws; a cached index returns its term; otherwise the cache grows to index + 1, keeping its earlier entries, and returns the new entry; an empty bank throws |
| Templates.ApplyModifier | Dexter/Helpers/LanguageHelper.cs:74-79 | `a` and `A` set the article, `plural` and `'s` (any case) set their flags; any other tag is a term |
| Templates.WithArticle | Dexter/Helpers/LanguageHelper.cs:100 | the guessed article, a space, then the noun; throws for a blank noun |
| Templates.PossessiveSuffix | Dexter/Helpers/LanguageHelper.cs:95-97 | a possessive piece ends in `s'` or `'s` |
| Templates.Decorate | Dexter/Helpers/LanguageHelper.cs:91-101 | plural, then possessive, then article; no modifiers leave the term as is |
| Templates.FirstHit | Dexter/Helpers/LanguageHelper.cs:82-88 | the first term class whose identifier recognises the tag, or -1 |
| Templates.Recall | Dexter/Helpers/LanguageHelper.cs:82-89 | a tag with an invalid index throws; no class recognising the tag means nothing is found; a cached index gives its term |
| Templates.LetterIndexThrows | Dexter/Helpers/LanguageHelper.cs:127-136 | `{animalx}` with a class `animal` has an invalid index and throws `IndexOutOfRangeException` |
| Templates.RecallKeeps | Dexter/Helpers/LanguageHelper.cs:36 | once a term is cached, a tag with the same identifier and index recalls the same term, however the caches grow |
| Templates.DrawAt | Dexter/Helpers/LanguageHelper.cs:164-178 | an index already cached returns that term; a success returns an entry of the cache that comes from the class's bank, and the caches only grow |
| Templates.ResolveTerm | Dexter/Helpers/LanguageHelper.cs:82-89 | an unrecognised tag yields nothing and leaves every cache alone; an invalid number throws; otherwise the cached term of the first class that recognises it |
| Templates.NextTag | Dexter/Helpers/LanguageHelper.cs:57-71 | the rest after a tag is shorter than the text |
| Templates.NextTagKind | Dexter/Helpers/LanguageHelper.cs:57-67 | no start indicator means plain text; a start without an end means unclosed; an end before the start means reversed |
| Templates.NextTagSplits | Dexter/Helpers/LanguageHelper.cs:57-71 | the text is the literal, the start indicator, the tag, the end indicator, then the rest |
| Templates.TermPiece | Dexter/Helpers/LanguageHelper.cs:82-110 | an unrecognised tag contributes nothing and keeps the modifiers; a term clears them |
| Templates.ConsistentStart | Dexter/Helpers/LanguageHelper.cs:51-55 | the randomiser starts with empty output and no modifiers |
| Templates.ConsistentEnd | Dexter/Helpers/LanguageHelper.cs:57 | with nothing left, the output is the rendering |
| Templates.ConsistentLast | Dexter/Helpers/LanguageHelper.cs:58-67 | plain text is appended; an unclosed tag throws `FormatException` |
| Templates.ConsistentModifier | Dexter/Helpers/LanguageHelper.cs:69-79 | a modifier tag moves its literal text to the output and updates the modifiers |
| Templates.ConsistentStop | Dexter/Helpers/LanguageHelper.cs:83-89 | a failing term ends the rendering with its exception |
| Templates.ConsistentTerm | Dexter/Helpers/LanguageHelper.cs:88-108 | a recognised term appends its decorated text and clears the modifiers |
| Templates.ResolveAndDecorate | Dexter/Helpers/LanguageHelper.cs:82-110 | the piece is the decorated outcome of resolving the tag |
| Templates.RandomizePredicate | Dexter/Helpers/LanguageHelper.cs:44-117 | `Finished`: the output is the rendering of the template for the outcomes drawn; the term tags are resolved in order, each by the first class recognising it, from its cache as it stood then; a tag naming the same term as an earlier one gets the same outcome; every term comes from a bank; a text results only when every tag had a valid index |
| Templates.NewTerms | Dexter/Helpers/LanguageHelper.cs:45-49 | one term class per bank, in bank order, each with that bank and an empty cache |
| Templates.ResolveNext | Dexter/Helpers/LanguageHelper.cs:82-110 | resolving one more term tag keeps the run consistent: the outcome is resolved from the caches as they stood, and the piece is its decorated text |
| Templates.Round | Dexter/Helpers/LanguageHelper.cs:57-115 | one pass of the loop either ends with `Finished` or leaves a shorter rest with the run still consistent |
| Templates.TermRound | Dexter/Helpers/LanguageHelper.cs:82-110 | a term tag either ends the run with `Finished` or moves past the tag with the run consistent |
| Templates.LedgerFinish | Dexter/Helpers/LanguageHelper.cs:44-117 | what a run has established: terms come from banks, tags are resolved in order, and a complete successful run met no invalid index |
| Templates.AllResolvedValid | Dexter/Helpers/LanguageHelper.cs:82-89 | a run whose every outcome is a success met no invalid index |
| TimeZones.Lookup | Dexter/Helpers/LanguageHelper.cs:437-445 | `TryParseTimeZone`: absent exactly when the key is missing; otherwise that key's entry |
| TimeZones.LookupDistinct | Dexter/Helpers/LanguageHelper.cs:437-445 | with distinct keys, every entry is found under its key |
| TimeZones.IntParse | Dexter/Helpers/LanguageHelper.cs:611 | `int.Parse`: the Int32 value, `OverflowException` for too many digits, and `FormatException` otherwise |
| TimeZones.BaseOffset | Dexter/Helpers/LanguageHelper.cs:601-607 | an empty or unknown abbreviation contributes 0 |
| TimeZones.SignOf | Dexter/Helpers/LanguageHelper.cs:593-599 | the sign is ±1 and its position is -1 or within the text |
| TimeZones.SignOfFound | Dexter/Helpers/LanguageHelper.cs:593-599 | `+` wins when present; otherwise the first `-` with sign -1; the position is -1 exactly when there is neither |
| TimeZones.SignedHours | Dexter/Helpers/LanguageHelper.cs:609-613 | the offset after the sign: `int.Parse` of the hours times the sign, wrapped to an Int32, plus the minutes over 60, signed or not; it fails exactly when a part does not parse, with `OverflowException` for a numeral too large and `FormatException` otherwise |
| TimeZones.SecondsIgnored | Dexter/Helpers/LanguageHelper.cs:609-613 | only the first two parts after the sign count |
| TimeZones.SignedHoursOfTwo | Dexter/Helpers/LanguageHelper.cs:609-613 | `h:m` after the sign reads as sign·h plus m/60, m signed or not |
| TimeZones.ParseWith | Dexter/Helpers/LanguageHelper.cs:587-616 | the name is the text; without a sign the offset is that of the abbreviation |
| TimeZones.ParseTimeZone | Dexter/Helpers/LanguageHelper.cs:587-616 | `TimeZoneData.Parse` as written: the same, with unsigned minutes |
| TimeZones.ParseTimeZoneFixed | Dexter/Helpers/LanguageHelper.cs:612 | the same, with the minutes taking the sign |
| TimeZones.ParseAddsOffset | Dexter/Helpers/LanguageHelper.cs:609-613 | with a sign, the offset is the abbreviation's plus what follows the sign, or the failure of reading it |
| TimeZones.ParseFromParts | Dexter/Helpers/LanguageHelper.cs:609-613 | `hh:mm` after the sign adds sign·hh plus mm/60, signed or not |
| TimeZones.ParseSignedOffset | Dexter/Helpers/LanguageHelper.cs:587-616 | `ABBR±h:m` parses to the abbreviation's offset plus the signed hours and the minutes |
| TimeZones.MinutesIgnoreSign | Dexter/Helpers/LanguageHelper.cs:612 | as written, `ABBR-h:m` gets -h + m/60; corrected, -(h + m/60) |
| TimeZones.HalfHourBehind | Dexter/Helpers/LanguageHelper.cs:612 | `UTC-3:30` parses to -2.5 as written and to -3.5 corrected |
| TimeZones.CharPoints | Dexter/Helpers/LanguageHelper.cs:459-465 | each character of the key earns 0 to 13 points |
| TimeZones.SuffixBonus | Dexter/Helpers/LanguageHelper.cs:467-475 | the standard/daylight suffix bonus is 0 to 16 points |
| TimeZones.ComputeNameWeight | Dexter/Helpers/LanguageHelper.cs:458-477 | the weight loop computes the weight of the name |
| TimeZones.NameWeightBounds | Dexter/Helpers/LanguageHelper.cs:458-477 | a case-insensitive exact match weighs at least 100 + 9·\|key\|; any other key at most 13·\|key\| + 16 |
| TimeZones.ExactMatchOutranks | Dexter/Helpers/LanguageHelper.cs:477 | an exact match outweighs every other key of no greater length, up to 20 characters |
| TimeZones.HeavierFirstPreorder | Dexter/Helpers/LanguageHelper.cs:483 | heavier-first is a total preorder, so the sort is well defined |
| TimeZones.SearchByName | Dexter/Helpers/LanguageHelper.cs:454-490 | the result is a permutation of the keys, by non-increasing weight |
| TimeZones.LexLeTotal | Dexter/Helpers/LanguageHelper.cs:515 | the key comparison is total |
| TimeZones.LexLeTransitive | Dexter/Helpers/LanguageHelper.cs:515 | the key comparison is transitive |
| TimeZones.LexLeAntisymmetric | Dexter/Helpers/LanguageHelper.cs:515 | the key comparison is antisymmetric |
| TimeZones.OffsetWeight | Dexter/Helpers/LanguageHelper.cs:505 | the weight, the whole minutes between the offsets, is never negative |
| TimeZones.KeyOffsetWeight | Dexter/Helpers/LanguageHelper.cs:505 | a key's weight is never negative |
| TimeZones.LighterFirstPreorder | Dexter/Helpers/LanguageHelper.cs:513-516 | weight first, then key, is a total preorder |
| TimeZones.CountZero | Dexter/Helpers/LanguageHelper.cs:507 | the exact matches number at most the keys |
| TimeZones.CountZeroPermutation | Dexter/Helpers/LanguageHelper.cs:507 | the number of exact matches does not depend on the order of the keys |
| TimeZones.ZerosFirst | Dexter/Helpers/LanguageHelper.cs:512-516 | in a list sorted by weight, the first `CountZero` keys are exactly the zero-weight ones |
| TimeZones.WeighOffsets | Dexter/Helpers/LanguageHelper.cs:501-510 | every key is weighed by its offset distance, and the exact matches are counted |
| TimeZones.SortedByOffset | Dexter/Helpers/LanguageHelper.cs:513-516 | the sorted keys ascend by (weight, key) |
| TimeZones.SearchByOffset | Dexter/Helpers/LanguageHelper.cs:500-523 | a permutation of the keys ascending by (minute difference, key); `ExactMatches` counts the zero differences, and those keys come first |
| Hyperlinks.FoundForWitness | Dexter/Helpers/LanguageHelper.cs:657-663 | each piece found for an opener lies between it and a later closer, and is a link |
| Hyperlinks.FoundForHas | Dexter/Helpers/LanguageHelper.cs:657-663 | each later closer that bounds a link contributes it |
| Hyperlinks.FoundWitness | Dexter/Helpers/LanguageHelper.cs:656-664 | each piece found lies between an opener and a later closer, and is a link |
| Hyperlinks.FoundHas | Dexter/Helpers/LanguageHelper.cs:656-664 | each opener and later closer that bound a link contribute it |
| Hyperlinks.LinksFrom | Dexter/Helpers/LanguageHelper.cs:657-664 | the inner loop collects the links of one opener in closer order |
| Hyperlinks.CheckForLinks | Dexter/Helpers/LanguageHelper.cs:653-668 | the links for each opener in order, each in closer order |
| Hyperlinks.GetHyperLinks | Dexter/Helpers/LanguageHelper.cs:624-651 | a piece is returned iff it is a link lying between a space or `(` and a `)` or space within one space-free segment of the padded text; each returned piece is a link without spaces |
| Hyperlinks.SegmentSound | Dexter/Helpers/LanguageHelper.cs:633-635 | every piece a space collects is a link ending by that space |
| Hyperlinks.SegmentComplete | Dexter/Helpers/LanguageHelper.cs:633-635 | every link ending in the segment a space closes is collected |
| Hyperlinks.SegmentFound | Dexter/Helpers/LanguageHelper.cs:633-640 | the links found so far plus those collected at a space are exactly the links ending by it |
| Hyperlinks.FoundIsSpaceFree | Dexter/Helpers/LanguageHelper.cs:631-647 | a found piece is a link and holds no space |
| Daylight.DaysInMonth | Dexter/Databases/UserProfiles/UserProfile.cs:418 | 28 to 31 days, 29 exactly in February of a leap year |
| Daylight.DayOfWeek | Dexter/Databases/UserProfiles/UserProfile.cs:409 | the weekday lies in 0 to 6 |
| Daylight.NextMonthStarts | Dexter/Databases/UserProfiles/UserProfile.cs:409 | the next month starts on the weekday after the last day of this month, across the year's end too |
| Daylight.WeekdayAdvances | Dexter/Databases/UserProfiles/UserProfile.cs:409-411 | the weekday of day d is that of the 1st plus d - 1, modulo 7 |
| Daylight.RelativeWeekday | Dexter/Databases/UserProfiles/UserProfile.cs:264 | the weekday lies in 0 to 6 and is `Day` modulo 7, negative days included |
| Daylight.WeekdayCount | Dexter/Databases/UserProfiles/UserProfile.cs:270 | -1 exactly for a negative day; otherwise the week holding the day |
| Daylight.RelativeRoundTrip | Dexter/Databases/UserProfiles/UserProfile.cs:264-270 | encoding a weekday and a count as `weekday + 7·count` reads both back |
| Daylight.FromDateTime | Dexter/Databases/UserProfiles/UserProfile.cs:434-437 | copies exactly the day and the month |
| Daylight.DayToString | Dexter/Databases/UserProfiles/UserProfile.cs:288-292 | absolute: `{ordinal} of {Month}`; relative: `last {weekday} of {Month}` or `{ordinal of count + 1} {weekday} of {Month}` |
| Daylight.MonthStartWeekday | Dexter/Databases/UserProfiles/UserProfile.cs:409 | the weekday of the 1st, counted from Monday, is -1 for a Sunday |
| Daylight.WeekdayDiff | Dexter/Databases/UserProfiles/UserProfile.cs:410-411 | `(monthStartWeekday - RelativeWeekday) mod 7`, in that operand order, normalised into 0 to 6 |
| Daylight.WeekdayDiffFixed | Dexter/Databases/UserProfiles/UserProfile.cs:410 | the distance from the month's first weekday to the wanted one, in 0 to 6 |
| Daylight.LastStepBounds | Dexter/Databases/UserProfiles/UserProfile.cs:419 | stepping by weeks keeps the day's weekday and stops in the last week of the month |
| Daylight.ThresholdFromBounds | Dexter/Databases/UserProfiles/UserProfile.cs:415-425 | the threshold is congruent to the difference + 1, and lies in the month's last week ("last") or in week `WeekdayCount` |
| Daylight.GetThresholdDay | Dexter/Databases/UserProfiles/UserProfile.cs:407-426 | the loop returns the threshold, with the congruence and the week bounds |
| Daylight.WeekdayOfThreshold | Dexter/Databases/UserProfiles/UserProfile.cs:424 | a day congruent to diff + 1 falls on the month's first weekday plus diff |
| Daylight.ThresholdFixedIsWanted | Dexter/Databases/UserProfiles/UserProfile.cs:410 | corrected, the threshold falls on the wanted weekday, in the last week or in the counted week |
| Daylight.ThresholdAsWrittenWeekday | Dexter/Databases/UserProfiles/UserProfile.cs:410 | as written, the threshold falls on the wanted weekday only when the month starts on it |
| Daylight.FixedDiffArrives | Dexter/Databases/UserProfiles/UserProfile.cs:410 | adding the corrected difference to the start weekday reaches the wanted weekday |
| Daylight.ReversedDiffArrives | Dexter/Databases/UserProfiles/UserProfile.cs:410 | adding the reversed difference reaches it only when the two weekdays coincide |
| Daylight.March2024 | Dexter/Databases/UserProfiles/UserProfile.cs:409 | 1 March 2024 is a Friday, the 27th a Wednesday and the 31st a Sunday |
| Daylight.EuropeanStart2024 | Dexter/Databases/UserProfiles/UserProfile.cs:407-426 | the European start in March 2024 gives day 27, a Wednesday, as written and day 31, a Sunday, corrected |
| Daylight.RulesToString | Dexter/Databases/UserProfiles/UserProfile.cs:546-550 | `Undefined` exactly when an end is missing; otherwise starts with `From the {start} to the `, ends with ` to the {end}.` and is exactly as long as `From the {start} to the {end}.` |
| Daylight.MonthsAfter | Dexter/Databases/UserProfiles/UserProfile.cs:577-581 | months counted forward round the year, in 0 to 11 |
| Daylight.IsDST | Dexter/Databases/UserProfiles/UserProfile.cs:570-604 | throws without both ends; months strictly inside are in, the start month tests after the start, the end month up to the end, and other months are out |
| Daylight.MonthsInside | Dexter/Databases/UserProfiles/UserProfile.cs:577-586 | with and without wrap-around, months between the ends are in and months outside are out |
| Daylight.PresetRules | Dexter/Databases/UserProfiles/UserProfile.cs:606-611 | the American, European and Australian presets, all relative, with both ends set |
| Daylight.PresetOccurrences | Dexter/Databases/UserProfiles/UserProfile.cs:608-610 | American: second Sunday of March to first Sunday of November; European: last Sundays of March and October; Australian: first Sundays of October and April |
| Permissions.Rank | Dexter/Extensions/UserExtensions.cs:24-42 | levels are ranked 0 to 5, with 0 exactly for `Default` |
| Permissions.Precedence | Dexter/Extensions/UserExtensions.cs:30-39 | the five checked roles, ranked from 5 down to 1 |
| Permissions.PrecedenceEntries | Dexter/Extensions/UserExtensions.cs:30-39 | in the order Administrator, Developer, Moderator, GreetFur, Unifursal |
| Permissions.GetPermissionLevel | Dexter/Extensions/UserExtensions.cs:24-42 | `Default` for a user outside the guild or holding none of the roles; otherwise the first role held decides |
| Permissions.FirstHeld | Dexter/Extensions/UserExtensions.cs:30-39 | some role held means a first role held |
| Permissions.GainingRolesNeverLowers | Dexter/Extensions/UserExtensions.cs:24-42 | more roles never give a lower level |
| Permissions.TopTier | Dexter/Extensions/UserExtensions.cs:56-61 | the largest i + 1 whose role is held, or 0, so the tier lies in [0, n] |
| Permissions.TierMonotone | Dexter/Extensions/UserExtensions.cs:56-61 | more roles never give a lower tier |
| Permissions.GetPatreonTier | Dexter/Extensions/UserExtensions.cs:52-62 | the top tier; 0 without tiers; a user outside the guild throws `NullReferenceException` |
| Permissions.GetUserInformation | Dexter/Extensions/UserExtensions.cs:71-74 | `{Username}#{Discriminator} ({Mention}) ({Id})`: it starts with the name, `#` and the discriminator, ends with the mention and the id in parentheses, and has exactly the length of those parts and seven separator characters |
| Permissions.UserIdReadBack | Dexter/Extensions/UserExtensions.cs:73 | the id can be read back from the last parentheses |
| Leveling.RankAddsMembers | Dexter/Services/LevelingService.cs:157-160 | a rank role is added iff its level is reached and it is not held |
| Leveling.RankRemoves | Dexter/Services/LevelingService.cs:162-163 | nothing is removed without `removeExtra` |
| Leveling.RankRemovesMembers | Dexter/Services/LevelingService.cs:162-163 | a rank role is removed iff `removeExtra` is set, its level is above the user's and it is held |
| Leveling.RemoveFirst | Dexter/Services/LevelingService.cs:173-174 | `List.Remove` drops one occurrence and nothing else |
| Leveling.RoleDiffDisjoint | Dexter/Services/LevelingService.cs:144-175 | added roles are not held, removed roles are held, and no role is in both lists |
| Leveling.RoleDiffRanks | Dexter/Services/LevelingService.cs:150-164 | each rank is added or removed as its rule says, and the member role leads the additions when due |
| Leveling.NicknameReplacementWithheld | Dexter/Services/LevelingService.cs:166-175 | a nickname-disabled user does not get the replacement role and loses it if held |
| Leveling.LevelingService.constructor | Dexter/Services/LevelingService.cs:29 | a new service has no cooldowns and no grants |
| Leveling.DrawBound | Dexter/Services/LevelingService.cs:88 | `max + 1` in unchecked Int32 arithmetic: `max + 1` below `int.MaxValue`, and `int.MinValue` at it |
| Leveling.DrawRange | Dexter/Services/LevelingService.cs:88 | `Random.Next(min, max + 1)` throws exactly when min > max + 1, or max is `int.MaxValue` and min is not `int.MinValue`; for min ≤ max < `int.MaxValue` its values are exactly [min, max]; otherwise only `min` |
| Leveling.LevelingService.DrawExperience | Dexter/Services/LevelingService.cs:88 | one draw of `Random.Next(min, max + 1)`: it throws `ArgumentOutOfRangeException`, consuming nothing, exactly when `DrawThrows`; otherwise one draw is consumed and the amount is `InDrawRange` |
| Leveling.LevelingService.UpdateRoles | Dexter/Services/LevelingService.cs:132-190 | no change for a missing user, disabled role handling or a missing level record; otherwise the role difference; true iff something changes |
| Leveling.LevelingService.RoleChanges | Dexter/Services/LevelingService.cs:144-175 | the lists built step by step are the role difference |
| Leveling.LevelingService.BaseChanges | Dexter/Services/LevelingService.cs:150-164 | the member role and the rank changes |
| Leveling.LevelingService.RankChanges | Dexter/Services/LevelingService.cs:157-164 | the rank loop builds the rank additions and removals |
| Leveling.ReceiversAreCounted | Dexter/Services/LevelingService.cs:76-85 | whoever receives voice experience is also counted |
| Leveling.CountedIn | Dexter/Services/LevelingService.cs:74-80 | the counted users are at most the users |
| Leveling.ReceiversIn | Dexter/Services/LevelingService.cs:83-85 | the receivers are at most the users |
| Leveling.ReceiversMembers | Dexter/Services/LevelingService.cs:83-85 | the receivers are exactly the ids of the users passing the stricter filter |
| Leveling.RecipientEligible | Dexter/Services/LevelingService.cs:72-95 | each voice recipient is a receiving user of a channel that grants |
| Leveling.GrantIds | Dexter/Services/LevelingService.cs:87 | the ledger's user ids, in order |
| Leveling.LevelingService.CountVoiceUsers | Dexter/Services/LevelingService.cs:74-80 | the loop counts the users passing the counting filter |
| Leveling.LevelingService.GrantVoice | Dexter/Services/LevelingService.cs:83-94 | one grant per receiver, in order, each an amount `Random.Next(VCMinXPGiven, VCMaxXPGiven + 1)` can return (`InDrawRange`); the draw throws `ArgumentOutOfRangeException`, with no grant made, exactly when the bound is below the minimum and somebody receives |
| Leveling.LevelingService.GrantChannel | Dexter/Services/LevelingService.cs:72-94 | a channel with too few counted users or disabled grants nothing; otherwise it grants as `GrantVoice` |
| Leveling.LevelingService.AddLevels | Dexter/Services/LevelingService.cs:66-99 | grants go exactly to the recipients of granting channels, with amounts `Random.Next` can return, and all cooldowns are cleared; it throws, granting nothing and keeping the cooldowns, exactly when the voice draw throws and there is a recipient |
| Leveling.VoiceLedgerStep | Dexter/Services/LevelingService.cs:72-95 | one more channel extends the recipients and the grants alike |
| Leveling.ReceiversStep | Dexter/Services/LevelingService.cs:83-92 | one more user extends the receivers and the grants alike |
| Leveling.ReceiversGrow | Dexter/Services/LevelingService.cs:83-85 | a longer prefix of the users has at least as many receivers |
| Leveling.RecipientsGrow | Dexter/Services/LevelingService.cs:72-95 | a longer prefix of the channels has at least as many recipients |
| Leveling.RecipientsFrom | Dexter/Services/LevelingService.cs:72-95 | a channel that grants to somebody leaves the recipients of the whole list non-empty |
| Leveling.LevelingService.HandleMessage | Dexter/Services/LevelingService.cs:101-122 | an eligible message grants its author text experience `Random.Next` can return and puts them on cooldown, or throws when the text bounds make the draw throw; any other message changes nothing; after a normal return the author is not eligible |
| Leaderboard.CheckRangeOrdered | Dexter/Commands/LevelingCommands/LeaderboardCommand.cs:28-43 | refused first when min ≥ max; an accepted range is ordered; an ordered span that fits is checked against the maximum |
| Leaderboard.CheckRangeFixed | Dexter/Commands/LevelingCommands/LeaderboardCommand.cs:28-43 | accepted iff 1 ≤ min < max and max - min fits the maximum |
| Leaderboard.FixedRangeNarrower | Dexter/Commands/LevelingCommands/LeaderboardCommand.cs:28-43 | the corrected check accepts only ranges the written one accepts |
| Leaderboard.RangeAcceptsRankZero | Dexter/Commands/LevelingCommands/LeaderboardCommand.cs:28-43 | `levels 0 10` passes the written check and not the corrected one |
| Leaderboard.RangeAcceptsWrappedSpan | Dexter/Commands/LevelingCommands/LeaderboardCommand.cs:36 | min = -2147483647, max = 1 passes the written check because `max - min` wraps |
| Leaderboard.RankingsPreorders | Dexter/Commands/LevelingCommands/LeaderboardCommand.cs:47-48 | both orders are total preorders |
| Leaderboard.Rankings | Dexter/Commands/LevelingCommands/LeaderboardCommand.cs:44-48 | two permutations of the levels, by non-increasing text and voice experience |
| Leaderboard.StartIndex | Dexter/Commands/LevelingCommands/LeaderboardCommand.cs:51 | the loop starts at min - 1, an Int32 |
| Leaderboard.Window | Dexter/Commands/LevelingCommands/LeaderboardCommand.cs:50-54 | throws `ArgumentOutOfRangeException` exactly when the first index read is negative |
| Leaderboard.WindowOfValidRange | Dexter/Commands/LevelingCommands/LeaderboardCommand.cs:50-54 | for an accepted range, ranks min to min(max, n), rank r pairing the r-th text and r-th voice entries |
| Leaderboard.WindowFollowsRanking | Dexter/Commands/LevelingCommands/LeaderboardCommand.cs:50-54 | the window follows both rankings |
| Leaderboard.WindowRankZeroThrows | Dexter/Commands/LevelingCommands/LeaderboardCommand.cs:51-53 | `levels 0 10` reads index -1 and throws |
| Leaderboard.BuildItems | Dexter/Commands/LevelingCommands/LeaderboardCommand.cs:50-54 | the loop builds the window |
| Leaderboard.LeaderboardCommand | Dexter/Commands/LevelingCommands/LeaderboardCommand.cs:26-59 | a refused range is answered with the reason; otherwise item k has rank min + k and pairs the (min + k)-th entries of two rankings, permutations of the levels by non-increasing text and voice experience |
| Leaderboard.Rotations | Dexter/Commands/LevelingCommands/LeaderboardCommand.cs:156-158 | leftrot = max(rot, 180), rightrot = min(rot, 180) |
| Leaderboard.Values | Dexter/Commands/LevelingCommands/LeaderboardCommand.cs:156-168 | the eight values in placeholder order: `text` or `voice hide`, the rank, the avatar URL, the name, the experience, the level and the two rotations |
| Leaderboard.PlaceholdersApart | Dexter/Commands/LevelingCommands/LeaderboardCommand.cs:160-168 | the placeholders each start with their only `$`, are distinct, and none is a prefix of another |
| Leaderboard.ReplaceSplit | Dexter/Commands/LevelingCommands/LeaderboardCommand.cs:160-168 | `Replace` of a placeholder works piecewise on text whose every `$` starts a placeholder |
| Leaderboard.ReplaceClears | Dexter/Commands/LevelingCommands/LeaderboardCommand.cs:160-168 | replacing a placeholder by a value without `$` leaves every other `$` starting one of the other placeholders |
| Leaderboard.ReplaceCanFormPlaceholder | Dexter/Commands/LevelingCommands/LeaderboardCommand.cs:160-168 | `Replace` can form a placeholder from a stray `$` and a value: `"$NA$NAME".Replace("$NAME", "ME")` is `"$NAME"` |
| Leaderboard.ReplaceEachClears | Dexter/Commands/LevelingCommands/LeaderboardCommand.cs:160-168 | when every `$` starts a placeholder and no value holds `$`, the replacement chain leaves no `$` |
| Leaderboard.ReplaceEachHole | Dexter/Commands/LevelingCommands/LeaderboardCommand.cs:160-168 | a placeholder on its own becomes its value |
| Leaderboard.ReplaceEachPieces | Dexter/Commands/LevelingCommands/LeaderboardCommand.cs:160-168 | a template of plain text and placeholders becomes the text with each placeholder written as its value |
| Leaderboard.RenderPieces | Dexter/Commands/LevelingCommands/LeaderboardCommand.cs:135-169 | `ReplaceAll` writes each placeholder of such a template as its value and leaves no `$` behind |
| Leaderboard.ItemPieces | Dexter/Commands/LevelingCommands/LeaderboardCommand.cs:177-181 | an item renders as the template filled with the text values, then the template filled with the voice values |
| Leaderboard.NoPlaceholder | Dexter/Commands/LevelingCommands/LeaderboardCommand.cs:160-168 | text without `$` holds no placeholder |
| Leaderboard.ReplaceKeepsPlain | Dexter/Commands/LevelingCommands/LeaderboardCommand.cs:160-168 | replacing a placeholder leaves text without `$` alone |
| Leaderboard.PlainTemplateTwice | Dexter/Commands/LevelingCommands/LeaderboardCommand.cs:177-181 | a template without placeholders renders as itself twice |
| CustomCommands.KeyIndex | Dexter/Databases/CustomCommands/CustomCommandDB.cs:30 | `Find(name)`: a row with that key, or -1 exactly when none has it |
| CustomCommands.AliasScan | Dexter/Databases/CustomCommands/CustomCommandDB.cs:34-38 | the alias scan finds a row or -1 |
| CustomCommands.ByNameOrAlias | Dexter/Databases/CustomCommands/CustomCommandDB.cs:28-41 | the lookup finds a row or -1 |
| CustomCommands.AliasScanFirst | Dexter/Databases/CustomCommands/CustomCommandDB.cs:34-38 | the scan returns the first row from its start whose alias list holds the name exactly |
| CustomCommands.ByNameOrAliasSound | Dexter/Databases/CustomCommands/CustomCommandDB.cs:28-41 | a key match wins; otherwise an exact alias match; -1 exactly when neither exists; only an empty name can throw |
| CustomCommands.Shape | Dexter/Databases/CustomCommands/CustomCommandDB.cs:28-41 | the names and aliases of the rows |
| CustomCommands.AliasScanShape | Dexter/Databases/CustomCommands/CustomCommandDB.cs:34-38 | the scan reads only names and aliases |
| CustomCommands.ByNameOrAliasShape | Dexter/Databases/CustomCommands/CustomCommandDB.cs:28-41 | the lookup reads only names and aliases |
| CustomCommands.ByUser | Dexter/Databases/CustomCommands/CustomCommandDB.cs:49-53 | the user lookup finds a row or -1 |
| CustomCommands.ByUserFirst | Dexter/Databases/CustomCommands/CustomCommandDB.cs:51-52 | -1 for id 0 or no match; otherwise the first row of that user and type, any type for `Unspecified` |
| CustomCommands.RemoveAt | Dexter/Commands/CustomCommands/CustomCommand.cs:288 | removing a row keeps the others in order |
| CustomCommands.RemoveKeepsValid | Dexter/Commands/CustomCommands/CustomCommand.cs:288 | removing a row keeps keys unique and one command per user and type |
| CustomCommands.ByUserAfterRemoval | Dexter/Commands/CustomCommands/CustomCommand.cs:220 | removing another row only shifts the user's command |
| CustomCommands.AfterIncompat | Dexter/Commands/CustomCommands/CustomCommand.cs:211-216 | removing an incompatible unattached command never grows the table |
| CustomCommands.AddRowKeepsValid | Dexter/Commands/CustomCommands/CustomCommand.cs:246-255 | adding a row keeps the table valid when the user has no command of that type |
| CustomCommands.ClaimKeepsValid | Dexter/Commands/CustomCommands/CustomCommand.cs:236-243 | attaching an unattached command to a user without one keeps the table valid |
| CustomCommands.ReplacedIsOnly | Dexter/Commands/CustomCommands/CustomCommand.cs:218-222 | in a valid table, removing the user's command leaves none of that type |
| CustomCommands.AttachKeepsValid | Dexter/Commands/CustomCommands/CustomCommand.cs:218-244 | the attached branches keep the table valid |
| CustomCommands.CreateKeepsValid | Dexter/Commands/CustomCommands/CustomCommand.cs:201-256 | the creation callback keeps the table valid |
| CustomCommands.AppendedFound | Dexter/Commands/CustomCommands/CustomCommand.cs:246-255 | an appended row is found under its own name |
| CustomCommands.AttachThenFound | Dexter/Commands/CustomCommands/CustomCommand.cs:218-244 | after a successful attach, the name finds a row with the new reply, user and type |
| CustomCommands.CreateThenFound | Dexter/Commands/CustomCommands/CustomCommand.cs:201-256 | after a successful creation, the name finds a row with the new reply, user and type |
| CustomCommands.EditReplyOnlyReply | Dexter/Commands/CustomCommands/CustomCommand.cs:266-274 | an edit changes only the reply of the looked-up row, returns the old reply, and keeps lookups and validity |
| CustomCommands.EditThenFound | Dexter/Commands/CustomCommands/CustomCommand.cs:266-274 | after an edit the name finds the same row, with the new reply |
| CustomCommands.RemoveByNameGone | Dexter/Commands/CustomCommands/CustomCommand.cs:284-291 | removal takes out exactly the looked-up row, and in a valid table its key is then gone |
| CustomCommands.AddCheckIgnoresCase | Dexter/Commands/CustomCommands/CustomCommand.cs:49-70 | `cc add Foo` passes the check beside `foo`, and its approval then fails with `DbUpdateException` |
| CustomCommands.AddRefusalFixed | Dexter/Commands/CustomCommands/CustomCommand.cs:40-66 | an empty reply is refused, and an accepted reply is non-empty and within the maximum |
| CustomCommands.FixedAddApprovable | Dexter/Commands/CustomCommands/CustomCommand.cs:68-70 | a suggestion passing the corrected check is added under its lower-case name on approval |
| CustomCommands.CustomCommandDB.constructor | Dexter/Databases/CustomCommands/CustomCommandDB.cs:28 | a new table is empty |
| CustomCommands.CustomCommandDB.GetCommandByNameOrAlias | Dexter/Databases/CustomCommands/CustomCommandDB.cs:28-41 | the key lookup, then the alias loop, compute the name-or-alias lookup |
| CustomCommands.CustomCommandDB.Add | Dexter/Commands/CustomCommands/CustomCommand.cs:246-255 | appends the row, or throws `DbUpdateException` on a taken key and leaves the table unchanged |
| CustomCommands.CommandModule.constructor | Dexter/Commands/CustomCommands/CustomCommand.cs:35 | the module holds the table and its settings, with nothing sent for approval |
| CustomCommands.CommandModule.CreateCommandCallback | Dexter/Commands/CustomCommands/CustomCommand.cs:201-256 | the outcome and the new table are those of the creation |
| CustomCommands.CommandModule.AttachCommand | Dexter/Commands/CustomCommands/CustomCommand.cs:218-244 | the outcome and the new table are those of the attach |
| CustomCommands.CommandModule.EditCommandCallback | Dexter/Commands/CustomCommands/CustomCommand.cs:266-274 | the looked-up row gets the reply, and a missing command throws `NullReferenceException` |
| CustomCommands.CommandModule.RemoveCommandCallback | Dexter/Commands/CustomCommands/CustomCommand.cs:284-291 | removes the looked-up row |
| CustomCommands.CommandModule.EditCommandsAsync | Commands/CustomCommands/EditCommand.cs:17-33 | `InvalidOperationException` when nothing matches; otherwise the matched row's reply is replaced and the old reply returned |
| CustomCommands.CommandModule.CcCommand | Dexter/Commands/CustomCommands/CustomCommand.cs:35-188 | add refuses an empty reply, an existing command and an over-long reply in that order, or sends the lower-case name for approval; edit applies at once only for the caller's own staff command; remove suggests; get shows the reply and aliases; only edit touches the table |

## Left out

- Discord, the database and files are not modelled: embeds, async entry points, `SaveChanges`, and `LeaderboardPath` with its HTML, files and streams.
- The timer wiring in `LevelingService.Initialize` is not modelled. `HandleJoin` is `UpdateRoles` with the default arguments, so it has no member of its own.
- Randomness: every `Random` is one injected stream of draws (`Rng`). A fresh `new Random()` is that stream too.
- ProcessMath: the work-in-progress scan whose loop (MathCommand.cs:138-422) wraps the whole evaluator is not modelled; the evaluator is modelled as if its body ran once. So the model does not have: the `FormatException` that `Double.Parse` of a text such as `*4` raises at line 155 for `2*4`; the "Unbalanced or unexpected opening parenthesis" error that the `Depth` count (160, 232-233) raises for an expression ending in `)`; and the body running again when no operator splits. Neither are the commented-out function and constant branches (340-421), the `Symbols` table with its domain predicates `IsLessThanOne`, `IsStrictPositive`, `IsPositive` and `MVLogCheck` (117-126), or the `Math.*` functions other than `Math.Pow`.
- Simplify: the value of a group that itself holds parentheses is stated only to exist. The pre-pass only hands it innermost groups, which hold none.
- An unmatched `(` makes the parenthesis pre-pass loop forever. That case is the `Diverges` outcome.
- The evaluator uses exact reals. `Math.Pow`, `double.ToString` and `double.Parse` are the `pow`, `show` and `parse` of a `Host`. Double rounding and infinities are not modelled. The factorial overflow is the exact product reaching the double range.
- ToLower: maps only the ASCII letters A-Z; .NET also lowers the other Unicode upper-case letters.
- ToUpper: maps only the ASCII letters a-z; .NET also raises the other Unicode lower-case letters.
- Multiplicand: digits are the ASCII digits; `char.IsDigit` also accepts the other Unicode decimal digits.
- `int.Parse` and `int.TryParse` read an optional sign and digits only. Whitespace, culture and thousands separators are not modelled.
- `TimeSpan.FromHours`, float offsets and `ToTimeZoneExpression` formatting are exact reals here; only the whole-minute truncation is kept. `TryParseTime`, `ParseMonth`, `DayInYear.TryParse` and `DaylightShiftRules.TryParse` rely on regular expressions and culture tables, and are not modelled.
- RenderPieces: states the rendering of templates whose every `$` starts a placeholder and of values without `$`. `string.Replace` can otherwise join a stray `$` and a value into a placeholder that a later replacement rewrites (`ReplaceCanFormPlaceholder`).
- `IsHyperLink` is a regular expression. It is a predicate parameter here.
- Hyperlinks.GetHyperLinks: states which pieces are returned, not their order or how often each repeats. `CheckForLinks` states both.
- `Dictionary` and `HashSet` iteration order is modelled as insertion order. For the term classes, that is the order of the banks.
- `string.CompareTo` is modelled as ordinal comparison (`LexLe`).
- `List.Sort` is unstable. The model states only that the result is a sorted permutation.
- `GetDayOfWeek` and `GetDaysInMonth` are the proleptic Gregorian calendar, written out.
- The `Weekday` and `Month` enums are integers: Monday is 0, inferred from UserProfile.cs:409, and January is 1.
- `IsDST` uses the corrected threshold day (see Findings).
- Roles are sets of ids. A missing guild member is `None`.
- `guild.GetRole` returning null for an unknown role id is not modelled.
- The level record's `TotalLevel` is the `storedLevel` argument.
- `RestrictionsDB` is the `restricted` set of user ids.
- `IncrementUserXP` appends to a grant ledger. Level-up messages are not modelled.
- Usernames, discriminators and mentions are given strings.
- The leaderboard's user lookup, avatar URL, `ToUnit` and `GetLevelFromXP` results are given values. The rotation is given as an integer.
- Custom-command aliases are the deserialised list. The empty alias text stored for a new command is `None`.
- The `Enum.Parse` and `ulong.Parse` of the callback parameters, and a null reply, are not modelled. A null reply counts as empty.
- `UserCommandSource` members other than `Unspecified` and `Staff` are told apart by a number.
- `SendForAdminApproval` appends the proposal to an outbox.
- `cc add` in the model uses the corrected existence check (see Findings).
- The leaderboard command uses the corrected range check (see Findings).
- Plural modifiers in templates use the corrected plural (see Findings).

## Findings

| source | as written | input that shows it | evidently intended | confidence | as-written member | corrected member |
|---|---|---|---|---|---|---|
| Dexter/Helpers/LanguageHelper.cs:231 | a word ending in consonant + `y` becomes its last character + `ies` | `city` gives `yies` | the stem without the `y`, then `ies`: `cities` | high, not executed | Language.PluralOfCity | Language.GuessPluralFixed |
| Dexter/Helpers/LanguageHelper.cs:612 | the minutes after the sign are always added positively | `UTC-3:30` gives -2.5 hours | the minutes take the sign: -3.5 | medium, not executed | TimeZones.HalfHourBehind | TimeZones.ParseTimeZoneFixed |
| Dexter/Databases/UserProfiles/UserProfile.cs:410 | the weekday difference is `monthStartWeekday - RelativeWeekday` | European start (last Sunday of March) in 2024 gives the 27th, a Wednesday | `RelativeWeekday - monthStartWeekday`: the 31st, a Sunday | high, not executed | Daylight.EuropeanStart2024 | Daylight.ThresholdFixedIsWanted |
| Dexter/Commands/LevelingCommands/LeaderboardCommand.cs:28-43 | the range check never requires min ≥ 1 | `levels 0 10` passes and then reads index -1 | refuse a minimum below rank 1 | high, not executed | Leaderboard.WindowRankZeroThrows | Leaderboard.WindowOfValidRange |
| Dexter/Commands/LevelingCommands/LeaderboardCommand.cs:36 | `max - min` is computed in unchecked 32-bit arithmetic | min = -2147483647, max = 1: the span wraps to a negative number and passes | the true span is compared with the maximum | medium, not executed | Leaderboard.RangeAcceptsWrappedSpan | Leaderboard.FixedRangeNarrower |
| Dexter/Commands/CustomCommands/CustomCommand.cs:49 | the existence check looks up the name as typed, but line 70 stores it lower-cased | with `foo` in the table, `cc add Foo hello` is suggested, and its approval fails with `DbUpdateException` | look up the lower-case name that will be stored | high, not executed | CustomCommands.AddCheckIgnoresCase | CustomCommands.FixedAddApprovable |
