/**
 * The English helpers of `LanguageHelper`: white space, splitting and
 * joining, articles, vowels, possessives, ordinals, case matching, plurals
 * and the identifier-index check of term templates. Characters are compared
 * by code point and case is changed for ASCII letters only.
 */
module Language {
  import opened Common

  // ===========================================================================
  // Whitespace, trimming and splitting
  // ===========================================================================

  /** `char.IsWhiteSpace`: the Unicode space, line and paragraph
      separators, the control characters U+0009 to U+000D, and U+0085. */
  predicate IsWhiteSpace(c: char)
  {
    || ('\U{0009}' <= c <= '\U{000D}') || c == ' ' || c == '\U{0085}' || c == '\U{00A0}'
    || c == '\U{1680}' || ('\U{2000}' <= c <= '\U{200A}') || c == '\U{2028}' || c == '\U{2029}'
    || c == '\U{202F}' || c == '\U{205F}' || c == '\U{3000}'
  }

  function TrimStart(s: string): (r: string)
    ensures EndsWith(s, r)
    ensures r == [] || !IsWhiteSpace(r[0])
    ensures forall k :: 0 <= k < |s| - |r| ==> IsWhiteSpace(s[k])
  {
    if s != [] && IsWhiteSpace(s[0]) then TrimStart(s[1..]) else s
  }

  function TrimEnd(s: string): (r: string)
    ensures StartsWith(s, r)
    ensures r == [] || !IsWhiteSpace(r[|r| - 1])
    ensures forall k :: |r| <= k < |s| ==> IsWhiteSpace(s[k])
  {
    if s != [] && IsWhiteSpace(s[|s| - 1]) then TrimEnd(s[..|s| - 1]) else s
  }

  /** `s.Trim()`: leading and trailing whitespace removed. */
  function Trim(s: string): string
  {
    TrimEnd(TrimStart(s))
  }

  /** A trimmed text that is not empty starts with a non-space. */
  lemma TrimmedStartsWithText(s: string)
    ensures Trim(s) != [] ==> !IsWhiteSpace(Trim(s)[0])
  {
    var t := TrimStart(s);
    if Trim(s) != [] {
      assert Trim(s)[0] == t[0];
    }
  }

  /** `s.Split(sep)`: the pieces between separators, empty ones included. */
  function Split(s: string, sep: char): (parts: seq<string>)
    ensures |parts| >= 1
    decreases |s|
  {
    var i := IndexOf(s, sep);
    if i < 0 then [s] else [s[..i]] + Split(s[i + 1..], sep)
  }

  /** `string.Join(sep, parts)`. */
  function Join(parts: seq<string>, sep: char): string
    requires |parts| >= 1
  {
    if |parts| == 1 then parts[0] else parts[0] + [sep] + Join(parts[1..], sep)
  }

  /** Splitting and joining with the same separator gives the text back. */
  lemma {:induction false} JoinSplit(s: string, sep: char)
    ensures Join(Split(s, sep), sep) == s
    decreases |s|
  {
    var i := IndexOf(s, sep);
    if i >= 0 {
      var rest := Split(s[i + 1..], sep);
      SplitAt(s, sep, i);
      JoinFirst(s[..i], rest, sep);
      JoinSplit(s[i + 1..], sep);
      RejoinAt(s, sep, i);
    }
  }

  /** `Split` cuts at the first separator and splits the rest. */
  lemma SplitAt(s: string, sep: char, i: int)
    requires i == IndexOf(s, sep) && 0 <= i < |s|
    ensures Split(s, sep) == [s[..i]] + Split(s[i + 1..], sep)
  {
  }

  /** `Join` puts the separator after the first part. */
  lemma JoinFirst(first: string, rest: seq<string>, sep: char)
    requires |rest| >= 1
    ensures Join([first] + rest, sep) == first + [sep] + Join(rest, sep)
  {
    assert ([first] + rest)[1..] == rest;
  }

  /** The text is the part before a separator, the separator and the part
      after it. */
  lemma RejoinAt(s: string, sep: char, i: int)
    requires 0 <= i < |s| && s[i] == sep
    ensures s[..i] + [sep] + s[i + 1..] == s
  {
  }

  // ===========================================================================
  // Articles, vowels, possessives, ordinals
  // ===========================================================================

  /** `IsVowel`: a, e, i, o or u in either case. */
  predicate IsVowel(c: char)
  {
    var l := ToLowerChar(c);
    l == 'a' || l == 'e' || l == 'i' || l == 'o' || l == 'u'
  }

  /** `IsConsonant`: a Latin letter that is not a vowel, so `y` is one. */
  function IsConsonant(c: char): (b: bool)
    ensures b ==> !IsVowel(c)
    ensures ToLowerChar(c) == 'y' ==> b
    ensures IsVowel(c) || !(IsUpperChar(c) || IsLowerChar(c)) <==> !b
  {
    'a' <= ToLowerChar(c) <= 'z' && !IsVowel(c)
  }

  /** The first word of `s`, up to its first space. */
  function FirstWord(s: string): (w: string)
    ensures StartsWith(s, w) && !ContainsChar(w, ' ')
  {
    var i := IndexOf(s, ' ');
    IndexOfMissing(s, ' ');
    if i < 0 then s else s[..i]
  }

  /** The article for a word whose first letter, lower-cased, is `c`: "an"
      before a, e, i and o, "a(n)" before h and u, "a" otherwise. */
  function ArticleFor(c: char, capitalize: bool): (a: string)
    ensures |a| >= 1 && a[0] == if capitalize then 'A' else 'a'
  {
    match c
    case 'a' | 'e' | 'i' | 'o' => if capitalize then "An" else "an"
    case 'h' | 'u' => if capitalize then "A(n)" else "a(n)"
    case _ => if capitalize then "A" else "a"
  }

  /** `GuessIndefiniteArticle`: decided by the first letter of the first word
      of the trimmed text; reading that letter of an empty word throws. */
  function GuessIndefiniteArticle(nextWord: string, capitalize: bool): (r: Outcome<string>)
    ensures r.Thrown? <==> Trim(nextWord) == ""
    ensures r.Thrown? ==> r.exception == "IndexOutOfRangeException"
    ensures r.Ok? ==> |r.value| >= 1 && r.value[0] == if capitalize then 'A' else 'a'
  {
    var relevant := ToLower(FirstWord(Trim(nextWord)));
    TrimmedStartsWithText(nextWord);
    if relevant == [] then
      Thrown("IndexOutOfRangeException")
    else
      assert relevant[0] == ToLowerChar(Trim(nextWord)[0]);
      Ok(ArticleFor(relevant[0], capitalize))
  }

  /** The article depends only on the first letter of the trimmed text. */
  lemma ArticleOfFirstLetter(nextWord: string, capitalize: bool)
    requires Trim(nextWord) != ""
    ensures GuessIndefiniteArticle(nextWord, capitalize)
            == Ok(ArticleFor(ToLowerChar(Trim(nextWord)[0]), capitalize))
  {
    TrimmedStartsWithText(nextWord);
    assert ToLower(FirstWord(Trim(nextWord)))[0] == ToLowerChar(Trim(nextWord)[0]);
  }

  /** The article is one of three, chosen by the first letter of the
      trimmed text: "an" exactly before a, e, i, o and "a(n)" exactly before
      h, u. */
  lemma ArticleChoices(nextWord: string, capitalize: bool)
    requires Trim(nextWord) != ""
    ensures var r := GuessIndefiniteArticle(nextWord, capitalize);
            r.Ok? && r.value in (if capitalize then {"An", "A(n)", "A"} else {"an", "a(n)", "a"})
    ensures var r := GuessIndefiniteArticle(nextWord, capitalize);
            var c := ToLowerChar(Trim(nextWord)[0]);
            && ((r.value == "an" || r.value == "An") <==> c in "aeio")
            && ((r.value == "a(n)" || r.value == "A(n)") <==> c in "hu")
  {
    var c := ToLowerChar(Trim(nextWord)[0]);
    ArticleOfFirstLetter(nextWord, capitalize);
    assert c in "aeio" <==> c == 'a' || c == 'e' || c == 'i' || c == 'o';
    assert c in "hu" <==> c == 'h' || c == 'u';
  }

  /** The capitalised article is the lower-case one with its first letter
      raised. */
  lemma ArticleCapitalised(nextWord: string)
    requires Trim(nextWord) != ""
    ensures var lower := GuessIndefiniteArticle(nextWord, false).value;
            GuessIndefiniteArticle(nextWord, true).value == [ToUpperChar(lower[0])] + lower[1..]
  {
    ArticleOfFirstLetter(nextWord, false);
    ArticleOfFirstLetter(nextWord, true);
  }

  /** `Possessive`: an apostrophe after a final `s`, `'s` otherwise. */
  function Possessive(input: string): (r: string)
    ensures StartsWith(r, input) && |r| > |input| && r[|input|] == '\''
    ensures |r| == |input| + 1 <==> EndsWith(input, "s")
    ensures EndsWith(r, "s'") || EndsWith(r, "'s")
  {
    input + "'" + (if EndsWith(input, "s") then "" else "s")
  }

  /** The magnitude `Ordinal` works on: the unchecked negation of a negative
      number, so `int.MinValue` stays negative. */
  function OrdinalBase(n: int): (m: int)
    requires IsInt32(n)
    ensures n != INT32_MIN ==> m == Abs(n)
    ensures n == INT32_MIN ==> m == INT32_MIN
  {
    if n < 0 then Wrap32(-n) else n
  }

  /** The suffix `Ordinal` writes, with C#'s truncating `/` and `%`: `th`
      when the tens digit is 1, else by the last digit. */
  function OrdinalSuffix(m: int): string
  {
    if TruncDiv(TruncRem(m, 100), 10) == 1 then "th"
    else
      var last := TruncRem(m, 10);
      if last == 1 then "st" else if last == 2 then "nd" else if last == 3 then "rd" else "th"
  }

  /** The English rule for ordinal suffixes: 11th, 12th and 13th, otherwise
      1st, 2nd, 3rd by the last digit, and th for the rest. */
  function EnglishSuffix(k: nat): string
  {
    if k % 100 == 11 || k % 100 == 12 || k % 100 == 13 then "th"
    else if k % 10 == 1 then "st"
    else if k % 10 == 2 then "nd"
    else if k % 10 == 3 then "rd"
    else "th"
  }

  /** `Ordinal`: the number without its sign, then its suffix. */
  function Ordinal(n: int): (r: string)
    requires IsInt32(n)
    ensures n != INT32_MIN ==> r == NatToString(Abs(n)) + EnglishSuffix(Abs(n))
    ensures n == INT32_MIN ==> r == "-2147483648th"
  {
    var m := OrdinalBase(n);
    var r := IntToString(m) + OrdinalSuffix(m);
    if m >= 0 then SuffixIsEnglish(m); r else r
  }

  /** Testing the tens digit for 1, as the source does, agrees with the
      English rule on every non-negative number. */
  lemma SuffixIsEnglish(k: nat)
    ensures OrdinalSuffix(k) == EnglishSuffix(k)
  {
    var t := k % 100;
    assert TruncRem(k, 100) == t;
    assert TruncDiv(t, 10) == t / 10;
    assert TruncRem(k, 10) == k % 10;
    assert t % 10 == k % 10;
  }

  /** A number and its negation have the same ordinal. */
  lemma OrdinalIgnoresSign(n: int)
    requires IsInt32(n) && n != INT32_MIN
    ensures Ordinal(-n) == Ordinal(n)
  {
    assert Abs(-n) == Abs(n);
  }

  // ===========================================================================
  // Case matching
  // ===========================================================================

  /** `MatchCase(char, char)`: upper case when the pattern is upper case,
      lower case otherwise. */
  function MatchCaseChar(input: char, pattern: char): (r: char)
    ensures ToLowerChar(r) == ToLowerChar(input)
    ensures IsUpperChar(pattern) && IsLowerChar(input) ==> IsUpperChar(r)
    ensures !IsUpperChar(pattern) ==> !IsUpperChar(r)
  {
    if IsUpperChar(pattern) then ToUpperChar(input) else ToLowerChar(input)
  }

  /** The text `MatchCase(string, string)` builds. */
  function CaseMatched(input: string, pattern: string): string
  {
    seq(|input|, k requires 0 <= k < |input| =>
      if k < |pattern| then MatchCaseChar(input[k], pattern[k]) else input[k])
  }

  /** `MatchCase(string, string)`: as long as both texts last, each letter of
      the input takes the case of the pattern's letter; the rest of the input
      is copied unchanged. */
  method MatchCase(input: string, pattern: string) returns (r: string)
    ensures |r| == |input|
    ensures forall k :: 0 <= k < |input| && k < |pattern| ==> r[k] == MatchCaseChar(input[k], pattern[k])
    ensures r[Min(|input|, |pattern|)..] == input[Min(|input|, |pattern|)..]
    ensures r == CaseMatched(input, pattern)
  {
    var matched := if |input| < |pattern| then |input| else |pattern|;
    r := "";
    var i := 0;
    while i < matched
      invariant 0 <= i <= matched
      invariant |r| == i
      invariant forall k :: 0 <= k < i ==> r[k] == MatchCaseChar(input[k], pattern[k])
    {
      r := r + [MatchCaseChar(input[i], pattern[i])];
      i := i + 1;
    }
    if matched < |input| {
      r := r + input[matched..];
    }
  }

  function Min(a: int, b: int): int { if a < b then a else b }

  /** Case matching changes only case: the letters stay the same. */
  lemma CaseMatchedKeepsLetters(input: string, pattern: string)
    ensures ToLower(CaseMatched(input, pattern)) == ToLower(input)
  {
  }

  /** A text already in the pattern's case is left as it is. */
  lemma CaseMatchedSelf(s: string)
    ensures CaseMatched(s, s) == s
  {
    forall k | 0 <= k < |s|
      ensures CaseMatched(s, s)[k] == s[k]
    {
    }
  }

  // ===========================================================================
  // Plurals
  // ===========================================================================

  /** The suffix rules of `GuessPlural`, in the order they are tried. */
  datatype PluralRule =
    | OnUmToA | UsToI | IsToEs | ExIxToIces | NoLetters
    | SibilantDoubled | Sibilant | FeToVes | FToVes
    | LoneY | VowelY | ConsonantY | OShChX | Default

  /** The shortest word each rule can be chosen for, so that it can cut
      the letters it replaces. */
  function MinLength(rule: PluralRule): nat
  {
    match rule
    case OnUmToA | UsToI | IsToEs | ExIxToIces | FeToVes | VowelY | ConsonantY => 2
    case SibilantDoubled => 3
    case Sibilant | FToVes | OShChX | LoneY => 1
    case NoLetters | Default => 0
  }

  /** The position of each rule in the order `GuessPlural` tries them. */
  function Order(rule: PluralRule): nat
  {
    match rule
    case OnUmToA => 0
    case UsToI => 1
    case IsToEs => 2
    case ExIxToIces => 3
    case NoLetters => 4
    case SibilantDoubled => 5
    case Sibilant => 6
    case FeToVes => 7
    case FToVes => 8
    case LoneY => 9
    case VowelY => 10
    case ConsonantY => 11
    case OShChX => 12
    case Default => 13
  }

  /** The test `GuessPlural` makes on the lower-cased word for each rule.
      Reading the last letter of an empty word throws, which is the
      `NoLetters` rule; reading the letter before a lone `y` throws, which
      is the `LoneY` rule. */
  predicate Passes(rule: PluralRule, lower: string)
  {
    var n := |lower|;
    match rule
    case OnUmToA => EndsWith(lower, "on") || EndsWith(lower, "um")
    case UsToI => EndsWith(lower, "us")
    case IsToEs => EndsWith(lower, "is")
    case ExIxToIces => EndsWith(lower, "ex") || EndsWith(lower, "ix")
    case NoLetters => n == 0
    case SibilantDoubled =>
      n > 2 && (lower[n - 1] == 's' || lower[n - 1] == 'z')
      && IsConsonant(lower[n - 3]) && IsVowel(lower[n - 2]) && IsConsonant(lower[n - 1])
    case Sibilant => n > 0 && (lower[n - 1] == 's' || lower[n - 1] == 'z')
    case FeToVes => EndsWith(lower, "fe")
    case FToVes => EndsWith(lower, "f")
    case LoneY => EndsWith(lower, "y") && n < 2
    case VowelY => EndsWith(lower, "y") && n >= 2 && IsVowel(lower[n - 2])
    case ConsonantY => EndsWith(lower, "y")
    case OShChX => n > 0 && (lower[n - 1] == 'o' || lower[n - 1] == 'x' || EndsWith(lower, "sh") || EndsWith(lower, "ch"))
    case Default => true
  }

  /** `rule` is the first rule, in the order they are tried, whose test the
      lower-cased word passes. */
  predicate FirstPassing(rule: PluralRule, lower: string)
  {
    Passes(rule, lower) && forall r :: Order(r) < Order(rule) ==> !Passes(r, lower)
  }

  /** At most one rule passes first. */
  lemma FirstPassingUnique(a: PluralRule, b: PluralRule, lower: string)
    requires FirstPassing(a, lower) && FirstPassing(b, lower)
    ensures a == b
  {
    assert Order(a) < Order(b) ==> !Passes(a, lower);
    assert Order(b) < Order(a) ==> !Passes(b, lower);
    OrderInjective(a, b);
  }

  lemma OrderInjective(a: PluralRule, b: PluralRule)
    requires Order(a) == Order(b)
    ensures a == b
  {
  }

  /** The first suffix rule whose test the lower-cased word passes. */
  function RuleOf(lower: string): (rule: PluralRule)
    ensures FirstPassing(rule, lower)
    ensures |lower| >= MinLength(rule)
  {
    var rule :=
      if EndsWith(lower, "on") || EndsWith(lower, "um") then OnUmToA
      else if EndsWith(lower, "us") then UsToI
      else if EndsWith(lower, "is") then IsToEs
      else if EndsWith(lower, "ex") || EndsWith(lower, "ix") then ExIxToIces
      else if |lower| == 0 then NoLetters
      else EnglishRule(lower);
    FirstByOrder(rule, lower);
    rule
  }

  /** A rule whose test passes is the first to pass once every rule tried
      before it fails. */
  lemma FirstByOrder(rule: PluralRule, lower: string)
    requires Passes(rule, lower)
    requires Order(rule) > 0 ==> !Passes(OnUmToA, lower)
    requires Order(rule) > 1 ==> !Passes(UsToI, lower)
    requires Order(rule) > 2 ==> !Passes(IsToEs, lower)
    requires Order(rule) > 3 ==> !Passes(ExIxToIces, lower)
    requires Order(rule) > 4 ==> !Passes(NoLetters, lower)
    requires forall r :: Order(NoLetters) < Order(r) < Order(rule) ==> !Passes(r, lower)
    ensures FirstPassing(rule, lower)
  {
    forall r | Order(r) < Order(rule)
      ensures !Passes(r, lower)
    {
      match r
      case OnUmToA =>
      case UsToI =>
      case IsToEs =>
      case ExIxToIces =>
      case NoLetters =>
      case _ =>
    }
  }

  /** The rules after the Latin endings, for a word with letters: the first
      of them whose test passes. The one- and two-letter endings are read
      letter by letter. */
  function EnglishRule(lower: string): (rule: PluralRule)
    requires |lower| > 0
    ensures Order(rule) > Order(NoLetters) && Passes(rule, lower)
    ensures forall r :: Order(NoLetters) < Order(r) < Order(rule) ==> !Passes(r, lower)
    ensures |lower| >= MinLength(rule)
  {
    var n := |lower|;
    var last := lower[n - 1];
    EndingsByLetter(lower);
    var rule :=
      if last == 's' || last == 'z' then SibilantRule(lower)
      else if n >= 2 && lower[n - 2] == 'f' && last == 'e' then FeToVes
      else if last == 'f' then FToVes
      else if last == 'y' then
        if n < 2 then LoneY
        else if IsVowel(lower[n - 2]) then VowelY
        else ConsonantY
      else if last == 'o' || last == 'x' || (n >= 2 && (lower[n - 2] == 's' || lower[n - 2] == 'c') && last == 'h')
      then OShChX
      else Default;
    EnglishFirst(rule, lower);
    rule
  }

  /** The one- and two-letter endings, read letter by letter. */
  lemma EndingsByLetter(lower: string)
    requires |lower| > 0
    ensures var n, last := |lower|, lower[|lower| - 1];
            && (EndsWith(lower, "fe") <==> n >= 2 && lower[n - 2] == 'f' && last == 'e')
            && (EndsWith(lower, "f") <==> last == 'f')
            && (EndsWith(lower, "y") <==> last == 'y')
            && (EndsWith(lower, "sh") <==> n >= 2 && lower[n - 2] == 's' && last == 'h')
            && (EndsWith(lower, "ch") <==> n >= 2 && lower[n - 2] == 'c' && last == 'h')
  {
  }

  /** A rule after the Latin endings is the first of them to pass once
      every one tried before it fails. */
  lemma EnglishFirst(rule: PluralRule, lower: string)
    requires Order(rule) > Order(NoLetters) && Passes(rule, lower)
    requires Order(rule) > 5 ==> !Passes(SibilantDoubled, lower)
    requires Order(rule) > 6 ==> !Passes(Sibilant, lower)
    requires Order(rule) > 7 ==> !Passes(FeToVes, lower)
    requires Order(rule) > 8 ==> !Passes(FToVes, lower)
    requires Order(rule) > 9 ==> !Passes(LoneY, lower)
    requires Order(rule) > 10 ==> !Passes(VowelY, lower)
    requires Order(rule) > 11 ==> !Passes(ConsonantY, lower)
    requires Order(rule) > 12 ==> !Passes(OShChX, lower)
    ensures forall r :: Order(NoLetters) < Order(r) < Order(rule) ==> !Passes(r, lower)
  {
    forall r | Order(NoLetters) < Order(r) < Order(rule)
      ensures !Passes(r, lower)
    {
      match r
      case SibilantDoubled =>
      case Sibilant =>
      case FeToVes =>
      case FToVes =>
      case LoneY =>
      case VowelY =>
      case ConsonantY =>
      case OShChX =>
      case _ =>
    }
  }

  /** A word ending in `s` or `z` doubles that letter after a
      consonant-vowel pair, and otherwise takes `es`. */
  function SibilantRule(lower: string): (rule: PluralRule)
    requires |lower| > 0 && (lower[|lower| - 1] == 's' || lower[|lower| - 1] == 'z')
    ensures rule == SibilantDoubled || rule == Sibilant
    ensures rule == SibilantDoubled <==> Passes(SibilantDoubled, lower)
    ensures |lower| >= MinLength(rule)
  {
    var n := |lower|;
    if n > 2 && IsConsonant(lower[n - 3]) && IsVowel(lower[n - 2]) && IsConsonant(lower[n - 1])
    then SibilantDoubled
    else Sibilant
  }

  /** What a suffix rule as written makes of the word. The "consonant + y"
      rule returns the final `y` followed by `ies`, dropping the stem;
      reading the letter before the end of a one-letter or empty word
      throws. */
  function ApplyRule(singular: string, rule: PluralRule): (r: Outcome<string>)
    requires |singular| >= MinLength(rule)
    ensures r.Thrown? <==> rule == NoLetters || rule == LoneY
    ensures r.Thrown? ==> r.exception == "IndexOutOfRangeException"
    ensures r.Ok? ==> EndsWith(r.value, "a") || EndsWith(r.value, "i") || EndsWith(r.value, "s")
  {
    var n := |singular|;
    match rule
    case OnUmToA => Ok(singular[..n - 2] + "a")
    case UsToI => Ok(singular[..n - 2] + "i")
    case IsToEs => Ok(singular[..n - 2] + "es")
    case ExIxToIces => Ok(singular[..n - 2] + "ices")
    case NoLetters => Thrown("IndexOutOfRangeException")
    case SibilantDoubled => Ok(singular + [singular[n - 1]] + "es")
    case Sibilant => Ok(singular + "es")
    case FeToVes => Ok(singular[..n - 2] + "ves")
    case FToVes => Ok(singular[..n - 1] + "ves")
    case LoneY => Thrown("IndexOutOfRangeException")
    case VowelY => Ok(singular + "s")
    case ConsonantY => Ok([singular[n - 1]] + "ies")
    case OShChX => Ok(singular + "es")
    case Default => Ok(singular + "s")
  }

  /** `GuessPlural` as written: the irregular table (case-matched) first, then
      the first suffix rule that applies. */
  function GuessPlural(singular: string, irregular: map<string, string>): (r: Outcome<string>)
    ensures var lower := ToLower(singular);
            lower in irregular ==> r == Ok(CaseMatched(irregular[lower], singular))
    ensures var lower := ToLower(singular);
            r.Thrown? <==> lower !in irregular && (singular == "" || lower == "y")
    ensures r.Thrown? ==> r.exception == "IndexOutOfRangeException"
    ensures r.Ok? && ToLower(singular) !in irregular ==>
              EndsWith(r.value, "a") || EndsWith(r.value, "i") || EndsWith(r.value, "s")
  {
    var lower := ToLower(singular);
    if lower in irregular then Ok(CaseMatched(irregular[lower], singular))
    else ApplyRule(singular, RuleOf(lower))
  }

  /** The plural of a word outside the irregular table, for each ending, in
      the order the endings are tested. */
  lemma PluralByEnding(singular: string, irregular: map<string, string>)
    requires ToLower(singular) !in irregular
    ensures var lower, n, r := ToLower(singular), |singular|, GuessPlural(singular, irregular);
            && (FirstPassing(OnUmToA, lower) ==> r == Ok(singular[..n - 2] + "a"))
            && (FirstPassing(UsToI, lower) ==> r == Ok(singular[..n - 2] + "i"))
            && (FirstPassing(IsToEs, lower) ==> r == Ok(singular[..n - 2] + "es"))
            && (FirstPassing(ExIxToIces, lower) ==> r == Ok(singular[..n - 2] + "ices"))
            && (FirstPassing(NoLetters, lower) ==> r == Thrown("IndexOutOfRangeException"))
            && (FirstPassing(SibilantDoubled, lower) ==> r == Ok(singular + [singular[n - 1]] + "es"))
            && (FirstPassing(Sibilant, lower) ==> r == Ok(singular + "es"))
            && (FirstPassing(FeToVes, lower) ==> r == Ok(singular[..n - 2] + "ves"))
            && (FirstPassing(FToVes, lower) ==> r == Ok(singular[..n - 1] + "ves"))
            && (FirstPassing(LoneY, lower) ==> r == Thrown("IndexOutOfRangeException"))
            && (FirstPassing(VowelY, lower) ==> r == Ok(singular + "s"))
            && (FirstPassing(ConsonantY, lower) ==> r == Ok([singular[n - 1]] + "ies"))
            && (FirstPassing(OShChX, lower) ==> r == Ok(singular + "es"))
            && (FirstPassing(Default, lower) ==> r == Ok(singular + "s"))
  {
    var lower := ToLower(singular);
    var rule := RuleOf(lower);
    forall other | FirstPassing(other, lower)
      ensures other == rule
    {
      FirstPassingUnique(other, rule, lower);
    }
  }

  /** Every word has exactly one first passing rule, so the endings of
      `PluralByEnding` cover every word. */
  lemma SomeRulePasses(lower: string)
    ensures exists rule :: FirstPassing(rule, lower)
  {
    var rule := RuleOf(lower);
    assert FirstPassing(rule, lower);
  }

  /** `GuessPlural` with the "consonant + y" rule keeping the stem: the `y`
      is replaced by `ies`. */
  function GuessPluralFixed(singular: string, irregular: map<string, string>): (r: Outcome<string>)
    ensures ToLower(singular) !in irregular && RuleOf(ToLower(singular)) == ConsonantY ==>
              r == Ok(singular[..|singular| - 1] + "ies")
    ensures ToLower(singular) in irregular || RuleOf(ToLower(singular)) != ConsonantY ==>
              r == GuessPlural(singular, irregular)
  {
    var lower := ToLower(singular);
    if lower !in irregular && RuleOf(lower) == ConsonantY then Ok(singular[..|singular| - 1] + "ies")
    else GuessPlural(singular, irregular)
  }

  /** Every rule but "consonant + y" keeps all but at most the last two
      letters of a word of two letters or more. */
  lemma RuleKeepsStem(singular: string, rule: PluralRule)
    requires |singular| >= 2 && |singular| >= MinLength(rule)
    requires rule != NoLetters && rule != LoneY && rule != ConsonantY
    ensures ApplyRule(singular, rule).Ok?
    ensures StartsWith(ApplyRule(singular, rule).value, singular[..|singular| - 2])
  {
    var n := |singular|;
    var stem := singular[..n - 2];
    assert singular == stem + singular[n - 2..];
    assert singular[..n - 1] == stem + singular[n - 2..n - 1];
    var r := ApplyRule(singular, rule).value;
    assert r[..n - 2] == stem;
  }

  /** Every regular rule of the corrected plural keeps the word's stem: all
      but at most its last two letters. */
  lemma PluralKeepsStem(singular: string, irregular: map<string, string>)
    requires ToLower(singular) !in irregular && |singular| >= 2
    ensures GuessPluralFixed(singular, irregular).Ok?
    ensures StartsWith(GuessPluralFixed(singular, irregular).value, singular[..|singular| - 2])
  {
    var n := |singular|;
    var rule := RuleOf(ToLower(singular));
    if rule == ConsonantY {
      var r := singular[..n - 1] + "ies";
      assert r[..n - 2] == singular[..n - 2];
    } else {
      RuleKeepsStem(singular, rule);
    }
  }

  lemma CityTakesConsonantY()
    ensures RuleOf("city") == ConsonantY
  {
    var w := "city";
    assert w[2..] == "ty" && w[3..] == "y";
    assert !EndsWith(w, "on") && !EndsWith(w, "um") && !EndsWith(w, "us") && !EndsWith(w, "is");
    assert !EndsWith(w, "ex") && !EndsWith(w, "ix") && !EndsWith(w, "fe") && !EndsWith(w, "f");
    assert EndsWith(w, "y") && !IsVowel(w[2]);
  }

  /** "city" is already lower case and takes the "consonant + y" rule. */
  lemma CityRule()
    ensures ToLower("city") == "city"
    ensures RuleOf(ToLower("city")) == ConsonantY
  {
    assert ToLower("city") == "city";
    CityTakesConsonantY();
  }

  /** The rule as written loses the stem: "city" becomes "yies". */
  lemma PluralOfCity()
    ensures GuessPlural("city", map[]) == Ok("yies")
    ensures GuessPluralFixed("city", map[]) == Ok("cities")
    ensures !StartsWith(GuessPlural("city", map[]).value, "ci")
  {
    CityRule();
    var asWritten := ApplyRule("city", ConsonantY);
    assert asWritten.value == ["city"[3]] + "ies" == "yies";
    assert GuessPlural("city", map[]) == asWritten;
    assert "city"[..3] + "ies" == "cities";
    assert "yies"[0] != "ci"[0];
  }

  // ===========================================================================
  // Term templates
  // ===========================================================================

  /** `CheckReplace`: -1 when the text does not start with the term's
      identifier, the number after it when that parses as a non-negative
      `int`, and the configured error code otherwise. */
  function CheckReplace(identifier: string, str: string, errorCode: int): (r: int)
    ensures !StartsWith(str, identifier) ==> r == -1
    ensures StartsWith(str, identifier) ==> r >= 0 || r == errorCode
    ensures r >= 0 && r != errorCode ==> StartsWith(str, identifier) && ParseInt32(str[|identifier|..]) == Some(r)
  {
    if !StartsWith(str, identifier) then -1
    else
      match ParseInt32(str[|identifier|..])
      case Some(index) => if index >= 0 then index else errorCode
      case None => errorCode
  }

  /** The identifier followed by a rendered index is recognised as that index. */
  lemma CheckReplaceIndex(identifier: string, index: int, errorCode: int)
    requires 0 <= index <= INT32_MAX
    ensures CheckReplace(identifier, identifier + IntToString(index), errorCode) == index
  {
    var s := identifier + IntToString(index);
    assert s[..|identifier|] == identifier;
    assert s[|identifier|..] == IntToString(index);
    ParseInt32OfIntToString(index);
  }
}
