/**
 * Time zones in `LanguageHelper`: parsing an expression such as "EST+1:30"
 * into an offset, and the two searches over the configured abbreviations,
 * by name similarity and by offset. The configured table is a dictionary,
 * modelled as its entries in enumeration order with distinct keys.
 */
module TimeZones {
  import opened Common
  import opened Language

  /** A named offset to UTC, in hours. */
  datatype TimeZoneData = TimeZoneData(name: string, offset: real)

  type Zones = seq<(string, TimeZoneData)>

  /** A dictionary has one entry per key. */
  ghost predicate DistinctKeys(zones: Zones)
  {
    forall i, j :: 0 <= i < j < |zones| ==> zones[i].0 != zones[j].0
  }

  function Keys(zones: Zones): (keys: seq<string>)
    ensures |keys| == |zones|
    ensures forall i :: 0 <= i < |zones| ==> keys[i] == zones[i].0
  {
    seq(|zones|, i requires 0 <= i < |zones| => zones[i].0)
  }

  /** The entry of a key. */
  function Lookup(zones: Zones, key: string): (r: Option<TimeZoneData>)
    ensures r.None? <==> key !in Keys(zones)
    ensures r.Some? ==> exists i :: 0 <= i < |zones| && zones[i] == (key, r.value)
  {
    if zones == [] then None
    else if zones[0].0 == key then Some(zones[0].1)
    else
      var r := Lookup(zones[1..], key);
      assert Keys(zones) == [zones[0].0] + Keys(zones[1..]);
      if r.Some? then
        var i :| 0 <= i < |zones[1..]| && zones[1..][i] == (key, r.value);
        assert zones[i + 1] == (key, r.value);
        r
      else r
  }

  /** With one entry per key, the entry found is the one at the key's index. */
  lemma LookupDistinct(zones: Zones, i: int)
    requires DistinctKeys(zones) && 0 <= i < |zones|
    ensures Lookup(zones, zones[i].0) == Some(zones[i].1)
  {
    var r := Lookup(zones, zones[i].0);
    assert zones[i].0 in Keys(zones);
    var j :| 0 <= j < |zones| && zones[j] == (zones[i].0, r.value);
  }

  // ===========================================================================
  // Parsing an offset expression
  // ===========================================================================

  /** Text that `int.Parse` reads as a number: an optional sign and digits. */
  predicate IsNumeral(s: string)
  {
    var body := if s != [] && (s[0] == '-' || s[0] == '+') then s[1..] else s;
    body != [] && AllDigits(body)
  }

  /** `int.Parse`: the value, an overflow for a numeral out of range, and a
      format error for anything else. */
  function IntParse(s: string): (r: Outcome<int>)
    ensures r.Ok? <==> ParseInt32(s).Some?
    ensures r.Ok? ==> r.value == ParseInt32(s).value
    ensures r.Thrown? ==> r.exception == (if IsNumeral(s) then "OverflowException" else "FormatException")
    ensures !r.Hangs?
  {
    match ParseInt32(s)
    case Some(v) => Ok(v)
    case None => Thrown(if IsNumeral(s) then "OverflowException" else "FormatException")
  }

  /** A zone's offset read back through `TimeSpan.Hours` and
      `TimeSpan.Minutes`: truncated toward zero to whole minutes. */
  function WholeMinutes(hours: real): real
  {
    Trunc(hours * 60.0) as real / 60.0
  }

  /** The offset of the abbreviation before the sign (`TryParseTimeZone`
      on the trimmed text), or 0 when it is empty or unknown. */
  function BaseOffset(abbreviation: string, zones: Zones): (r: real)
    ensures abbreviation == "" || Trim(abbreviation) !in Keys(zones) ==> r == 0.0
  {
    if abbreviation == "" then 0.0
    else
      match Lookup(zones, Trim(abbreviation))
      case Some(data) => WholeMinutes(data.offset)
      case None => 0.0
  }

  /** Where the sign is and what it is: a `+` if there is one, otherwise
      the first `-` (or none) with a negative sign. */
  function SignOf(str: string): (r: (int, int))
    ensures r.1 == 1 || r.1 == -1
    ensures -1 <= r.0 < |str|
  {
    var plus := IndexOf(str, '+');
    if plus >= 0 then (plus, 1) else (IndexOf(str, '-'), -1)
  }

  /** The sign found is a `+` exactly when there is one, and there is none
      exactly when the text has neither sign. */
  lemma SignOfFound(str: string)
    ensures var (signPos, sign) := SignOf(str);
            && (signPos >= 0 ==> str[signPos] == (if sign == 1 then '+' else '-'))
            && (sign == 1 <==> ContainsChar(str, '+'))
            && (signPos < 0 <==> !ContainsChar(str, '+') && !ContainsChar(str, '-'))
  {
    IndexOfMissing(str, '+');
    IndexOfMissing(str, '-');
  }

  /** The hours and minutes after the sign: the hours are multiplied by the
      sign in 32-bit arithmetic; the minutes, after a `:`, are divided by 60
      and take the sign only when `signMinutes` holds. Anything after a
      second `:` is ignored. */
  function SignedHours(parts: seq<string>, sign: int, signMinutes: bool): (r: Outcome<real>)
    requires |parts| >= 1
    ensures !r.Hangs?
    ensures r.Ok? <==> ParseInt32(parts[0]).Some? && (|parts| > 1 ==> ParseInt32(parts[1]).Some?)
    ensures r.Ok? ==>
              r.value == Wrap32(ParseInt32(parts[0]).value * sign) as real
                         + (if |parts| == 1 then 0.0
                            else (if signMinutes then sign * ParseInt32(parts[1]).value
                                  else ParseInt32(parts[1]).value) as real / 60.0)
    ensures ParseInt32(parts[0]).None? ==>
              r == Thrown(if IsNumeral(parts[0]) then "OverflowException" else "FormatException")
    ensures ParseInt32(parts[0]).Some? && |parts| > 1 && ParseInt32(parts[1]).None? ==>
              r == Thrown(if IsNumeral(parts[1]) then "OverflowException" else "FormatException")
  {
    var hours := IntParse(parts[0]);
    if !hours.Ok? then Fail(hours)
    else
      var withHours := Wrap32(hours.value * sign) as real;
      if |parts| > 1 then
        var minutes := IntParse(parts[1]);
        if !minutes.Ok? then Fail(minutes)
        else Ok(withHours + (if signMinutes then sign * minutes.value else minutes.value) as real / 60.0)
      else Ok(withHours)
  }

  /** Only the hours and the minutes count: `h:m:s` reads as `h:m`. */
  lemma SecondsIgnored(parts: seq<string>, sign: int, signMinutes: bool)
    requires |parts| > 2
    ensures SignedHours(parts, sign, signMinutes) == SignedHours(parts[..2], sign, signMinutes)
  {
    assert parts[..2][0] == parts[0] && parts[..2][1] == parts[1];
  }

  /** `TimeZoneData.Parse`: the abbreviation before the sign gives the base
      offset, and the numbers after it are added. As written
      (`signMinutes == false`) the minutes are always added, whatever the
      sign; `ParseTimeZoneFixed` gives them the sign as well. */
  function ParseWith(str: string, zones: Zones, signMinutes: bool): (r: Outcome<TimeZoneData>)
    ensures r.Ok? ==> r.value.name == str
    ensures !ContainsChar(str, '+') && !ContainsChar(str, '-') ==>
              r == Ok(TimeZoneData(str, BaseOffset(str, zones)))
    ensures !r.Hangs?
  {
    var sign := SignOf(str);
    if sign.0 < 0 then Ok(TimeZoneData(str, BaseOffset(str, zones)))
    else
      var base := BaseOffset(str[..sign.0], zones);
      var added := SignedHours(Split(str[sign.0 + 1..], ':'), sign.1, signMinutes);
      if added.Ok? then Ok(TimeZoneData(str, base + added.value)) else Fail(added)
  }

  /** `TimeZoneData.Parse` as written. */
  function ParseTimeZone(str: string, zones: Zones): (r: Outcome<TimeZoneData>)
    ensures r.Ok? ==> r.value.name == str
    ensures !ContainsChar(str, '+') && !ContainsChar(str, '-') ==>
              r == Ok(TimeZoneData(str, BaseOffset(str, zones)))
  {
    ParseWith(str, zones, false)
  }

  /** `TimeZoneData.Parse` with the minutes taking the sign as the hours do. */
  function ParseTimeZoneFixed(str: string, zones: Zones): (r: Outcome<TimeZoneData>)
    ensures r.Ok? ==> r.value.name == str
    ensures !ContainsChar(str, '+') && !ContainsChar(str, '-') ==>
              r == Ok(TimeZoneData(str, BaseOffset(str, zones)))
  {
    ParseWith(str, zones, true)
  }

  /** The first occurrence of a character that the text before it lacks. */
  lemma IndexOfAfter(a: string, c: char, b: string)
    requires !ContainsChar(a, c)
    ensures IndexOf(a + [c] + b, c) == |a|
  {
    var s := a + [c] + b;
    assert s[|a|] == c;
    IndexOfMissing(s, c);
    assert forall i :: 0 <= i < |a| ==> s[i] == a[i];
  }

  lemma DigitsLackChar(s: string, c: char)
    requires AllDigits(s) && !IsDigit(c)
    ensures !ContainsChar(s, c)
  {
  }

  /** Two pieces with no separator between them split back apart. */
  lemma SplitTwo(x: string, y: string, sep: char)
    requires !ContainsChar(x, sep) && !ContainsChar(y, sep)
    ensures Split(x + [sep] + y, sep) == [x, y]
  {
    var s := x + [sep] + y;
    IndexOfAfter(x, sep, y);
    assert s[..|x|] == x;
    assert s[|x| + 1..] == y;
  }

  /** The text after the sign of "ABBR+h:m": digits, a colon, digits. */
  lemma HoursMinutesText(h: nat, m: nat)
    ensures var tail := NatToString(h) + ":" + NatToString(m);
            && Split(tail, ':') == [NatToString(h), NatToString(m)]
            && !ContainsChar(tail, '+') && !ContainsChar(tail, '-')
  {
    var hs, ms := NatToString(h), NatToString(m);
    var tail := hs + ":" + ms;
    DigitsLackChar(hs, ':');
    DigitsLackChar(ms, ':');
    assert tail == hs + [':'] + ms;
    SplitTwo(hs, ms, ':');
    assert forall i :: 0 <= i < |tail| ==> IsDigit(tail[i]) || tail[i] == ':' by {
      forall i | 0 <= i < |tail| ensures IsDigit(tail[i]) || tail[i] == ':' {
        if i < |hs| { assert tail[i] == hs[i]; }
        else if i > |hs| { assert tail[i] == ms[i - |hs| - 1]; }
      }
    }
  }

  /** The sign of "ABBR+tail" or "ABBR-tail" is the one after the
      abbreviation when neither holds a `+` or, for `-`, a `-` before it. */
  lemma SignAfterAbbreviation(abbreviation: string, c: char, tail: string)
    requires c == '+' || c == '-'
    requires !ContainsChar(abbreviation, '+') && !ContainsChar(abbreviation, '-')
    requires !ContainsChar(tail, '+')
    ensures SignOf(abbreviation + [c] + tail) == (|abbreviation|, if c == '+' then 1 else -1)
  {
    var str := abbreviation + [c] + tail;
    if c == '+' {
      IndexOfAfter(abbreviation, '+', tail);
    } else {
      assert !ContainsChar(str, '+') by {
        forall i | 0 <= i < |str| ensures str[i] != '+' {
          if i < |abbreviation| { assert str[i] == abbreviation[i]; }
          else if i > |abbreviation| { assert str[i] == tail[i - |abbreviation| - 1]; }
        }
      }
      IndexOfAfter(abbreviation, '-', tail);
    }
  }

  /** An integer with a sign of 1 or -1 applied. */
  function WithSign(x: int, sign: int): (r: int)
    requires sign == 1 || sign == -1
    ensures sign == 1 ==> r == x
    ensures sign == -1 ==> r == -x
  {
    if sign == 1 then x else -x
  }

  /** Two numerals within range give the hours with the sign and the
      minutes with or without it. */
  lemma SignedHoursOfTwo(hs: string, ms: string, h: int, m: int, sign: int, signMinutes: bool)
    requires sign == 1 || sign == -1
    requires ParseInt32(hs) == Some(h) && ParseInt32(ms) == Some(m)
    requires IsInt32(WithSign(h, sign))
    ensures SignedHours([hs, ms], sign, signMinutes) ==
              Ok(WithSign(h, sign) as real + (if signMinutes then WithSign(m, sign) else m) as real / 60.0)
  {
    assert h * sign == WithSign(h, sign);
    assert sign * m == WithSign(m, sign);
  }

  /** With a sign in the text, the parse adds the numbers after it to the
      offset of the abbreviation before it, or fails as they do. */
  lemma ParseAddsOffset(str: string, zones: Zones, signMinutes: bool, signPos: nat, sign: int)
    requires SignOf(str) == (signPos, sign)
    ensures var added := SignedHours(Split(str[signPos + 1..], ':'), sign, signMinutes);
            && (ParseWith(str, zones, signMinutes).Ok? <==> added.Ok?)
            && (added.Ok? ==> ParseWith(str, zones, signMinutes).value.offset == BaseOffset(str[..signPos], zones) + added.value)
  {
  }

  /** Once the sign and the numbers after it are known, the parse adds them
      to the abbreviation's offset. */
  lemma ParseFromParts(str: string, zones: Zones, signPos: nat, sign: int, hs: string, ms: string,
                       h: int, m: int, signMinutes: bool)
    requires SignOf(str) == (signPos, sign)
    requires Split(str[signPos + 1..], ':') == [hs, ms]
    requires ParseInt32(hs) == Some(h) && ParseInt32(ms) == Some(m)
    requires IsInt32(WithSign(h, sign))
    ensures ParseWith(str, zones, signMinutes).Ok?
    ensures ParseWith(str, zones, signMinutes).value.offset ==
              BaseOffset(str[..signPos], zones) + (WithSign(h, sign) as real
                + (if signMinutes then WithSign(m, sign) else m) as real / 60.0)
  {
    ParseAddsOffset(str, zones, signMinutes, signPos, sign);
    SignedHoursOfTwo(hs, ms, h, m, sign, signMinutes);
  }

  /** The text "ABBR+h:m" or "ABBR-h:m" with a sign-free abbreviation:
      where its sign is and what lies on either side of it. */
  lemma SignedOffsetText(abbreviation: string, c: char, h: nat, m: nat)
    requires c == '+' || c == '-'
    requires !ContainsChar(abbreviation, '+') && !ContainsChar(abbreviation, '-')
    ensures var str := abbreviation + [c] + (NatToString(h) + ":" + NatToString(m));
            && SignOf(str) == (|abbreviation|, if c == '+' then 1 else -1)
            && str[..|abbreviation|] == abbreviation
            && Split(str[|abbreviation| + 1..], ':') == [NatToString(h), NatToString(m)]
  {
    var tail := NatToString(h) + ":" + NatToString(m);
    var str := abbreviation + [c] + tail;
    HoursMinutesText(h, m);
    SignAfterAbbreviation(abbreviation, c, tail);
    assert str[..|abbreviation|] == abbreviation;
    assert str[|abbreviation| + 1..] == tail;
  }

  /** "ABBR+h:m" and "ABBR-h:m", with the abbreviation free of signs: the
      hours take the sign, and the minutes take it only when `signMinutes`
      holds. */
  lemma ParseSignedOffset(abbreviation: string, c: char, h: nat, m: nat, zones: Zones, signMinutes: bool)
    requires c == '+' || c == '-'
    requires !ContainsChar(abbreviation, '+') && !ContainsChar(abbreviation, '-')
    requires h <= INT32_MAX && m <= INT32_MAX
    ensures var sign := if c == '+' then 1 else -1;
            var str := abbreviation + [c] + (NatToString(h) + ":" + NatToString(m));
            && ParseWith(str, zones, signMinutes).Ok?
            && ParseWith(str, zones, signMinutes).value.offset ==
                 BaseOffset(abbreviation, zones)
                 + (WithSign(h, sign) as real + (if signMinutes then WithSign(m, sign) else m) as real / 60.0)
  {
    var sign := if c == '+' then 1 else -1;
    var hs, ms := NatToString(h), NatToString(m);
    var str := abbreviation + [c] + (hs + ":" + ms);
    SignedOffsetText(abbreviation, c, h, m);
    ParseInt32OfIntToString(h);
    ParseInt32OfIntToString(m);
    ParseFromParts(str, zones, |abbreviation|, sign, hs, ms, h, m, signMinutes);
  }

  /** As written, "ABBR-h:m" moves the offset back by `h` hours but forward
      by `m` minutes; corrected, back by both. */
  lemma MinutesIgnoreSign(abbreviation: string, h: nat, m: nat, zones: Zones)
    requires !ContainsChar(abbreviation, '+') && !ContainsChar(abbreviation, '-')
    requires h <= INT32_MAX && m <= INT32_MAX
    ensures var str := abbreviation + ['-'] + (NatToString(h) + ":" + NatToString(m));
            && ParseTimeZone(str, zones).Ok?
            && ParseTimeZone(str, zones).value.offset == BaseOffset(abbreviation, zones) - h as real + m as real / 60.0
            && ParseTimeZoneFixed(str, zones).Ok?
            && ParseTimeZoneFixed(str, zones).value.offset == BaseOffset(abbreviation, zones) - h as real - m as real / 60.0
  {
    ParseSignedOffset(abbreviation, '-', h, m, zones, false);
    ParseSignedOffset(abbreviation, '-', h, m, zones, true);
  }

  /** "UTC-3:30" (built as "UTC", the sign and "3:30") is three and a half
      hours behind UTC, but as written it parses to two and a half hours
      behind. */
  lemma HalfHourBehind()
    ensures var str := "UTC" + ['-'] + (NatToString(3) + ":" + NatToString(30));
            && ParseTimeZone(str, []).Ok? && ParseTimeZone(str, []).value.offset == -2.5
            && ParseTimeZoneFixed(str, []).Ok? && ParseTimeZoneFixed(str, []).value.offset == -3.5
  {
    assert !ContainsChar("UTC", '+') && !ContainsChar("UTC", '-');
    MinutesIgnoreSign("UTC", 3, 30, []);
    assert BaseOffset("UTC", []) == 0.0;
  }

  // ===========================================================================
  // Searching by name
  // ===========================================================================

  /** What the key's character at `i` earns: 10 for the same character at
      the same place of the input, 9 for the same letter in the other case,
      and 3 more when the input holds the character anywhere. */
  function CharPoints(input: string, key: string, i: nat): (p: int)
    requires i < |key|
    ensures 0 <= p <= 13
  {
    (if i < |input| then
       (if input[i] == key[i] then 10
        else if ToUpperChar(input[i]) == ToUpperChar(key[i]) then 9
        else 0)
     else 0)
    + (if ContainsChar(input, key[i]) then 3 else 0)
  }

  /** The points of the key's first `n` characters. */
  function CharScore(input: string, key: string, n: nat): (p: int)
    requires n <= |key|
  {
    if n == 0 then 0 else CharScore(input, key, n - 1) + CharPoints(input, key, n - 1)
  }

  /** The last-but-one letters: an input whose is `S` against a key whose is
      `D` earns 8, or 4 when the key is one shorter, and the same the other
      way round. */
  function SuffixBonus(input: string, key: string): (p: int)
    ensures 0 <= p <= 16
  {
    (if |input| >= 2 && input[|input| - 2] == 'S' then
       (if |key| >= 2 && key[|key| - 2] == 'D' then 8
        else if |key| + 1 == |input| then 4
        else 0)
     else 0)
    + (if |key| >= 2 && key[|key| - 2] == 'S' then
         (if |input| >= 2 && input[|input| - 2] == 'D' then 8
          else if |input| + 1 == |key| then 4
          else 0)
       else 0)
  }

  /** Input and key are equal ignoring case. */
  predicate SameIgnoringCase(input: string, key: string)
  {
    ToUpper(input) == ToUpper(key)
  }

  /** How closely a key resembles the input: the character points, the
      suffix bonus, and 100 for an exact match ignoring case. */
  function NameWeight(input: string, key: string): int
  {
    CharScore(input, key, |key|) + SuffixBonus(input, key)
    + (if SameIgnoringCase(input, key) then 100 else 0)
  }

  /** The weighing loop of `SearchTimeZone(string)` for one key. */
  method ComputeNameWeight(input: string, key: string) returns (weight: int)
    ensures weight == NameWeight(input, key)
  {
    weight := 0;
    var i := 0;
    while i < |key|
      invariant 0 <= i <= |key|
      invariant weight == CharScore(input, key, i)
    {
      if i < |input| {
        if input[i] == key[i] {
          weight := weight + 10;
        } else if ToUpperChar(input[i]) == ToUpperChar(key[i]) {
          weight := weight + 9;
        }
      }
      if ContainsChar(input, key[i]) {
        weight := weight + 3;
      }
      i := i + 1;
    }
    if |input| >= 2 && input[|input| - 2] == 'S' {
      if |key| >= 2 && key[|key| - 2] == 'D' {
        weight := weight + 8;
      } else if |key| + 1 == |input| {
        weight := weight + 4;
      }
    }
    if |key| >= 2 && key[|key| - 2] == 'S' {
      if |input| >= 2 && input[|input| - 2] == 'D' {
        weight := weight + 8;
      } else if |input| + 1 == |key| {
        weight := weight + 4;
      }
    }
    if ToUpper(input) == ToUpper(key) {
      weight := weight + 100;
    }
  }

  /** Each character earns at most 13 points, and at least 9 when it
      matches the input's at the same place ignoring case. */
  lemma {:induction false} CharScoreBounds(input: string, key: string, n: nat)
    requires n <= |key|
    ensures 0 <= CharScore(input, key, n) <= 13 * n
    ensures (n <= |input| && forall i :: 0 <= i < n ==> ToUpperChar(input[i]) == ToUpperChar(key[i])) ==>
              CharScore(input, key, n) >= 9 * n
  {
    if n > 0 {
      CharScoreBounds(input, key, n - 1);
    }
  }

  /** An exact match ignoring case weighs at least 100 plus 9 a character;
      any other key at most 13 a character plus 16. */
  lemma NameWeightBounds(input: string, key: string)
    ensures SameIgnoringCase(input, key) ==> NameWeight(input, key) >= 100 + 9 * |key|
    ensures !SameIgnoringCase(input, key) ==> 0 <= NameWeight(input, key) <= 13 * |key| + 16
  {
    CharScoreBounds(input, key, |key|);
    if SameIgnoringCase(input, key) {
      assert |input| == |key| by {
        assert |ToUpper(input)| == |input| && |ToUpper(key)| == |key|;
      }
      forall i | 0 <= i < |key| ensures ToUpperChar(input[i]) == ToUpperChar(key[i]) {
        assert ToUpper(input)[i] == ToUpper(key)[i];
      }
    }
  }

  /** Among keys of up to 20 characters, an exact match ignoring case
      outweighs every key that is not one and is no longer. */
  lemma ExactMatchOutranks(input: string, exact: string, other: string)
    requires SameIgnoringCase(input, exact) && !SameIgnoringCase(input, other)
    requires |other| <= |exact| <= 20
    ensures NameWeight(input, exact) > NameWeight(input, other)
  {
    NameWeightBounds(input, exact);
    NameWeightBounds(input, other);
  }

  /** The order of `SearchTimeZone(string)`: heavier keys first. */
  function HeavierFirst(weights: map<string, int>): (le: (string, string) -> bool)
  {
    (a: string, b: string) => Weight(weights, a) >= Weight(weights, b)
  }

  /** A key's weight, or 0 for a key that has none. */
  function Weight(weights: map<string, int>, key: string): int
  {
    if key in weights then weights[key] else 0
  }

  lemma HeavierFirstPreorder(weights: map<string, int>)
    ensures TotalPreorder(HeavierFirst(weights))
  {
  }

  /** `SearchTimeZone(string)`: every configured abbreviation once, heavier
      (more similar to the input) first; equally heavy keys in some order. */
  method SearchByName(input: string, zones: Zones) returns (r: seq<string>)
    requires DistinctKeys(zones)
    ensures multiset(r) == multiset(Keys(zones))
    ensures forall i, j :: 0 <= i < j < |r| ==> NameWeight(input, r[i]) >= NameWeight(input, r[j])
  {
    var weights: map<string, int> := map[];
    var i := 0;
    while i < |zones|
      invariant 0 <= i <= |zones|
      invariant forall k :: k in weights <==> k in Keys(zones)[..i]
      invariant forall k :: k in weights ==> weights[k] == NameWeight(input, k)
    {
      var weight := ComputeNameWeight(input, zones[i].0);
      weights := weights[zones[i].0 := weight];
      assert Keys(zones)[..i + 1] == Keys(zones)[..i] + [zones[i].0];
      i := i + 1;
    }
    assert Keys(zones)[..i] == Keys(zones);
    HeavierFirstPreorder(weights);
    r := Sort(Keys(zones), HeavierFirst(weights));
    forall k | k in r ensures k in weights {
      assert k in multiset(Keys(zones));
    }
  }

  // ===========================================================================
  // Searching by offset
  // ===========================================================================

  /** Ordinal comparison of strings: `a` is at most `b`. */
  predicate LexLe(a: string, b: string)
    decreases |a|
  {
    a == [] || (b != [] && (a[0] < b[0] || (a[0] == b[0] && LexLe(a[1..], b[1..]))))
  }

  lemma {:induction false} LexLeTotal(a: string, b: string)
    ensures LexLe(a, b) || LexLe(b, a)
    decreases |a|
  {
    if a != [] && b != [] && a[0] == b[0] {
      LexLeTotal(a[1..], b[1..]);
    }
  }

  lemma {:induction false} LexLeTransitive(a: string, b: string, c: string)
    requires LexLe(a, b) && LexLe(b, c)
    ensures LexLe(a, c)
    decreases |a|
  {
    if a != [] && a[0] == b[0] && b[0] == c[0] {
      LexLeTransitive(a[1..], b[1..], c[1..]);
    }
  }

  lemma {:induction false} LexLeAntisymmetric(a: string, b: string)
    requires LexLe(a, b) && LexLe(b, a)
    ensures a == b
    decreases |a|
  {
    if a != [] {
      LexLeAntisymmetric(a[1..], b[1..]);
      assert a == [a[0]] + a[1..] && b == [b[0]] + b[1..];
    }
  }

  /** Real absolute value. */
  function RealAbs(x: real): (r: real)
    ensures r >= 0.0 && (r == x || r == -x)
  {
    if x < 0.0 then -x else x
  }

  /** The whole minutes between a zone's offset and the one searched for
      (`(int) Math.Abs(...TotalMinutes)`). */
  function OffsetWeight(data: TimeZoneData, offsetMinutes: real): (w: int)
    ensures w >= 0
  {
    Trunc(RealAbs(data.offset * 60.0 - offsetMinutes))
  }

  /** The weight of a configured key, or 0 for a key not configured. */
  function KeyOffsetWeight(zones: Zones, key: string, offsetMinutes: real): (w: int)
    ensures w >= 0
  {
    match Lookup(zones, key)
    case Some(data) => OffsetWeight(data, offsetMinutes)
    case None => 0
  }

  /** The order of `SearchTimeZone(TimeSpan)`: lighter keys first, and keys
      of equal weight in ordinal order. */
  function LighterFirst(weights: map<string, int>): (le: (string, string) -> bool)
  {
    (a: string, b: string) =>
      Weight(weights, a) < Weight(weights, b)
      || (Weight(weights, a) == Weight(weights, b) && LexLe(a, b))
  }

  lemma LighterFirstPreorder(weights: map<string, int>)
    ensures TotalPreorder(LighterFirst(weights))
  {
    var le := LighterFirst(weights);
    forall a, b ensures le(a, b) || le(b, a) {
      LexLeTotal(a, b);
    }
    forall a, b, c | le(a, b) && le(b, c) ensures le(a, c) {
      if Weight(weights, a) == Weight(weights, b) == Weight(weights, c) {
        LexLeTransitive(a, b, c);
      }
    }
  }

  /** How many of the keys weigh 0 under `w`. */
  function CountZero(keys: seq<string>, w: string -> int): (n: nat)
    ensures n <= |keys|
  {
    if keys == [] then 0
    else CountZero(keys[..|keys| - 1], w) + (if w(keys[|keys| - 1]) == 0 then 1 else 0)
  }

  lemma {:induction false} CountZeroAppend(a: seq<string>, b: seq<string>, w: string -> int)
    ensures CountZero(a + b, w) == CountZero(a, w) + CountZero(b, w)
    decreases |b|
  {
    if b != [] {
      var b' := b[..|b| - 1];
      assert (a + b)[..|a + b| - 1] == a + b';
      CountZeroAppend(a, b', w);
    } else {
      assert a + b == a;
    }
  }

  /** Taking one key out of a sequence takes one occurrence out of its
      multiset. */
  lemma MultisetRemoveOne(t: seq<string>, k: nat)
    requires k < |t|
    ensures multiset(t[..k] + t[k + 1..]) == multiset(t) - multiset{t[k]}
  {
    SplitAround(t, k);
  }

  /** A sequence is its keys before `k`, the key at `k` and the keys after. */
  lemma SplitAround(t: seq<string>, k: nat)
    requires k < |t|
    ensures t == (t[..k] + [t[k]]) + t[k + 1..]
  {
    assert t[..k + 1] == t[..k] + [t[k]];
    assert t == t[..k + 1] + t[k + 1..];
  }

  /** Taking one key out of a sequence takes its share out of the zero
      count. */
  lemma CountZeroRemoveOne(t: seq<string>, k: nat, w: string -> int)
    requires k < |t|
    ensures CountZero(t, w) == CountZero(t[..k] + t[k + 1..], w) + (if w(t[k]) == 0 then 1 else 0)
  {
    SplitAround(t, k);
    CountZeroMiddle(t, t[..k], t[k], t[k + 1..], w);
  }

  lemma CountZeroMiddle(t: seq<string>, a: seq<string>, x: string, b: seq<string>, w: string -> int)
    requires t == (a + [x]) + b
    ensures CountZero(t, w) == CountZero(a + b, w) + (if w(x) == 0 then 1 else 0)
  {
    CountZeroAppend(a + [x], b, w);
    CountZeroAppend(a, b, w);
    assert (a + [x])[..|a|] == a;
  }

  /** The count does not depend on the order of the keys. */
  lemma {:induction false} CountZeroPermutation(s: seq<string>, t: seq<string>, w: string -> int)
    requires multiset(s) == multiset(t)
    ensures CountZero(s, w) == CountZero(t, w)
    decreases |s|
  {
    if s == [] {
      assert |t| == |multiset(t)| == 0;
    } else {
      var x := s[|s| - 1];
      var s' := s[..|s| - 1];
      assert multiset(s') == multiset(s) - multiset{x} by {
        assert s == s' + [x];
      }
      var k :| 0 <= k < |t| && t[k] == x by {
        assert x in multiset(s);
      }
      MultisetRemoveOne(t, k);
      CountZeroRemoveOne(t, k, w);
      CountZeroPermutation(s', t[..k] + t[k + 1..], w);
    }
  }

  /** When no key weighs more than 0 all of them count. */
  lemma {:induction false} AllZero(r: seq<string>, w: string -> int)
    requires forall i :: 0 <= i < |r| ==> w(r[i]) == 0
    ensures CountZero(r, w) == |r|
  {
    if r != [] {
      var r' := r[..|r| - 1];
      assert forall i :: 0 <= i < |r'| ==> r'[i] == r[i];
      AllZero(r', w);
    }
  }

  /** In keys ordered by a weight that is never negative, the ones weighing
      0 are exactly the first ones, as many as there are. */
  lemma {:induction false} ZerosFirst(r: seq<string>, w: string -> int)
    requires forall i :: 0 <= i < |r| ==> w(r[i]) >= 0
    requires forall i, j :: 0 <= i < j < |r| ==> w(r[i]) <= w(r[j])
    ensures forall i :: 0 <= i < |r| ==> (i < CountZero(r, w) <==> w(r[i]) == 0)
  {
    if r != [] {
      var n := |r| - 1;
      var r' := r[..n];
      assert forall i :: 0 <= i < n ==> r'[i] == r[i];
      ZerosFirst(r', w);
      if w(r[n]) == 0 {
        AllZero(r', w);
      }
    }
  }

  /** The weight of every key for one offset. */
  function OffsetWeights(zones: Zones, offsetMinutes: real): string -> int
  {
    k => KeyOffsetWeight(zones, k, offsetMinutes)
  }

  /** One more key in a prefix: it joins the members, and it joins the zero
      count when it weighs 0. */
  lemma KeysPrefixStep(keys: seq<string>, i: nat, w: string -> int)
    requires i < |keys|
    ensures forall k :: k in keys[..i + 1] <==> k in keys[..i] || k == keys[i]
    ensures CountZero(keys[..i + 1], w) == CountZero(keys[..i], w) + (if w(keys[i]) == 0 then 1 else 0)
  {
    var prefix := keys[..i + 1];
    assert prefix == keys[..i] + [keys[i]];
    assert prefix[..|prefix| - 1] == keys[..i];
  }

  /** The weighing loop of `SearchTimeZone(TimeSpan)`: every key's weight,
      and how many weigh 0. */
  method WeighOffsets(offsetMinutes: real, zones: Zones) returns (weights: map<string, int>, exactMatches: int)
    requires DistinctKeys(zones)
    ensures forall k :: k in weights <==> k in Keys(zones)
    ensures forall k :: k in weights ==> weights[k] == KeyOffsetWeight(zones, k, offsetMinutes)
    ensures exactMatches == CountZero(Keys(zones), OffsetWeights(zones, offsetMinutes))
  {
    weights := map[];
    exactMatches := 0;
    var i := 0;
    while i < |zones|
      invariant 0 <= i <= |zones|
      invariant forall k :: k in weights <==> k in Keys(zones)[..i]
      invariant forall k :: k in weights ==> weights[k] == KeyOffsetWeight(zones, k, offsetMinutes)
      invariant exactMatches == CountZero(Keys(zones)[..i], OffsetWeights(zones, offsetMinutes))
    {
      var weight := OffsetWeight(zones[i].1, offsetMinutes);
      LookupDistinct(zones, i);
      if weight == 0 {
        exactMatches := exactMatches + 1;
      }
      weights := weights[zones[i].0 := weight];
      KeysPrefixStep(Keys(zones), i, OffsetWeights(zones, offsetMinutes));
      i := i + 1;
    }
    assert Keys(zones)[..i] == Keys(zones);
  }

  /** Keys sorted by their recorded weights, where those are the offset
      weights, are sorted by offset weight and then ordinally. */
  lemma SortedByOffset(r: seq<string>, weights: map<string, int>, zones: Zones, offsetMinutes: real)
    requires SortedBy(r, LighterFirst(weights))
    requires forall i :: 0 <= i < |r| ==> Weight(weights, r[i]) == KeyOffsetWeight(zones, r[i], offsetMinutes)
    ensures forall i, j :: 0 <= i < j < |r| ==>
              || KeyOffsetWeight(zones, r[i], offsetMinutes) < KeyOffsetWeight(zones, r[j], offsetMinutes)
              || (KeyOffsetWeight(zones, r[i], offsetMinutes) == KeyOffsetWeight(zones, r[j], offsetMinutes)
                  && LexLe(r[i], r[j]))
  {
    forall i, j | 0 <= i < j < |r|
      ensures || KeyOffsetWeight(zones, r[i], offsetMinutes) < KeyOffsetWeight(zones, r[j], offsetMinutes)
              || (KeyOffsetWeight(zones, r[i], offsetMinutes) == KeyOffsetWeight(zones, r[j], offsetMinutes)
                  && LexLe(r[i], r[j]))
    {
      assert LighterFirst(weights)(r[i], r[j]);
    }
  }

  /** `SearchTimeZone(TimeSpan)`: every configured abbreviation once, the
      closest offsets first and ties in ordinal order, together with the
      number of exact matches, which come first. */
  method SearchByOffset(offsetMinutes: real, zones: Zones) returns (r: seq<string>, exactMatches: int)
    requires DistinctKeys(zones)
    ensures multiset(r) == multiset(Keys(zones))
    ensures forall i, j :: 0 <= i < j < |r| ==>
              || KeyOffsetWeight(zones, r[i], offsetMinutes) < KeyOffsetWeight(zones, r[j], offsetMinutes)
              || (KeyOffsetWeight(zones, r[i], offsetMinutes) == KeyOffsetWeight(zones, r[j], offsetMinutes)
                  && LexLe(r[i], r[j]))
    ensures exactMatches == CountZero(Keys(zones), OffsetWeights(zones, offsetMinutes))
    ensures forall i :: 0 <= i < |r| ==> (i < exactMatches <==> KeyOffsetWeight(zones, r[i], offsetMinutes) == 0)
  {
    var weights;
    weights, exactMatches := WeighOffsets(offsetMinutes, zones);
    LighterFirstPreorder(weights);
    r := Sort(Keys(zones), LighterFirst(weights));
    forall i | 0 <= i < |r| ensures Weight(weights, r[i]) == KeyOffsetWeight(zones, r[i], offsetMinutes) {
      assert r[i] in multiset(Keys(zones));
    }
    SortedByOffset(r, weights, zones, offsetMinutes);
    ghost var w := OffsetWeights(zones, offsetMinutes);
    CountZeroPermutation(r, Keys(zones), w);
    ZerosFirst(r, w);
  }
}
