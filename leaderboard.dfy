/**
 * The `levels` (leaderboard) command: validation of the requested rank
 * range, the two rankings (text and voice experience), the window of ranks
 * shown, and the rendering of one leaderboard item from the HTML template.
 * The users' names, avatars, experience units and levels are given as
 * strings; the level-progress fraction arrives as the rotation in degrees.
 */
module Leaderboard {
  import opened Common

  /** A row of the levels database. */
  datatype UserLevel = UserLevel(userId: nat, textXP: int, voiceXP: int)

  /** One rank of the leaderboard: the r-th user by text experience and the
      r-th user by voice experience. */
  datatype LeaderboardItem = LeaderboardItem(rank: int, text: UserLevel, voice: UserLevel)

  /** Why a range is refused. */
  datatype RangeError = MinNotBelowMax | TooManyItems(requested: int) | MinBelowFirstRank

  // ---------------------------------------------------------------------------
  // Range validation
  // ---------------------------------------------------------------------------

  /** The validation as written: `min >= max` first, then the item count
      `max - min`, computed in unchecked 32-bit arithmetic. */
  function CheckRange(min: int, max: int, maxItems: int): (r: Option<RangeError>)
    requires IsInt32(min) && IsInt32(max)
  {
    if min >= max then Some(MinNotBelowMax)
    else if Wrap32(max - min) > maxItems then Some(TooManyItems(Wrap32(max - min)))
    else None
  }

  /** An accepted range is ordered, and refusals come in the written order. */
  lemma CheckRangeOrdered(min: int, max: int, maxItems: int)
    requires IsInt32(min) && IsInt32(max)
    ensures CheckRange(min, max, maxItems) == Some(MinNotBelowMax) <==> min >= max
    ensures CheckRange(min, max, maxItems).None? ==> min < max
    ensures min < max && IsInt32(max - min) ==>
              (CheckRange(min, max, maxItems).None? <==> max - min <= maxItems)
  {
  }

  /** The validation as evidently intended: ranks start at 1, and the span is
      computed exactly. */
  function CheckRangeFixed(min: int, max: int, maxItems: int): (r: Option<RangeError>)
    ensures r.None? <==> 1 <= min < max && max - min <= maxItems
    ensures r == Some(MinNotBelowMax) <==> min >= max
  {
    if min >= max then Some(MinNotBelowMax)
    else if max - min > maxItems then Some(TooManyItems(max - min))
    else if min < 1 then Some(MinBelowFirstRank)
    else None
  }

  /** Whatever the corrected validation accepts, the written one accepts too. */
  lemma FixedRangeNarrower(min: int, max: int, maxItems: int)
    requires IsInt32(min) && IsInt32(max)
    requires CheckRangeFixed(min, max, maxItems).None?
    ensures CheckRange(min, max, maxItems).None?
  {
    assert IsInt32(max - min);
  }

  /** The written validation lets a start rank of 0 through. */
  lemma RangeAcceptsRankZero()
    ensures CheckRange(0, 10, 100).None?
    ensures CheckRangeFixed(0, 10, 100) == Some(MinBelowFirstRank)
  {
  }

  /** The written validation lets a span of more than 2^31 ranks through,
      because `max - min` wraps around to a negative count. */
  lemma RangeAcceptsWrappedSpan()
    ensures CheckRange(-0x7fff_ffff, 1, 100).None?
    ensures CheckRangeFixed(-0x7fff_ffff, 1, 100).Some?
  {
    assert Wrap32(1 - -0x7fff_ffff) == -0x8000_0000;
  }

  // ---------------------------------------------------------------------------
  // The rankings
  // ---------------------------------------------------------------------------

  /** More text experience first. */
  function MoreText(): (le: (UserLevel, UserLevel) -> bool)
  {
    (a: UserLevel, b: UserLevel) => a.textXP >= b.textXP
  }

  /** More voice experience first. */
  function MoreVoice(): (le: (UserLevel, UserLevel) -> bool)
  {
    (a: UserLevel, b: UserLevel) => a.voiceXP >= b.voiceXP
  }

  lemma RankingsPreorders()
    ensures TotalPreorder(MoreText()) && TotalPreorder(MoreVoice())
  {
  }

  /** The two rankings: every database row in each, by non-increasing text
      experience and by non-increasing voice experience. Ties fall in some
      order (`List.Sort` is not stable). */
  method Rankings(levels: seq<UserLevel>) returns (text: seq<UserLevel>, voice: seq<UserLevel>)
    ensures multiset(text) == multiset(levels) && multiset(voice) == multiset(levels)
    ensures forall i, j :: 0 <= i < j < |text| ==> text[i].textXP >= text[j].textXP
    ensures forall i, j :: 0 <= i < j < |voice| ==> voice[i].voiceXP >= voice[j].voiceXP
  {
    RankingsPreorders();
    text := Sort(levels, MoreText());
    voice := Sort(levels, MoreVoice());
    assert forall i, j :: 0 <= i < j < |text| ==> MoreText()(text[i], text[j]);
    assert forall i, j :: 0 <= i < j < |voice| ==> MoreVoice()(voice[i], voice[j]);
  }

  // ---------------------------------------------------------------------------
  // The rank window
  // ---------------------------------------------------------------------------

  function Min(a: int, b: int): int { if a <= b then a else b }

  /** The first list index the loop reads: `min - 1`, in 32-bit arithmetic. */
  function StartIndex(min: int): (i: int)
    requires IsInt32(min)
    ensures IsInt32(i)
    ensures min > INT32_MIN ==> i == min - 1
  {
    Wrap32(min - 1)
  }

  /** The items for list indices `start` up to `end`, each with rank
      index + 1. */
  function Items(start: nat, end: int, text: seq<UserLevel>, voice: seq<UserLevel>): seq<LeaderboardItem>
    requires end <= |text| && end <= |voice|
  {
    if end <= start then []
    else seq(end - start, k requires 0 <= k < end - start =>
               LeaderboardItem(start + k + 1, text[start + k], voice[start + k]))
  }

  /** What the loop of the command builds: the items from rank `min` up to
      `max` or the shorter list's end; reading a negative index throws. */
  function Window(min: int, max: int, text: seq<UserLevel>, voice: seq<UserLevel>): (r: Outcome<seq<LeaderboardItem>>)
    requires IsInt32(min) && IsInt32(max)
    ensures !r.Hangs?
    ensures r.Thrown? <==> StartIndex(min) < 0 && StartIndex(min) < max
  {
    var start := StartIndex(min);
    var end := Min(max, Min(|text|, |voice|));
    if start < 0 && start < end then Thrown("ArgumentOutOfRangeException")
    else if start < 0 then Ok([])
    else Ok(Items(start, end, text, voice))
  }

  /** For a range the corrected validation accepts, the window never throws
      and holds the ranks `min` to `min(max, n)`, rank r with the r-th entry
      of each ranking; so it has at most `max - min + 1` items. */
  lemma WindowOfValidRange(min: int, max: int, maxItems: int, text: seq<UserLevel>, voice: seq<UserLevel>)
    requires IsInt32(min) && IsInt32(max)
    requires CheckRangeFixed(min, max, maxItems).None?
    ensures Window(min, max, text, voice).Ok?
    ensures var items := Window(min, max, text, voice).value;
            var end := Min(max, Min(|text|, |voice|));
            && |items| == (if end < min then 0 else end - min + 1)
            && |items| <= max - min + 1
            && forall k :: 0 <= k < |items| ==>
                 && items[k].rank == min + k
                 && items[k].text == text[min + k - 1]
                 && items[k].voice == voice[min + k - 1]
  {
  }

  /** The shown text entries follow the ranking: non-increasing experience. */
  lemma WindowFollowsRanking(min: int, max: int, text: seq<UserLevel>, voice: seq<UserLevel>)
    requires IsInt32(min) && IsInt32(max)
    requires forall i, j :: 0 <= i < j < |text| ==> text[i].textXP >= text[j].textXP
    requires forall i, j :: 0 <= i < j < |voice| ==> voice[i].voiceXP >= voice[j].voiceXP
    requires Window(min, max, text, voice).Ok?
    ensures var items := Window(min, max, text, voice).value;
            forall k, j :: 0 <= k < j < |items| ==>
              items[k].text.textXP >= items[j].text.textXP && items[k].voice.voiceXP >= items[j].voice.voiceXP
  {
  }

  /** The written command reads index -1 for a start rank of 0, whatever
      the database holds. */
  lemma WindowRankZeroThrows(text: seq<UserLevel>, voice: seq<UserLevel>)
    ensures Window(0, 10, text, voice) == Thrown("ArgumentOutOfRangeException")
  {
  }

  /** The loop of `LeaderboardCommand`: from index `min - 1` while below
      `max` and both lists' counts, one item per index. */
  method BuildItems(min: int, max: int, text: seq<UserLevel>, voice: seq<UserLevel>)
    returns (r: Outcome<seq<LeaderboardItem>>)
    requires IsInt32(min) && IsInt32(max)
    ensures r == Window(min, max, text, voice)
  {
    var items: seq<LeaderboardItem> := [];
    var start := StartIndex(min);
    var end := Min(max, Min(|text|, |voice|));
    var i := start;
    while i < max && i < Min(|text|, |voice|)
      invariant start <= i && IsInt32(i)
      invariant i > start ==> start >= 0 && i <= end && items == Items(start, i, text, voice)
      invariant i == start ==> items == []
      decreases max - i
    {
      if i < 0 {
        return Thrown("ArgumentOutOfRangeException");
      }
      items := items + [LeaderboardItem(i + 1, text[i], voice[i])];
      assert items == Items(start, i + 1, text, voice);
      i := i + 1;
    }
    if start < 0 {
      return Ok([]);
    }
    return Ok(items);
  }

  /** What the command answers. */
  datatype Response = Refused(error: RangeError) | Board(items: seq<LeaderboardItem>)

  /** `LeaderboardCommand`, with the corrected validation: a refused range
      answers with the reason; otherwise the window of both rankings, which
      are returned as `text` and `voice`. */
  method LeaderboardCommand(min: int, max: int, maxItems: int, levels: seq<UserLevel>)
    returns (r: Outcome<Response>, ghost text: seq<UserLevel>, ghost voice: seq<UserLevel>)
    requires IsInt32(min) && IsInt32(max)
    ensures CheckRangeFixed(min, max, maxItems).Some? ==> r == Ok(Refused(CheckRangeFixed(min, max, maxItems).value))
    ensures CheckRangeFixed(min, max, maxItems).None? ==>
              && r.Ok? && r.value.Board?
              && |r.value.items| == (if Min(max, |levels|) < min then 0 else Min(max, |levels|) - min + 1)
              && forall k :: 0 <= k < |r.value.items| ==>
                   && r.value.items[k].rank == min + k
                   && r.value.items[k].text in multiset(levels)
                   && r.value.items[k].voice in multiset(levels)
    ensures CheckRangeFixed(min, max, maxItems).None? ==>
              forall k, j :: 0 <= k < j < |r.value.items| ==>
                r.value.items[k].text.textXP >= r.value.items[j].text.textXP
                && r.value.items[k].voice.voiceXP >= r.value.items[j].voice.voiceXP
    ensures CheckRangeFixed(min, max, maxItems).None? ==>
              && multiset(text) == multiset(levels) && multiset(voice) == multiset(levels)
              && (forall i, j :: 0 <= i < j < |text| ==> text[i].textXP >= text[j].textXP)
              && (forall i, j :: 0 <= i < j < |voice| ==> voice[i].voiceXP >= voice[j].voiceXP)
              && forall k :: 0 <= k < |r.value.items| ==>
                   r.value.items[k].text == text[min + k - 1] && r.value.items[k].voice == voice[min + k - 1]
  {
    var check := CheckRangeFixed(min, max, maxItems);
    if check.Some? {
      return Ok(Refused(check.value)), [], [];
    }
    var byText, byVoice := Rankings(levels);
    text, voice := byText, byVoice;
    assert |text| == |levels| && |voice| == |levels| by {
      assert |multiset(text)| == |multiset(levels)| == |multiset(voice)|;
    }
    var items := BuildItems(min, max, byText, byVoice);
    WindowOfValidRange(min, max, maxItems, text, voice);
    WindowFollowsRanking(min, max, text, voice);
    forall k | 0 <= k < |items.value|
      ensures items.value[k].text in multiset(levels) && items.value[k].voice in multiset(levels)
    {
      assert text[min + k - 1] in multiset(text);
      assert voice[min + k - 1] in multiset(voice);
    }
    r := Ok(Board(items.value));
  }

  // ---------------------------------------------------------------------------
  // Rendering one item
  // ---------------------------------------------------------------------------

  /** The two halves of the progress ring: the left one turns at least 180
      degrees, the right one at most 180, and together they turn `rot` past
      the first half. */
  function Rotations(rot: int): (r: (int, int))
    ensures r.0 >= 180 >= r.1
    ensures r.0 + r.1 == rot + 180
    ensures rot <= 180 ==> r.1 == rot
    ensures rot >= 180 ==> r.0 == rot
  {
    (if rot > 180 then rot else 180, if rot > 180 then 180 else rot)
  }

  /** What `ReplaceAll` substitutes into the template for one ranking. */
  datatype Shown = Shown(avatarUrl: string, name: string, exp: string, level: int, rot: int)

  /** The placeholders of the item template, in the order `ReplaceAll`
      replaces them. */
  const Placeholders: seq<string> := ["$TYPE", "$RANK", "$PFPURL", "$NAME", "$EXP", "$LVL", "$LEFTROT", "$RIGHTROT"]

  /** The value of each placeholder, position by position: the ranking's
      CSS class, the rank, the avatar, the name, the experience, the level
      and the two halves of the progress ring. */
  function Values(isText: bool, rank: int, shown: Shown): (vs: seq<string>)
    ensures |vs| == |Placeholders|
    ensures vs[0] == (if isText then "text" else "voice hide") && vs[1] == IntToString(rank)
    ensures vs[2] == shown.avatarUrl && vs[3] == shown.name && vs[4] == shown.exp
    ensures vs[5] == IntToString(shown.level)
    ensures vs[6] == IntToString(Rotations(shown.rot).0) && vs[7] == IntToString(Rotations(shown.rot).1)
  {
    var (leftrot, rightrot) := Rotations(shown.rot);
    [if isText then "text" else "voice hide", IntToString(rank), shown.avatarUrl, shown.name, shown.exp,
     IntToString(shown.level), IntToString(leftrot), IntToString(rightrot)]
  }

  /** Each pattern of `ps` replaced everywhere by the value at the same
      position of `vs`, one pattern after the other. */
  function ReplaceEach(t: string, ps: seq<string>, vs: seq<string>): string
    requires |ps| == |vs| && Marked(ps)
    decreases |ps|
  {
    if ps == [] then t else TailFacts(ps); ReplaceEach(Replace(t, ps[0], vs[0]), ps[1..], vs[1..])
  }

  /** `ReplaceAll`: the placeholders replaced one after the other, `$TYPE`
      first. */
  function ReplaceAll(template: string, isText: bool, rank: int, shown: Shown): string
  {
    PlaceholdersApart();
    ReplaceEach(template, Placeholders, Values(isText, rank, shown))
  }

  /** `ToString`: the text rendering followed by the voice rendering of the
      same template. */
  function ItemToString(template: string, item: LeaderboardItem, text: Shown, voice: Shown): (r: string)
    ensures StartsWith(r, ReplaceAll(template, true, item.rank, text))
    ensures EndsWith(r, ReplaceAll(template, false, item.rank, voice))
    ensures |r| == |ReplaceAll(template, true, item.rank, text)| + |ReplaceAll(template, false, item.rank, voice)|
  {
    var a := ReplaceAll(template, true, item.rank, text);
    var b := ReplaceAll(template, false, item.rank, voice);
    assert (a + b)[..|a|] == a;
    assert (a + b)[|a + b| - |b|..] == b;
    a + b
  }

  // ---------------------------------------------------------------------------
  // What a template renders to
  // ---------------------------------------------------------------------------

  /** Every placeholder starts with `$` and holds no other `$`. */
  predicate Marked(ps: seq<string>)
  {
    forall q :: q in ps ==> |q| > 0 && q[0] == '$' && !ContainsChar(q[1..], '$')
  }

  /** No placeholder is the beginning of another. */
  predicate Apart(ps: seq<string>)
  {
    forall q1, q2 :: q1 in ps && q2 in ps && q1 != q2 ==> !(q1 <= q2)
  }

  /** No placeholder is listed twice. */
  predicate Distinct(ps: seq<string>)
  {
    forall i, j :: 0 <= i < j < |ps| ==> ps[i] != ps[j]
  }

  /** No value holds a `$`. */
  predicate NoDollars(vs: seq<string>)
  {
    forall k :: 0 <= k < |vs| ==> !ContainsChar(vs[k], '$')
  }

  /** Every `$` of `s` starts one of the placeholders `ps`. */
  predicate DollarsBegin(s: string, ps: seq<string>)
  {
    forall i :: 0 <= i < |s| && s[i] == '$' ==> exists q :: q in ps && OccursAt(s, q, i)
  }

  /** The eight placeholders are well formed, distinct, and none begins
      another (`$LVL` and `$LEFTROT`, `$RANK` and `$RIGHTROT` part at their
      second letter). */
  lemma PlaceholdersApart()
    ensures Marked(Placeholders) && Apart(Placeholders) && Distinct(Placeholders)
  {
    PlaceholdersMarked();
    PlaceholdersPrefixFree();
    PlaceholdersDistinct();
  }

  lemma PlaceholdersDistinct()
    ensures Distinct(Placeholders)
  {
  }

  lemma PlaceholdersPrefixFree()
    ensures Apart(Placeholders)
  {
    forall q1, q2 | q1 in Placeholders && q2 in Placeholders && q1 <= q2
      ensures q1 == q2
    {
      assert q1[1] == q2[1] && q1[2] == q2[2];
    }
  }

  lemma PlaceholdersMarked()
    ensures Marked(Placeholders)
  {
    forall q | q in Placeholders
      ensures |q| > 0 && q[0] == '$' && !ContainsChar(q[1..], '$')
    {
      forall i | 0 <= i < |q[1..]|
        ensures q[1..][i] != '$'
      {
        assert q[1..][i] == q[i + 1];
      }
    }
  }

  /** What holds of a list of placeholders holds of its tail. */
  lemma TailFacts(ps: seq<string>)
    requires ps != []
    ensures Marked(ps) ==> Marked(ps[1..])
    ensures Apart(ps) ==> Apart(ps[1..])
    ensures Distinct(ps) ==> Distinct(ps[1..])
  {
    forall q | q in ps[1..]
      ensures q in ps
    {
    }
    forall i, j | 0 <= i < j < |ps[1..]|
      ensures ps[1..][i] == ps[i + 1] && ps[1..][j] == ps[j + 1]
    {
    }
  }

  /** A number's decimal text holds no `$`. */
  lemma NumberHasNoDollar(n: int)
    ensures !ContainsChar(IntToString(n), '$')
  {
    var s := IntToString(n);
    forall i | 0 <= i < |s|
      ensures s[i] != '$'
    {
      if n < 0 {
        assert s[i] == ("-" + NatToString(-n))[i];
      }
    }
  }

  /** A placeholder is found only at its own position. */
  lemma SamePlaceholder(s: string, i: int, q: string, p: string, ps: seq<string>)
    requires Apart(ps) && q in ps && p in ps && OccursAt(s, q, i) && OccursAt(s, p, i)
    ensures q == p
  {
    var m := if |q| <= |p| then |q| else |p|;
    assert q[..m] == s[i..i + m] == p[..m];
    assert q[..|q|] == q && p[..|p|] == p;
  }

  /** What follows a `$` that starts a placeholder stays so in a suffix. */
  lemma DollarsSuffix(s: string, n: nat, ps: seq<string>)
    requires n <= |s| && DollarsBegin(s, ps)
    ensures DollarsBegin(s[n..], ps)
  {
    forall i | 0 <= i < |s[n..]| && s[n..][i] == '$'
      ensures exists q :: q in ps && OccursAt(s[n..], q, i)
    {
      var q :| q in ps && OccursAt(s, q, n + i);
      assert s[n..][i..i + |q|] == s[n + i..n + i + |q|];
    }
  }

  /** ... and in a concatenation. */
  lemma DollarsConcat(x: string, y: string, ps: seq<string>)
    requires DollarsBegin(x, ps) && DollarsBegin(y, ps)
    ensures DollarsBegin(x + y, ps)
  {
    forall i | 0 <= i < |x + y| && (x + y)[i] == '$'
      ensures exists q :: q in ps && OccursAt(x + y, q, i)
    {
      if i < |x| {
        var q :| q in ps && OccursAt(x, q, i);
        assert (x + y)[i..i + |q|] == x[i..i + |q|];
      } else {
        var q :| q in ps && OccursAt(y, q, i - |x|);
        assert (x + y)[i..i + |q|] == y[i - |x|..i - |x| + |q|];
      }
    }
  }

  /** A placeholder on its own starts with its only `$`. */
  lemma HoleDollars(q: string, ps: seq<string>)
    requires Marked(ps) && q in ps
    ensures DollarsBegin(q, ps)
  {
    forall i | 0 < i < |q|
      ensures q[i] != '$'
    {
      assert q[1..][i - 1] == q[i];
    }
    assert OccursAt(q, q, 0) by {
      assert q[0..|q|] == q;
    }
  }

  /** Replacing a pattern that starts with `$` keeps a prefix without `$`. */
  lemma {:induction false} ReplaceKeepsPrefix(t: string, p: string, v: string, n: nat)
    requires |p| > 0 && p[0] == '$' && n <= |t| && !ContainsChar(t[..n], '$')
    ensures n <= |Replace(t, p, v)| && Replace(t, p, v)[..n] == t[..n]
    decreases n
  {
    if n > 0 {
      assert t[0] == t[..n][0] != '$';
      if |t| >= |p| {
        assert t[..|p|][0] != p[0];
        var rest := Replace(t[1..], p, v);
        assert Replace(t, p, v) == [t[0]] + rest;
        var front := t[1..][..n - 1];
        forall k | 0 <= k < |front|
          ensures front[k] != '$'
        {
          assert front[k] == t[..n][k + 1];
        }
        ReplaceKeepsPrefix(t[1..], p, v, n - 1);
        assert t[..n] == [t[0]] + t[1..][..n - 1];
      }
    }
  }

  /** Replacing `p` in `x + y` replaces it in `x` and in `y` apart when
      every `$` of `x` starts a placeholder within `x`. */
  lemma {:induction false} ReplaceSplit(x: string, y: string, p: string, v: string, ps: seq<string>)
    requires Marked(ps) && Apart(ps) && p in ps && DollarsBegin(x, ps)
    ensures Replace(x + y, p, v) == Replace(x, p, v) + Replace(y, p, v)
    decreases |x|
  {
    if x == [] {
      assert x + y == y;
    } else if |x + y| < |p| {
      assert Replace(x, p, v) == x && Replace(y, p, v) == y;
    } else if (x + y)[..|p|] == p {
      assert x[0] == (x + y)[..|p|][0] == '$';
      var q :| q in ps && OccursAt(x, q, 0);
      assert (x + y)[0..|q|] == x[0..|q|];
      SamePlaceholder(x + y, 0, q, p, ps);
      assert x[..|p|] == p;
      assert (x + y)[|p|..] == x[|p|..] + y;
      DollarsSuffix(x, |p|, ps);
      ReplaceSplit(x[|p|..], y, p, v, ps);
      AppendAssoc(v, Replace(x[|p|..], p, v), Replace(y, p, v));
    } else {
      assert (x + y)[1..] == x[1..] + y;
      DollarsSuffix(x, 1, ps);
      ReplaceSplit(x[1..], y, p, v, ps);
      if |x| >= |p| {
        assert x[..|p|] == (x + y)[..|p|];
      } else {
        assert Replace(x[1..], p, v) == x[1..];
        assert x == [x[0]] + x[1..];
      }
      AppendAssoc([x[0]], Replace(x[1..], p, v), Replace(y, p, v));
    }
  }

  /** After `p` is replaced by text without `$`, every `$` left starts one
      of the other placeholders. */
  lemma {:induction false} ReplaceClears(s: string, p: string, v: string, ps: seq<string>, rest: seq<string>)
    requires Marked(ps) && Apart(ps) && p in ps && DollarsBegin(s, ps) && !ContainsChar(v, '$')
    requires forall q :: q in ps && q != p ==> q in rest
    ensures DollarsBegin(Replace(s, p, v), rest)
    decreases |s|
  {
    var r := Replace(s, p, v);
    if |s| < |p| {
      forall i | 0 <= i < |r| && r[i] == '$'
        ensures exists q :: q in rest && OccursAt(r, q, i)
      {
        var q :| q in ps && OccursAt(s, q, i);
        assert |q| != |p|;
      }
    } else if s[..|p|] == p {
      var tail := Replace(s[|p|..], p, v);
      DollarsSuffix(s, |p|, ps);
      ReplaceClears(s[|p|..], p, v, ps, rest);
      assert DollarsBegin(v, rest);
      DollarsConcat(v, tail, rest);
    } else {
      DollarsSuffix(s, 1, ps);
      ReplaceClears(s[1..], p, v, ps, rest);
      ReplaceClearsKept(s, p, v, ps, rest);
    }
  }

  /** The step of `ReplaceClears` where the first character is kept. */
  lemma ReplaceClearsKept(s: string, p: string, v: string, ps: seq<string>, rest: seq<string>)
    requires Marked(ps) && Apart(ps) && p in ps && DollarsBegin(s, ps) && !ContainsChar(v, '$')
    requires forall q :: q in ps && q != p ==> q in rest
    requires |s| >= |p| && s[..|p|] != p
    requires DollarsBegin(Replace(s[1..], p, v), rest)
    ensures DollarsBegin(Replace(s, p, v), rest)
  {
    var r := Replace(s, p, v);
    var tail := Replace(s[1..], p, v);
    assert r == [s[0]] + tail;
    forall i | 0 <= i < |r| && r[i] == '$'
      ensures exists q :: q in rest && OccursAt(r, q, i)
    {
      if i == 0 {
        KeptDollar(s, p, v, ps, rest);
      } else {
        var q :| q in rest && OccursAt(tail, q, i - 1);
        OccursShift([s[0]], tail, q, i - 1);
      }
    }
  }

  /** An occurrence in `b` is one in `a + b`, `|a|` further on. */
  lemma OccursShift(a: string, b: string, q: string, j: int)
    requires OccursAt(b, q, j)
    ensures OccursAt(a + b, q, j + |a|)
  {
    assert (a + b)[j + |a|..j + |a| + |q|] == b[j..j + |q|];
  }

  /** A kept `$` still starts its placeholder, which is not `p`. */
  lemma KeptDollar(s: string, p: string, v: string, ps: seq<string>, rest: seq<string>)
    requires Marked(ps) && p in ps && DollarsBegin(s, ps)
    requires forall q :: q in ps && q != p ==> q in rest
    requires |s| >= |p| && s[..|p|] != p && s[0] == '$'
    ensures exists q :: q in rest && OccursAt(Replace(s, p, v), q, 0)
  {
    var q :| q in ps && OccursAt(s, q, 0);
    assert s[..|q|] == q;
    KeptPlaceholder(s, p, v, q);
  }

  /** A placeholder `q` other than `p` at the start of `s` is still there
      after `p` is replaced. */
  lemma KeptPlaceholder(s: string, p: string, v: string, q: string)
    requires |p| > 0 && p[0] == '$' && |q| > 0 && !ContainsChar(q[1..], '$')
    requires |s| >= |p| && s[..|p|] != p && |q| <= |s| && s[..|q|] == q
    ensures OccursAt(Replace(s, p, v), q, 0)
  {
    var r := Replace(s, p, v);
    var tail := Replace(s[1..], p, v);
    assert r == [s[0]] + tail;
    assert s[1..][..|q| - 1] == q[1..];
    ReplaceKeepsPrefix(s[1..], p, v, |q| - 1);
    assert r[..|q|] == [s[0]] + tail[..|q| - 1];
    assert q == [q[0]] + q[1..] && s[0] == q[0];
    assert r[0..|q|] == r[..|q|] == q;
  }

  /** Text without `$` goes through every replacement unchanged. */
  lemma {:induction false} ReplaceEachPlain(t: string, ps: seq<string>, vs: seq<string>)
    requires |ps| == |vs| && Marked(ps) && !ContainsChar(t, '$')
    ensures ReplaceEach(t, ps, vs) == t
    decreases |ps|
  {
    if ps != [] {
      TailFacts(ps);
      ReplaceKeepsPlain(t, ps[0], vs[0]);
      ReplaceEachPlain(t, ps[1..], vs[1..]);
    }
  }

  /** The replacements distribute over a concatenation whose left part has
      every `$` starting a placeholder. */
  lemma {:induction false} ReplaceEachSplit(x: string, y: string, ps: seq<string>, vs: seq<string>)
    requires |ps| == |vs| && Marked(ps) && Apart(ps) && NoDollars(vs) && DollarsBegin(x, ps)
    ensures ReplaceEach(x + y, ps, vs) == ReplaceEach(x, ps, vs) + ReplaceEach(y, ps, vs)
    decreases |ps|
  {
    if ps != [] {
      TailFacts(ps);
      ReplaceSplit(x, y, ps[0], vs[0], ps);
      ReplaceClears(x, ps[0], vs[0], ps, ps[1..]);
      ReplaceEachSplit(Replace(x, ps[0], vs[0]), Replace(y, ps[0], vs[0]), ps[1..], vs[1..]);
    }
  }

  /** When every `$` of the template starts a placeholder and no value holds
      a `$`, no `$` is left, so no placeholder is either. */
  lemma {:induction false} ReplaceEachClears(t: string, ps: seq<string>, vs: seq<string>)
    requires |ps| == |vs| && Marked(ps) && Apart(ps) && NoDollars(vs) && DollarsBegin(t, ps)
    ensures !ContainsChar(ReplaceEach(t, ps, vs), '$')
    decreases |ps|
  {
    if ps != [] {
      TailFacts(ps);
      ReplaceClears(t, ps[0], vs[0], ps, ps[1..]);
      ReplaceEachClears(Replace(t, ps[0], vs[0]), ps[1..], vs[1..]);
    }
  }

  /** A placeholder does not occur inside another. */
  lemma HoleAbsent(q: string, p: string, ps: seq<string>)
    requires Marked(ps) && Apart(ps) && q in ps && p in ps && q != p
    ensures !Contains(q, p)
  {
    forall i | 0 <= i <= |q| - |p|
      ensures !OccursAt(q, p, i)
    {
      if i > 0 {
        assert q[1..][i - 1] == q[i] == q[i..i + |p|][0];
      } else {
        assert q[0..|p|] == q[..|p|];
      }
    }
  }

  /** A placeholder on its own becomes its value. */
  lemma {:induction false} ReplaceEachHole(k: nat, ps: seq<string>, vs: seq<string>)
    requires |ps| == |vs| && Marked(ps) && Apart(ps) && Distinct(ps) && NoDollars(vs) && k < |ps|
    ensures ReplaceEach(ps[k], ps, vs) == vs[k]
    decreases |ps|
  {
    TailFacts(ps);
    if k == 0 {
      assert ps[0][..|ps[0]|] == ps[0] && ps[0][|ps[0]|..] == [];
      assert Replace([], ps[0], vs[0]) == [];
      assert Replace(ps[0], ps[0], vs[0]) == vs[0] + [] == vs[0];
      ReplaceEachPlain(vs[0], ps[1..], vs[1..]);
    } else {
      HoleAbsent(ps[k], ps[0], ps);
      ReplaceAbsent(ps[k], ps[0], vs[0]);
      assert ps[k] == ps[1..][k - 1];
      forall j | 0 <= j < k - 1
        ensures ps[1..][j] != ps[1..][k - 1]
      {
        assert ps[1..][j] == ps[j + 1];
      }
      ReplaceEachHole(k - 1, ps[1..], vs[1..]);
    }
  }

  /** A piece of a template: text without `$`, or the placeholder at a
      position of the list. */
  datatype Piece = Text(s: string) | Hole(k: nat)

  /** The pieces are text without `$` and placeholders of `ps`. */
  predicate WellFormed(pieces: seq<Piece>, ps: seq<string>)
  {
    forall i :: 0 <= i < |pieces| ==>
      match pieces[i]
      case Text(s) => !ContainsChar(s, '$')
      case Hole(k) => k < |ps|
  }

  /** The template the pieces spell, with each hole written as its
      placeholder, ... */
  function Join(pieces: seq<Piece>, ps: seq<string>): string
  {
    if pieces == [] then ""
    else
      match pieces[0]
      case Text(s) => s + Join(pieces[1..], ps)
      case Hole(k) => (if k < |ps| then ps[k] else "") + Join(pieces[1..], ps)
  }

  /** ... and the text they stand for, with each hole written as its value. */
  function Fill(pieces: seq<Piece>, vs: seq<string>): string
  {
    if pieces == [] then ""
    else
      match pieces[0]
      case Text(s) => s + Fill(pieces[1..], vs)
      case Hole(k) => (if k < |vs| then vs[k] else "") + Fill(pieces[1..], vs)
  }

  /** What holds of the pieces holds of all but the first. */
  lemma TailWellFormed(pieces: seq<Piece>, ps: seq<string>)
    requires pieces != [] && WellFormed(pieces, ps)
    ensures WellFormed(pieces[1..], ps)
  {
    forall i | 0 <= i < |pieces[1..]|
      ensures pieces[1..][i] == pieces[i + 1]
    {
    }
  }

  /** Every `$` of a well-formed template starts a placeholder. */
  lemma {:induction false} JoinDollars(pieces: seq<Piece>, ps: seq<string>)
    requires Marked(ps) && WellFormed(pieces, ps)
    ensures DollarsBegin(Join(pieces, ps), ps)
    decreases |pieces|
  {
    if pieces != [] {
      TailWellFormed(pieces, ps);
      JoinDollars(pieces[1..], ps);
      match pieces[0]
      case Text(s) =>
        DollarsConcat(s, Join(pieces[1..], ps), ps);
      case Hole(k) =>
        HoleDollars(ps[k], ps);
        DollarsConcat(ps[k], Join(pieces[1..], ps), ps);
    }
  }

  /** The replacements turn a well-formed template into its filling: the
      text as it is and each placeholder as its value. */
  lemma {:induction false} ReplaceEachPieces(pieces: seq<Piece>, ps: seq<string>, vs: seq<string>)
    requires |ps| == |vs| && Marked(ps) && Apart(ps) && Distinct(ps) && NoDollars(vs) && WellFormed(pieces, ps)
    ensures ReplaceEach(Join(pieces, ps), ps, vs) == Fill(pieces, vs)
    decreases |pieces|
  {
    if pieces != [] {
      TailWellFormed(pieces, ps);
      ReplaceEachPieces(pieces[1..], ps, vs);
      match pieces[0]
      case Text(s) =>
        assert Join(pieces, ps) == s + Join(pieces[1..], ps);
        assert Fill(pieces, vs) == s + Fill(pieces[1..], vs);
        ReplaceEachSplit(s, Join(pieces[1..], ps), ps, vs);
        ReplaceEachPlain(s, ps, vs);
      case Hole(k) =>
        assert Join(pieces, ps) == ps[k] + Join(pieces[1..], ps);
        assert Fill(pieces, vs) == vs[k] + Fill(pieces[1..], vs);
        HoleDollars(ps[k], ps);
        ReplaceEachSplit(ps[k], Join(pieces[1..], ps), ps, vs);
        ReplaceEachHole(k, ps, vs);
    } else {
      ReplaceEachPlain("", ps, vs);
    }
  }

  /** The values of one ranking hold no `$` when the avatar, name and
      experience do not. */
  lemma ValuesPlain(isText: bool, rank: int, shown: Shown)
    requires !ContainsChar(shown.avatarUrl, '$') && !ContainsChar(shown.name, '$') && !ContainsChar(shown.exp, '$')
    ensures NoDollars(Values(isText, rank, shown))
  {
    var vs := Values(isText, rank, shown);
    NumberHasNoDollar(rank);
    NumberHasNoDollar(shown.level);
    NumberHasNoDollar(Rotations(shown.rot).0);
    NumberHasNoDollar(Rotations(shown.rot).1);
    assert !ContainsChar(vs[0], '$') by {
      if isText {
        assert vs[0] == "text";
      } else {
        assert vs[0] == "voice hide";
      }
    }
  }

  /** `$TYPE` becomes `text` or `voice hide`, `$RANK` the rank, `$PFPURL`,
      `$NAME` and `$EXP` the user's avatar, name and experience, `$LVL` the
      level and `$LEFTROT`, `$RIGHTROT` the two ring halves: a template of
      `$`-free text and placeholders renders as its filling, and no `$` is
      left in it. */
  lemma RenderPieces(pieces: seq<Piece>, isText: bool, rank: int, shown: Shown)
    requires WellFormed(pieces, Placeholders)
    requires !ContainsChar(shown.avatarUrl, '$') && !ContainsChar(shown.name, '$') && !ContainsChar(shown.exp, '$')
    ensures ReplaceAll(Join(pieces, Placeholders), isText, rank, shown) == Fill(pieces, Values(isText, rank, shown))
    ensures !ContainsChar(ReplaceAll(Join(pieces, Placeholders), isText, rank, shown), '$')
  {
    PlaceholdersApart();
    ValuesPlain(isText, rank, shown);
    ReplaceEachPieces(pieces, Placeholders, Values(isText, rank, shown));
    JoinDollars(pieces, Placeholders);
    ReplaceEachClears(Join(pieces, Placeholders), Placeholders, Values(isText, rank, shown));
  }

  /** `ToString` of a template made of text and placeholders: the text
      ranking's filling followed by the voice ranking's, at the same rank. */
  lemma ItemPieces(pieces: seq<Piece>, item: LeaderboardItem, text: Shown, voice: Shown)
    requires WellFormed(pieces, Placeholders)
    requires !ContainsChar(text.avatarUrl, '$') && !ContainsChar(text.name, '$') && !ContainsChar(text.exp, '$')
    requires !ContainsChar(voice.avatarUrl, '$') && !ContainsChar(voice.name, '$') && !ContainsChar(voice.exp, '$')
    ensures ItemToString(Join(pieces, Placeholders), item, text, voice)
              == Fill(pieces, Values(true, item.rank, text)) + Fill(pieces, Values(false, item.rank, voice))
  {
    RenderPieces(pieces, true, item.rank, text);
    RenderPieces(pieces, false, item.rank, voice);
  }

  /** Why a template must have each `$` start a placeholder: a `$` that
      does not can meet a value and form a placeholder after that
      placeholder's turn has passed. */
  lemma ReplaceCanFormPlaceholder()
    ensures Replace("$NA$NAME", "$NAME", "ME") == "$NAME"
  {
    var s := "$NA$NAME";
    assert s[1..] == "NA$NAME" && s[2..] == "A$NAME" && s[3..] == "$NAME";
    assert s[..5] != "$NAME" && "NA$NAME"[..5] != "$NAME" && "A$NAME"[..5] != "$NAME";
    assert "$NAME"[..5] == "$NAME" && "$NAME"[5..] == [];
    assert Replace("$NAME", "$NAME", "ME") == "ME" + Replace([], "$NAME", "ME") == "ME";
    assert Replace("A$NAME", "$NAME", "ME") == "AME";
    assert Replace("NA$NAME", "$NAME", "ME") == "NAME";
  }

  /** A string without `$` holds no placeholder. */
  lemma NoPlaceholder(s: string, pat: string)
    requires |pat| > 0 && pat[0] == '$' && !ContainsChar(s, '$')
    ensures !Contains(s, pat)
  {
    forall i | 0 <= i <= |s| - |pat|
      ensures !OccursAt(s, pat, i)
    {
      assert s[i..i + |pat|][0] == s[i] != '$';
    }
  }

  /** Replacing a placeholder in a string without `$` changes nothing. */
  lemma ReplaceKeepsPlain(s: string, pat: string, rep: string)
    requires |pat| > 0 && pat[0] == '$' && !ContainsChar(s, '$')
    ensures Replace(s, pat, rep) == s
  {
    NoPlaceholder(s, pat);
    ReplaceAbsent(s, pat, rep);
  }

  /** A template without placeholders is rendered as it is, once for text
      and once for voice. */
  lemma PlainTemplateTwice(template: string, item: LeaderboardItem, text: Shown, voice: Shown)
    requires !ContainsChar(template, '$')
    ensures ItemToString(template, item, text, voice) == template + template
  {
    PlaceholdersApart();
    ReplaceEachPlain(template, Placeholders, Values(true, item.rank, text));
    ReplaceEachPlain(template, Placeholders, Values(false, item.rank, voice));
  }
}
