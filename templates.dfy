/**
 * The template-term randomiser of `LanguageHelper`: a predicate such as
 * "{a}{animal1} met {animal1}" has its brace-delimited tags replaced by
 * terms drawn at random from per-identifier banks, with the `a`/`A`,
 * `plural` and `'s` tags decorating the next term. Each identifier keeps a
 * cache of terms already drawn, so equal tags give equal terms.
 */
module Templates {
  import opened Common
  import opened Language

  /** The parts of `LanguageConfiguration` the randomiser reads. */
  datatype LanguageConfig = LanguageConfig(
    startIndicator: char,
    endIndicator: char,
    errorCode: int,
    aversion: nat,
    irregularPlurals: map<string, string>)

  /** The first position of `x` in `s`, or -1 (`List.IndexOf`). */
  function FirstIndexOf<T(==)>(s: seq<T>, x: T): (r: int)
    ensures -1 <= r < |s|
    ensures r >= 0 ==> s[r] == x && forall j :: 0 <= j < r ==> s[j] != x
    ensures r == -1 <==> x !in s
  {
    if s == [] then -1
    else if s[0] == x then 0
    else
      var k := FirstIndexOf(s[1..], x);
      if k < 0 then -1 else k + 1
  }

  // ===========================================================================
  // Term classes
  // ===========================================================================

  /** The terms of one identifier and the terms already handed out for it. */
  class TermClass {
    const Identifier: string
    const Bank: seq<string>
    var Cache: seq<string>

    /** Every cached term was drawn from the bank. */
    ghost predicate Valid()
      reads this
    {
      forall k :: 0 <= k < |Cache| ==> Cache[k] in Bank
    }

    constructor (identifier: string, bank: seq<string>)
      ensures Identifier == identifier && Bank == bank && Cache == []
      ensures Valid()
    {
      Identifier := identifier;
      Bank := bank;
      Cache := [];
    }

    /** `GetOrGenerateCached`: the cached term at `index`, drawing new terms
        from the bank until the cache is long enough. A drawn term that is
        already cached is redrawn up to `aversion` times. A negative index
        fails the final list access; an empty bank fails the first draw. */
    method GetOrGenerateCached(index: int, rng: Rng, aversion: nat) returns (r: Outcome<string>)
      requires Valid()
      modifies this`Cache, rng
      ensures Valid()
      ensures |old(Cache)| <= |Cache| && Cache[..|old(Cache)|] == old(Cache)
      ensures index < 0 ==> r == Thrown("ArgumentOutOfRangeException") && Cache == old(Cache)
      ensures 0 <= index < |old(Cache)| ==> r == Ok(old(Cache)[index]) && Cache == old(Cache)
      ensures index >= |old(Cache)| && Bank == [] ==>
                r == Thrown("IndexOutOfRangeException") && Cache == old(Cache)
      ensures index >= |old(Cache)| && Bank != [] ==>
                && |Cache| == index + 1
                && Cache[..|old(Cache)|] == old(Cache)
                && r == Ok(Cache[index])
    {
      if index < 0 {
        return Thrown("ArgumentOutOfRangeException");
      }
      while |Cache| <= index
        invariant Valid()
        invariant |old(Cache)| <= |Cache|
        invariant |old(Cache)| <= index ==> |Cache| <= index + 1
        invariant |old(Cache)| > index ==> Cache == old(Cache)
        invariant Cache[..|old(Cache)|] == old(Cache)
        invariant Bank == [] ==> Cache == old(Cache)
        decreases index - |Cache|
      {
        var k := rng.Next(|Bank|);
        if k >= |Bank| {
          return Thrown("IndexOutOfRangeException");
        }
        Cache := Cache + [Bank[k]];
        ghost var grown := |Cache|;
        var i := 0;
        while i < aversion && FirstIndexOf(Cache, Cache[|Cache| - 1]) < |Cache| - 1
          invariant Valid()
          invariant |Cache| == grown
          invariant Cache[..|old(Cache)|] == old(Cache)
        {
          var k2 := rng.Next(|Bank|);
          Cache := Cache[..|Cache| - 1] + [Bank[k2]];
          i := i + 1;
        }
      }
      r := Ok(Cache[index]);
    }
  }

  // ===========================================================================
  // Decorating a term
  // ===========================================================================

  datatype Article = NoArticle | Lowercase | Uppercase

  /** The pending `a`/`A`, `plural` and `'s` tags. */
  datatype Modifiers = Modifiers(article: Article, plural: bool, possessive: bool)

  const NoModifiers := Modifiers(NoArticle, false, false)

  /** The modifier a tag sets, if the tag is one of the special tags. */
  function ApplyModifier(tag: string, mods: Modifiers): (r: Option<Modifiers>)
    ensures r.Some? <==> tag == "a" || tag == "A" || ToLower(tag) == "plural" || ToLower(tag) == "'s"
    ensures r.Some? && tag == "a" ==> r.value == mods.(article := Lowercase)
    ensures r.Some? && tag == "A" ==> r.value == mods.(article := Uppercase)
    ensures r.Some? ==> (r.value.plural <==> mods.plural || ToLower(tag) == "plural")
    ensures r.Some? ==> (r.value.possessive <==> mods.possessive || ToLower(tag) == "'s")
  {
    if tag == "a" then Some(mods.(article := Lowercase))
    else if tag == "A" then Some(mods.(article := Uppercase))
    else if ToLower(tag) == "plural" then Some(mods.(plural := true))
    else if ToLower(tag) == "'s" then Some(mods.(possessive := true))
    else None
  }

  /** The article guessed for a noun, a space, then the noun. */
  function WithArticle(noun: string, capitalize: bool): (r: Outcome<string>)
    ensures r.Thrown? <==> Trim(noun) == ""
    ensures r.Ok? ==> EndsWith(r.value, " " + noun)
    ensures r.Ok? ==> StartsWith(r.value, if capitalize then "A" else "a")
  {
    var article := GuessIndefiniteArticle(noun, capitalize);
    if article.Ok? then
      ArticleThenNoun(article.value, noun);
      Ok(article.value + " " + noun)
    else article
  }

  /** An article, a space and the noun: the text ends with the noun and
      starts with the article's first letter. */
  lemma ArticleThenNoun(a: string, noun: string)
    requires |a| >= 1
    ensures EndsWith(a + " " + noun, " " + noun)
    ensures StartsWith(a + " " + noun, [a[0]])
  {
    var r := a + " " + noun;
    assert r[|a|..] == " " + noun;
    assert r[..1] == [a[0]];
  }

  /** A drawn term with the pending modifiers applied: plural first, then
      the possessive, then the article in front. */
  function Decorate(term: string, mods: Modifiers, irregular: map<string, string>): (r: Outcome<string>)
    ensures mods == NoModifiers ==> r == Ok(term)
    ensures r.Thrown? ==> mods.plural || mods.article != NoArticle
    ensures r.Ok? && mods.possessive ==> EndsWith(r.value, "s'") || EndsWith(r.value, "'s")
    ensures r.Ok? && mods.article == Lowercase ==> StartsWith(r.value, "a")
    ensures r.Ok? && mods.article == Uppercase ==> StartsWith(r.value, "A")
  {
    var plural := if mods.plural then GuessPluralFixed(term, irregular) else Ok(term);
    if !plural.Ok? then plural
    else
      var owned := if mods.possessive then Possessive(plural.value) else plural.value;
      if mods.article == NoArticle then Ok(owned)
      else
        var r := WithArticle(owned, mods.article == Uppercase);
        if r.Ok? && mods.possessive then PossessiveSuffix(plural.value, r.value); r
        else r
  }

  /** Text ending in a possessive noun ends in `s'` or `'s`. */
  lemma PossessiveSuffix(noun: string, text: string)
    requires EndsWith(text, " " + Possessive(noun))
    ensures EndsWith(text, "s'") || EndsWith(text, "'s")
  {
    var p := Possessive(noun);
    assert text[|text| - |p|..] == p;
    assert text[|text| - 2..] == p[|p| - 2..];
  }

  // ===========================================================================
  // Resolving a tag against the term classes
  // ===========================================================================

  /** The identifiers of the term classes, in order. */
  function Identifiers(terms: seq<TermClass>): (ids: seq<string>)
    ensures |ids| == |terms| && forall k :: 0 <= k < |terms| ==> ids[k] == terms[k].Identifier
  {
    seq(|terms|, k requires 0 <= k < |terms| => terms[k].Identifier)
  }

  /** The caches of the term classes, in order. */
  ghost function Caches(terms: seq<TermClass>): (caches: seq<seq<string>>)
    reads set k | 0 <= k < |terms| :: terms[k]
    ensures |caches| == |terms| && forall k :: 0 <= k < |terms| ==> caches[k] == terms[k].Cache
  {
    seq(|terms|, k requires 0 <= k < |terms| reads terms => terms[k].Cache)
  }

  /** Every cache of `later` starts with the corresponding cache of
      `earlier`. */
  ghost predicate Extends(earlier: seq<seq<string>>, later: seq<seq<string>>)
  {
    && |earlier| == |later|
    && forall j :: 0 <= j < |earlier| ==> |earlier[j]| <= |later[j]| && later[j][..|earlier[j]|] == earlier[j]
  }

  lemma ExtendsTrans(a: seq<seq<string>>, b: seq<seq<string>>, c: seq<seq<string>>)
    requires Extends(a, b) && Extends(b, c)
    ensures Extends(a, c)
  {
    forall j | 0 <= j < |a|
      ensures c[j][..|a[j]|] == a[j]
    {
      assert c[j][..|a[j]|] == c[j][..|b[j]|][..|a[j]|];
    }
  }

  /** The first term class whose identifier the tag starts with and whose
      check gives an index or the error code, or -1. */
  function FirstHit(ids: seq<string>, tag: string, errorCode: int): (j: int)
    ensures -1 <= j < |ids|
    ensures j >= 0 ==> var x := CheckReplace(ids[j], tag, errorCode);
                       x == errorCode || x >= 0
    ensures forall k :: 0 <= k < |ids| && (j < 0 || k < j) ==>
              var x := CheckReplace(ids[k], tag, errorCode);
              x != errorCode && x < 0
  {
    if ids == [] then -1
    else
      var x := CheckReplace(ids[0], tag, errorCode);
      if x == errorCode || x >= 0 then 0
      else
        var j := FirstHit(ids[1..], tag, errorCode);
        if j < 0 then -1 else j + 1
  }

  /** The tag names a term that cannot be resolved: the first class that
      recognises it finds no non-negative `int` after its identifier. */
  predicate BadIndex(tag: string, ids: seq<string>, errorCode: int)
  {
    var j := FirstHit(ids, tag, errorCode);
    j >= 0 && CheckReplace(ids[j], tag, errorCode) == errorCode
  }

  /** Two tags name the same term: the same class recognises both, with the
      same index. */
  predicate SameTerm(tag1: string, tag2: string, ids: seq<string>, errorCode: int)
  {
    var j := FirstHit(ids, tag1, errorCode);
    j == FirstHit(ids, tag2, errorCode) &&
    (j >= 0 ==> CheckReplace(ids[j], tag1, errorCode) == CheckReplace(ids[j], tag2, errorCode))
  }

  /** The outcome of resolving a tag that the caches already decide: no
      class recognises it, the recognising class rejects its index, or that
      class has already cached the index. `None` when a term must be drawn. */
  function Recall(tag: string, ids: seq<string>, caches: seq<seq<string>>, errorCode: int)
    : (o: Option<Outcome<Option<string>>>)
    requires |ids| == |caches|
    ensures BadIndex(tag, ids, errorCode) ==> o == Some(Thrown("IndexOutOfRangeException"))
    ensures FirstHit(ids, tag, errorCode) < 0 <==> o == Some(Ok(None))
  {
    var j := FirstHit(ids, tag, errorCode);
    if j < 0 then Some(Ok(None))
    else
      var x := CheckReplace(ids[j], tag, errorCode);
      if x == errorCode then Some(Thrown("IndexOutOfRangeException"))
      else if x < |caches[j]| then Some(Ok(Some(caches[j][x])))
      else None
  }

  /** A tag whose index is not a number, such as `animalx` against the
      identifier `animal`, is rejected, and resolving it throws. */
  lemma LetterIndexThrows(errorCode: int)
    ensures BadIndex("animalx", ["animal"], errorCode)
    ensures Recall("animalx", ["animal"], [[]], errorCode) == Some(Thrown("IndexOutOfRangeException"))
  {
    assert StartsWith("animalx", "animal") by {
      assert "animalx"[..|"animal"|] == "animal";
    }
    assert "animalx"[|"animal"|..] == "x";
    assert !AllDigits("x") by {
      assert !IsDigit("x"[0]);
    }
  }

  /** What the caches decide stays decided as they grow, and two tags that
      name the same term are decided alike. */
  lemma {:induction false} RecallKeeps(tag: string, other: string, ids: seq<string>,
                                       earlier: seq<seq<string>>, later: seq<seq<string>>, errorCode: int)
    requires |ids| == |earlier| && Extends(earlier, later)
    requires Recall(tag, ids, earlier, errorCode).Some? && SameTerm(tag, other, ids, errorCode)
    ensures Recall(other, ids, later, errorCode) == Recall(tag, ids, earlier, errorCode)
  {
    var j := FirstHit(ids, tag, errorCode);
    if j >= 0 {
      var x := CheckReplace(ids[j], tag, errorCode);
      if x != errorCode {
        assert later[j][..|earlier[j]|][x] == later[j][x];
      }
    }
  }

  /** Some bank holds the term. */
  ghost predicate InSomeBank(term: string, terms: seq<TermClass>)
  {
    exists k :: 0 <= k < |terms| && term in terms[k].Bank
  }

  ghost predicate AllValid(terms: seq<TermClass>)
    reads set k | 0 <= k < |terms| :: terms[k]
  {
    forall k :: 0 <= k < |terms| ==> terms[k].Valid()
  }

  /** The inner loop of `RandomizePredicate` over the term classes: the
      first class that recognises the tag either fails with the error code
      or yields its cached term; `None` when no class recognises it. */
  method ResolveTerm(tag: string, terms: seq<TermClass>, rng: Rng, config: LanguageConfig)
    returns (r: Outcome<Option<string>>)
    requires AllValid(terms)
    modifies terms, rng
    ensures AllValid(terms)
    ensures Extends(old(Caches(terms)), Caches(terms))
    ensures var o := Recall(tag, Identifiers(terms), old(Caches(terms)), config.errorCode);
            o.Some? ==> r == o.value
    ensures r.Ok? ==> Recall(tag, Identifiers(terms), Caches(terms), config.errorCode) == Some(r)
    ensures var j := FirstHit(Identifiers(terms), tag, config.errorCode);
            && (j < 0 ==> r == Ok(None) && forall k :: 0 <= k < |terms| ==> terms[k].Cache == old(terms[k].Cache))
            && (j >= 0 && CheckReplace(terms[j].Identifier, tag, config.errorCode) == config.errorCode ==>
                  r == Thrown("IndexOutOfRangeException"))
            && (j >= 0 && r.Ok? ==>
                  var x := CheckReplace(terms[j].Identifier, tag, config.errorCode);
                  r.value.Some? && 0 <= x < |terms[j].Cache| && r.value.value == terms[j].Cache[x])
    ensures r.Ok? && r.value.Some? ==> InSomeBank(r.value.value, terms)
  {
    ghost var ids := Identifiers(terms);
    var i := 0;
    while i < |terms|
      invariant 0 <= i <= |terms|
      invariant forall k :: 0 <= k < i ==>
                  var x := CheckReplace(terms[k].Identifier, tag, config.errorCode);
                  x != config.errorCode && x < 0
      invariant forall k :: 0 <= k < |terms| ==> terms[k].Cache == old(terms[k].Cache)
    {
      var term := terms[i];
      var index := CheckReplace(term.Identifier, tag, config.errorCode);
      if index == config.errorCode {
        FirstHitIs(ids, tag, config.errorCode, i);
        return Thrown("IndexOutOfRangeException");
      }
      if index >= 0 {
        FirstHitIs(ids, tag, config.errorCode, i);
        var drawn := DrawAt(terms, i, index, rng, config.aversion);
        match drawn {
          case Ok(t) => r := Ok(Some(t));
          case Thrown(e) => r := Thrown(e);
          case Hangs => r := Hangs;
        }
        return;
      }
      i := i + 1;
    }
    FirstHitIs(ids, tag, config.errorCode, -1);
    r := Ok(None);
  }

  /** `GetOrGenerateCached` on the `i`-th class: every cache keeps its
      entries, and a term handed out is the `index`-th of the `i`-th cache. */
  method DrawAt(terms: seq<TermClass>, i: nat, index: nat, rng: Rng, aversion: nat) returns (r: Outcome<string>)
    requires AllValid(terms) && i < |terms|
    modifies terms[i], rng
    ensures AllValid(terms)
    ensures Extends(old(Caches(terms)), Caches(terms))
    ensures index < |old(terms[i].Cache)| ==> r == Ok(old(terms[i].Cache)[index])
    ensures r.Ok? ==> index < |terms[i].Cache| && r.value == terms[i].Cache[index] && r.value in terms[i].Bank
  {
    ghost var before := Caches(terms);
    var term := terms[i];
    r := term.GetOrGenerateCached(index, rng, aversion);
    forall k | 0 <= k < |terms|
      ensures |before[k]| <= |terms[k].Cache| && terms[k].Cache[..|before[k]|] == before[k]
    {
      if terms[k] != term {
        assert terms[k].Cache == before[k];
      }
    }
  }

  /** `FirstHit` is the index the scan stopped at. */
  lemma {:induction false} FirstHitIs(ids: seq<string>, tag: string, errorCode: int, j: int)
    requires -1 <= j < |ids|
    requires forall k :: 0 <= k < |ids| && (j < 0 || k < j) ==>
               var x := CheckReplace(ids[k], tag, errorCode);
               x != errorCode && x < 0
    requires j >= 0 ==> var x := CheckReplace(ids[j], tag, errorCode);
                        x == errorCode || x >= 0
    ensures FirstHit(ids, tag, errorCode) == j
  {
    var f := FirstHit(ids, tag, errorCode);
    if f >= 0 && (j < 0 || f < j) {
      assert false;
    }
  }

  // ===========================================================================
  // The predicate randomiser
  // ===========================================================================

  /** `prefix` in front of a rendered text; failures pass through. */
  function Prefixed(prefix: string, rest: Outcome<string>): (r: Outcome<string>)
    ensures r.Ok? <==> rest.Ok?
    ensures r.Ok? ==> r.value == prefix + rest.value
    ensures !r.Ok? ==> r == rest
  {
    if rest.Ok? then Ok(prefix + rest.value) else rest
  }

  lemma PrefixedNothing(o: Outcome<string>)
    ensures Prefixed("", o) == o
  {
    if o.Ok? {
      assert "" + o.value == o.value;
    }
  }

  lemma PrefixedTwice(a: string, b: string, o: Outcome<string>)
    ensures Prefixed(a, Prefixed(b, o)) == Prefixed(a + b, o)
  {
    if o.Ok? {
      assert a + (b + o.value) == (a + b) + o.value;
    }
  }

  /** The next tag of a text: none, a start indicator with no end
      indicator, an end indicator before the start indicator, or the text
      before the first start indicator, the tag up to the first end
      indicator, and what follows it. */
  datatype Scan = Literal | Unclosed | Reversed | Tagged(literal: string, tag: string, next: string)

  function NextTag(text: string, config: LanguageConfig): (s: Scan)
    ensures s.Tagged? ==> |s.next| < |text|
  {
    var insert := IndexOf(text, config.startIndicator);
    if insert < 0 then Literal
    else
      var end := IndexOf(text, config.endIndicator);
      if end < 0 then Unclosed
      else if end < insert + 1 then Reversed
      else Tagged(text[..insert], text[insert + 1..end], text[end + 1..])
  }

  /** Which scan a text gets is decided by whether, and in which order, it
      holds the two indicators. */
  lemma NextTagKind(text: string, config: LanguageConfig)
    ensures var s := NextTag(text, config);
            && (s == Literal <==> !ContainsChar(text, config.startIndicator))
            && (s == Unclosed <==>
                  ContainsChar(text, config.startIndicator) && !ContainsChar(text, config.endIndicator))
            && (s == Reversed <==>
                  && ContainsChar(text, config.startIndicator) && ContainsChar(text, config.endIndicator)
                  && IndexOf(text, config.endIndicator) <= IndexOf(text, config.startIndicator))
  {
    IndexOfMissing(text, config.startIndicator);
    IndexOfMissing(text, config.endIndicator);
  }

  /** A tag splits the text around the first start indicator and the first
      end indicator. */
  lemma NextTagSplits(text: string, config: LanguageConfig)
    requires NextTag(text, config).Tagged?
    ensures var s := NextTag(text, config);
            && text == s.literal + [config.startIndicator] + s.tag + [config.endIndicator] + s.next
            && !ContainsChar(s.literal, config.startIndicator)
            && !ContainsChar(s.literal + [config.startIndicator] + s.tag, config.endIndicator)
  {
    var s := NextTag(text, config);
    var insert := IndexOf(text, config.startIndicator);
    var end := IndexOf(text, config.endIndicator);
    assert text == text[..insert] + [text[insert]] + text[insert + 1..end] + [text[end]] + text[end + 1..];
    assert s.literal + [config.startIndicator] + s.tag == text[..end];
  }

  /** The tags of `text` that name a term rather than set a modifier, in
      order, up to the first malformed tag. */
  function TermTags(text: string, config: LanguageConfig): (tags: seq<string>)
    ensures forall k :: 0 <= k < |tags| ==> ApplyModifier(tags[k], NoModifiers).None?
    decreases |text|
  {
    match NextTag(text, config)
    case Tagged(_, tag, next) =>
      if ApplyModifier(tag, NoModifiers).Some? then TermTags(next, config) else [tag] + TermTags(next, config)
    case _ => []
  }

  /** The identifiers of the banks, in order. */
  function BankIds(banks: seq<(string, seq<string>)>): (ids: seq<string>)
    ensures |ids| == |banks| && forall b :: 0 <= b < |banks| ==> ids[b] == banks[b].0
  {
    seq(|banks|, b requires 0 <= b < |banks| => banks[b].0)
  }

  /** What a term tag contributes given the outcome of resolving it: the
      decorated term and the modifiers left pending, or the failure. */
  function TermPiece(pick: Outcome<Option<string>>, mods: Modifiers, config: LanguageConfig)
    : (r: Outcome<(string, Modifiers)>)
    ensures pick.Ok? && pick.value.None? ==> r == Ok(("", mods))
    ensures r.Ok? && pick.Ok? && pick.value.Some? ==> r.value.1 == NoModifiers
    ensures !pick.Ok? ==> !r.Ok?
  {
    if !pick.Ok? then Fail(pick)
    else if pick.value.None? then Ok(("", mods))
    else
      var decorated := Decorate(pick.value.value, mods, config.irregularPlurals);
      if decorated.Ok? then Ok((decorated.value, NoModifiers)) else Fail(decorated)
  }

  /** What `RandomizePredicate` produces from `text` with the modifiers
      `mods` pending, given the outcomes `picks` of resolving its term tags
      in order (`None`: no class recognised the tag). A term tag beyond the
      given picks counts as unrecognised. */
  function Render(text: string, config: LanguageConfig, mods: Modifiers,
                  picks: seq<Outcome<Option<string>>>): (r: Outcome<string>)
    decreases |text|
  {
    match NextTag(text, config)
    case Literal => Ok(text)
    case Unclosed => Thrown("FormatException")
    case Reversed => Thrown("ArgumentOutOfRangeException")
    case Tagged(literal, tag, next) =>
      var modified := ApplyModifier(tag, mods);
      if modified.Some? then Prefixed(literal, Render(next, config, modified.value, picks))
      else if picks == [] then Prefixed(literal, Render(next, config, mods, picks))
      else
        var piece := TermPiece(picks[0], mods, config);
        if piece.Ok? then Prefixed(literal + piece.value.0, Render(next, config, piece.value.1, picks[1..]))
        else Fail(piece)
  }

  /** The randomiser, having consumed `template` up to `rest` with the term
      outcomes `picks`, has written `output` and has `mods` pending: however
      the later tags resolve, the whole rendering is `output` followed by
      the rendering of `rest`. */
  ghost predicate Consistent(template: string, config: LanguageConfig, picks: seq<Outcome<Option<string>>>,
                             output: string, rest: string, mods: Modifiers)
  {
    forall future :: Render(template, config, NoModifiers, picks + future) ==
                     Prefixed(output, Render(rest, config, mods, future))
  }

  lemma ConsistentStart(template: string, config: LanguageConfig)
    ensures Consistent(template, config, [], "", template, NoModifiers)
  {
    forall future ensures Render(template, config, NoModifiers, [] + future) ==
                          Prefixed("", Render(template, config, NoModifiers, future)) {
      assert [] + future == future;
      PrefixedNothing(Render(template, config, NoModifiers, future));
    }
  }

  /** Once nothing is left, the rendering is what was written. */
  lemma ConsistentEnd(template: string, config: LanguageConfig, picks: seq<Outcome<Option<string>>>,
                      output: string, mods: Modifiers)
    requires Consistent(template, config, picks, output, "", mods)
    ensures Render(template, config, NoModifiers, picks) == Ok(output)
  {
    assert picks + [] == picks;
    assert Render(template, config, NoModifiers, picks + []) == Prefixed(output, Render("", config, mods, []));
    assert output + "" == output;
  }

  /** A remainder with no well-formed tag ends the rendering. */
  lemma ConsistentLast(template: string, config: LanguageConfig, picks: seq<Outcome<Option<string>>>,
                       output: string, rest: string, mods: Modifiers)
    requires Consistent(template, config, picks, output, rest, mods)
    requires !NextTag(rest, config).Tagged?
    ensures Render(template, config, NoModifiers, picks) ==
              match NextTag(rest, config)
              case Literal => Ok(output + rest)
              case Unclosed => Thrown("FormatException")
              case _ => Thrown("ArgumentOutOfRangeException")
  {
    assert picks + [] == picks;
    assert Render(template, config, NoModifiers, picks + []) == Prefixed(output, Render(rest, config, mods, []));
  }

  /** A modifier tag moves its literal text to the output and updates the
      pending modifiers. */
  lemma ConsistentModifier(template: string, config: LanguageConfig, picks: seq<Outcome<Option<string>>>,
                           output: string, rest: string, mods: Modifiers, m: Modifiers)
    requires Consistent(template, config, picks, output, rest, mods)
    requires NextTag(rest, config).Tagged?
    requires ApplyModifier(NextTag(rest, config).tag, mods) == Some(m)
    ensures Consistent(template, config, picks, output + NextTag(rest, config).literal, NextTag(rest, config).next, m)
  {
    var scan := NextTag(rest, config);
    forall future ensures Render(template, config, NoModifiers, picks + future) ==
                          Prefixed(output + scan.literal, Render(scan.next, config, m, future)) {
      assert Render(rest, config, mods, future) == Prefixed(scan.literal, Render(scan.next, config, m, future));
      PrefixedTwice(output, scan.literal, Render(scan.next, config, m, future));
    }
  }

  /** A term tag whose outcome fails ends the rendering with that failure. */
  lemma ConsistentStop(template: string, config: LanguageConfig, picks: seq<Outcome<Option<string>>>,
                       output: string, rest: string, mods: Modifiers, found: Outcome<Option<string>>)
    requires Consistent(template, config, picks, output, rest, mods)
    requires NextTag(rest, config).Tagged? && ApplyModifier(NextTag(rest, config).tag, mods).None?
    requires !TermPiece(found, mods, config).Ok?
    ensures Render(template, config, NoModifiers, picks + [found]) == Fail(TermPiece(found, mods, config))
  {
    var f := [found];
    assert Render(template, config, NoModifiers, picks + f) == Prefixed(output, Render(rest, config, mods, f));
    RenderTermFails(rest, config, mods, f);
  }

  /** A term tag whose outcome fails renders as that failure. */
  lemma RenderTermFails(rest: string, config: LanguageConfig, mods: Modifiers,
                        picks: seq<Outcome<Option<string>>>)
    requires NextTag(rest, config).Tagged? && ApplyModifier(NextTag(rest, config).tag, mods).None?
    requires picks != [] && !TermPiece(picks[0], mods, config).Ok?
    ensures Render(rest, config, mods, picks) == Fail(TermPiece(picks[0], mods, config))
  {
  }

  /** A term tag whose outcome succeeds moves the literal text and the
      decorated term to the output. */
  lemma ConsistentTerm(template: string, config: LanguageConfig, picks: seq<Outcome<Option<string>>>,
                       output: string, rest: string, mods: Modifiers, found: Outcome<Option<string>>)
    requires Consistent(template, config, picks, output, rest, mods)
    requires NextTag(rest, config).Tagged? && ApplyModifier(NextTag(rest, config).tag, mods).None?
    requires TermPiece(found, mods, config).Ok?
    ensures var scan := NextTag(rest, config);
            var piece := TermPiece(found, mods, config).value;
            Consistent(template, config, picks + [found], output + scan.literal + piece.0, scan.next, piece.1)
  {
    var scan := NextTag(rest, config);
    var piece := TermPiece(found, mods, config).value;
    forall future ensures Render(template, config, NoModifiers, picks + [found] + future) ==
                          Prefixed(output + scan.literal + piece.0, Render(scan.next, config, piece.1, future)) {
      var f := [found] + future;
      assert picks + [found] + future == picks + f;
      assert Render(template, config, NoModifiers, picks + f) == Prefixed(output, Render(rest, config, mods, f));
      assert f[0] == found && f[1..] == future;
      TermStep(output, rest, config, mods, f);
    }
  }

  /** Unfolding the rendering of a remainder that starts with a term tag. */
  lemma TermStep(output: string, rest: string, config: LanguageConfig, mods: Modifiers,
                 picks: seq<Outcome<Option<string>>>)
    requires NextTag(rest, config).Tagged? && ApplyModifier(NextTag(rest, config).tag, mods).None?
    requires picks != [] && TermPiece(picks[0], mods, config).Ok?
    ensures var scan := NextTag(rest, config);
            var piece := TermPiece(picks[0], mods, config).value;
            Prefixed(output, Render(rest, config, mods, picks)) ==
            Prefixed(output + scan.literal + piece.0, Render(scan.next, config, piece.1, picks[1..]))
  {
    var scan := NextTag(rest, config);
    var piece := TermPiece(picks[0], mods, config).value;
    RenderTermTag(rest, config, mods, picks);
    PrefixedPiece(output, scan.literal, piece.0, Render(rest, config, mods, picks),
                  Render(scan.next, config, piece.1, picks[1..]));
  }

  /** Text written before a rendering that starts with `literal + piece`. */
  lemma PrefixedPiece(output: string, literal: string, piece: string, rendered: Outcome<string>,
                      tail: Outcome<string>)
    requires rendered == Prefixed(literal + piece, tail)
    ensures Prefixed(output, rendered) == Prefixed(output + literal + piece, tail)
  {
    PrefixedTwice(output, literal + piece, tail);
    assert output + (literal + piece) == output + literal + piece;
  }

  /** A term tag that resolves renders as the text before it and the
      decorated term, followed by the rendering of the rest. */
  lemma RenderTermTag(rest: string, config: LanguageConfig, mods: Modifiers,
                      picks: seq<Outcome<Option<string>>>)
    requires NextTag(rest, config).Tagged? && ApplyModifier(NextTag(rest, config).tag, mods).None?
    requires picks != [] && TermPiece(picks[0], mods, config).Ok?
    ensures var scan := NextTag(rest, config);
            var piece := TermPiece(picks[0], mods, config).value;
            Render(rest, config, mods, picks) ==
            Prefixed(scan.literal + piece.0, Render(scan.next, config, piece.1, picks[1..]))
  {
  }

  /** The term branch of `RandomizePredicate`: the tag is resolved against
      the term classes and a recognised term is decorated with the pending
      modifiers, which are then cleared. */
  method ResolveAndDecorate(tag: string, terms: seq<TermClass>, rng: Rng, config: LanguageConfig,
                            mods: Modifiers)
    returns (piece: Outcome<(string, Modifiers)>, ghost found: Outcome<Option<string>>)
    requires AllValid(terms)
    modifies terms, rng
    ensures AllValid(terms)
    ensures Extends(old(Caches(terms)), Caches(terms))
    ensures var o := Recall(tag, Identifiers(terms), old(Caches(terms)), config.errorCode);
            o.Some? ==> found == o.value
    ensures found.Ok? ==> Recall(tag, Identifiers(terms), Caches(terms), config.errorCode) == Some(found)
    ensures piece == TermPiece(found, mods, config)
    ensures found.Ok? && found.value.Some? ==> InSomeBank(found.value.value, terms)
  {
    var resolved := ResolveTerm(tag, terms, rng, config);
    found := resolved;
    if !resolved.Ok? {
      return Fail(resolved), found;
    }
    if resolved.value.None? {
      return Ok(("", mods)), found;
    }
    var decorated := Decorate(resolved.value.value, mods, config.irregularPlurals);
    if !decorated.Ok? {
      return Fail(decorated), found;
    }
    piece := Ok((decorated.value, NoModifiers));
  }

  /** A run of the randomiser so far: `picks[k]` is the outcome of
      resolving the term tag `tags[k]` and `caches[k]` the caches of the
      classes (one per bank) just before it. */
  ghost predicate Resolved(tags: seq<string>, ids: seq<string>, banks: seq<(string, seq<string>)>,
                           picks: seq<Outcome<Option<string>>>, caches: seq<seq<seq<string>>>, errorCode: int)
  {
    && |tags| == |picks| == |caches| && |ids| == |banks|
    // the caches start empty, only grow, and hold terms of their own bank
    && (forall k :: 0 <= k < |caches| ==> |caches[k]| == |banks|)
    && (|caches| > 0 ==> forall b :: 0 <= b < |banks| ==> caches[0][b] == [])
    && (forall k1, k2 :: 0 <= k1 < k2 < |caches| ==> Extends(caches[k1], caches[k2]))
    && (forall k, b, m :: 0 <= k < |caches| && 0 <= b < |banks| && 0 <= m < |caches[k][b]| ==>
          caches[k][b][m] in banks[b].1)
    // each outcome is what the caches before it decide, whenever they do
    && (forall k :: 0 <= k < |picks| ==>
          var o := Recall(tags[k], ids, caches[k], errorCode);
          o.Some? ==> picks[k] == o.value)
    // a tag naming the same term as an earlier resolved tag gets its outcome
    && (forall k1, k2 :: 0 <= k1 < k2 < |picks| && picks[k1].Ok? && SameTerm(tags[k1], tags[k2], ids, errorCode) ==>
          picks[k2] == picks[k1])
  }

  /** The caches `now` come after the run: they are empty before the first
      term, extend the last caches, hold terms of their own bank, and decide
      every resolved tag as it was resolved. */
  ghost predicate Current(tags: seq<string>, ids: seq<string>, banks: seq<(string, seq<string>)>,
                          picks: seq<Outcome<Option<string>>>, caches: seq<seq<seq<string>>>,
                          now: seq<seq<string>>, errorCode: int)
  {
    && |now| == |banks| == |ids| && |tags| == |picks| == |caches|
    && (|caches| == 0 ==> forall b :: 0 <= b < |banks| ==> now[b] == [])
    && (forall k :: 0 <= k < |caches| ==> Extends(caches[k], now))
    && (forall b, m :: 0 <= b < |banks| && 0 <= m < |now[b]| ==> now[b][m] in banks[b].1)
    && (forall k :: 0 <= k < |picks| && picks[k].Ok? ==> Recall(tags[k], ids, now, errorCode) == Some(picks[k]))
  }

  /** Resolving one more tag on the caches `now`, which become `after`,
      extends the run. */
  lemma ResolvedStep(tags: seq<string>, ids: seq<string>, banks: seq<(string, seq<string>)>,
                     picks: seq<Outcome<Option<string>>>, caches: seq<seq<seq<string>>>,
                     now: seq<seq<string>>, errorCode: int,
                     tag: string, found: Outcome<Option<string>>, after: seq<seq<string>>)
    requires Resolved(tags, ids, banks, picks, caches, errorCode)
    requires Current(tags, ids, banks, picks, caches, now, errorCode)
    requires Extends(now, after)
    requires forall b, m :: 0 <= b < |banks| && 0 <= m < |after[b]| ==> after[b][m] in banks[b].1
    requires var o := Recall(tag, ids, now, errorCode); o.Some? ==> found == o.value
    requires found.Ok? ==> Recall(tag, ids, after, errorCode) == Some(found)
    ensures Resolved(tags + [tag], ids, banks, picks + [found], caches + [now], errorCode)
    ensures Current(tags + [tag], ids, banks, picks + [found], caches + [now], after, errorCode)
  {
    StepHistory(tags, ids, banks, picks, caches, now, errorCode, tag, found);
    StepCurrent(tags, ids, banks, picks, caches, now, errorCode, tag, found, after);
  }

  lemma StepHistory(tags: seq<string>, ids: seq<string>, banks: seq<(string, seq<string>)>,
                    picks: seq<Outcome<Option<string>>>, caches: seq<seq<seq<string>>>,
                    now: seq<seq<string>>, errorCode: int,
                    tag: string, found: Outcome<Option<string>>)
    requires Resolved(tags, ids, banks, picks, caches, errorCode)
    requires Current(tags, ids, banks, picks, caches, now, errorCode)
    requires var o := Recall(tag, ids, now, errorCode); o.Some? ==> found == o.value
    ensures Resolved(tags + [tag], ids, banks, picks + [found], caches + [now], errorCode)
  {
    var tags', picks', caches' := tags + [tag], picks + [found], caches + [now];
    assert forall k :: 0 <= k < |caches| ==> caches'[k] == caches[k];
    assert forall k :: 0 <= k < |picks| ==> picks'[k] == picks[k] && tags'[k] == tags[k];
    StepMemo(tags, ids, picks, now, errorCode, tag, found);
  }

  /** A tag naming the same term as an earlier resolved tag is decided by
      the caches it is resolved on. */
  lemma StepMemo(tags: seq<string>, ids: seq<string>, picks: seq<Outcome<Option<string>>>,
                 now: seq<seq<string>>, errorCode: int, tag: string, found: Outcome<Option<string>>)
    requires |tags| == |picks| && |ids| == |now|
    requires forall k1, k2 :: 0 <= k1 < k2 < |picks| && picks[k1].Ok? && SameTerm(tags[k1], tags[k2], ids, errorCode) ==>
               picks[k2] == picks[k1]
    requires forall k :: 0 <= k < |picks| && picks[k].Ok? ==> Recall(tags[k], ids, now, errorCode) == Some(picks[k])
    requires var o := Recall(tag, ids, now, errorCode); o.Some? ==> found == o.value
    ensures var tags', picks' := tags + [tag], picks + [found];
            forall k1, k2 :: 0 <= k1 < k2 < |picks'| && picks'[k1].Ok? && SameTerm(tags'[k1], tags'[k2], ids, errorCode) ==>
              picks'[k2] == picks'[k1]
  {
    var tags', picks' := tags + [tag], picks + [found];
    assert Extends(now, now);
    forall k1, k2 | 0 <= k1 < k2 < |picks'| && picks'[k1].Ok? && SameTerm(tags'[k1], tags'[k2], ids, errorCode)
      ensures picks'[k2] == picks'[k1]
    {
      if k2 == |picks| {
        RecallKeeps(tags[k1], tag, ids, now, now, errorCode);
      } else {
        assert tags'[k1] == tags[k1] && tags'[k2] == tags[k2];
      }
    }
  }

  lemma StepCurrent(tags: seq<string>, ids: seq<string>, banks: seq<(string, seq<string>)>,
                    picks: seq<Outcome<Option<string>>>, caches: seq<seq<seq<string>>>,
                    now: seq<seq<string>>, errorCode: int,
                    tag: string, found: Outcome<Option<string>>, after: seq<seq<string>>)
    requires Current(tags, ids, banks, picks, caches, now, errorCode)
    requires Extends(now, after)
    requires forall b, m :: 0 <= b < |banks| && 0 <= m < |after[b]| ==> after[b][m] in banks[b].1
    requires found.Ok? ==> Recall(tag, ids, after, errorCode) == Some(found)
    ensures Current(tags + [tag], ids, banks, picks + [found], caches + [now], after, errorCode)
  {
    var tags', picks', caches' := tags + [tag], picks + [found], caches + [now];
    forall k | 0 <= k < |caches'|
      ensures Extends(caches'[k], after)
    {
      if k < |caches| {
        ExtendsTrans(caches[k], now, after);
      }
    }
    forall k | 0 <= k < |picks'| && picks'[k].Ok?
      ensures Recall(tags'[k], ids, after, errorCode) == Some(picks'[k])
    {
      if k < |picks| {
        RecallKeeps(tags[k], tags[k], ids, now, after, errorCode);
      }
    }
  }

  /** The caches of term classes made from the banks hold terms of their
      own bank. */
  lemma CachesInBanks(terms: seq<TermClass>, banks: seq<(string, seq<string>)>)
    requires AllValid(terms) && |terms| == |banks|
    requires forall k :: 0 <= k < |terms| ==> terms[k].Bank == banks[k].1
    ensures forall b, m :: 0 <= b < |banks| && 0 <= m < |Caches(terms)[b]| ==> Caches(terms)[b][m] in banks[b].1
  {
    forall b, m | 0 <= b < |banks| && 0 <= m < |Caches(terms)[b]|
      ensures Caches(terms)[b][m] in banks[b].1
    {
      assert terms[b].Valid();
    }
  }

  /** The term branch of `RandomizePredicate` on the classes made from the
      banks, extending the run by the tag it resolves. */
  method ResolveNext(tag: string, terms: seq<TermClass>, rng: Rng, config: LanguageConfig, mods: Modifiers,
                     banks: seq<(string, seq<string>)>, ghost tags: seq<string>,
                     ghost picks: seq<Outcome<Option<string>>>, ghost caches: seq<seq<seq<string>>>)
    returns (piece: Outcome<(string, Modifiers)>, ghost found: Outcome<Option<string>>, ghost before: seq<seq<string>>)
    requires AllValid(terms) && |terms| == |banks|
    requires forall k :: 0 <= k < |terms| ==> terms[k].Bank == banks[k].1
    requires Resolved(tags, Identifiers(terms), banks, picks, caches, config.errorCode)
    requires Current(tags, Identifiers(terms), banks, picks, caches, Caches(terms), config.errorCode)
    modifies terms, rng
    ensures AllValid(terms) && before == old(Caches(terms))
    ensures piece == TermPiece(found, mods, config)
    ensures found.Ok? && found.value.Some? ==> exists b :: 0 <= b < |banks| && found.value.value in banks[b].1
    ensures Resolved(tags + [tag], Identifiers(terms), banks, picks + [found], caches + [before], config.errorCode)
    ensures Current(tags + [tag], Identifiers(terms), banks, picks + [found], caches + [before], Caches(terms),
                    config.errorCode)
  {
    before := Caches(terms);
    piece, found := ResolveAndDecorate(tag, terms, rng, config, mods);
    CachesInBanks(terms, banks);
    ResolvedStep(tags, Identifiers(terms), banks, picks, caches, before, config.errorCode, tag, found, Caches(terms));
  }

  /** A run whose every outcome is a success met no invalid index. */
  lemma AllResolvedValid(tags: seq<string>, ids: seq<string>, banks: seq<(string, seq<string>)>,
                         picks: seq<Outcome<Option<string>>>, caches: seq<seq<seq<string>>>, errorCode: int)
    requires Resolved(tags, ids, banks, picks, caches, errorCode)
    requires forall k :: 0 <= k < |picks| ==> picks[k].Ok?
    ensures forall k :: 0 <= k < |tags| ==> !BadIndex(tags[k], ids, errorCode)
  {
    forall k | 0 <= k < |tags|
      ensures !BadIndex(tags[k], ids, errorCode)
    {
    }
  }

  /** One new term class per bank, in bank order, each with an empty cache. */
  method NewTerms(banks: seq<(string, seq<string>)>) returns (terms: seq<TermClass>)
    ensures |terms| == |banks| && AllValid(terms) && Identifiers(terms) == BankIds(banks)
    ensures forall k :: 0 <= k < |terms| ==> fresh(terms[k]) && terms[k].Bank == banks[k].1
    ensures Caches(terms) == seq(|banks|, b => [])
  {
    terms := [];
    for b := 0 to |banks|
      invariant |terms| == b
      invariant forall k :: 0 <= k < b ==> fresh(terms[k])
      invariant forall k :: 0 <= k < b ==>
                  terms[k].Bank == banks[k].1 && terms[k].Identifier == banks[k].0 && terms[k].Cache == []
      invariant AllValid(terms)
    {
      var term := new TermClass(banks[b].0, banks[b].1);
      terms := terms + [term];
    }
  }

  /** Every term handed out so far comes from a bank. */
  lemma PicksInBanks(tags: seq<string>, ids: seq<string>, banks: seq<(string, seq<string>)>,
                     picks: seq<Outcome<Option<string>>>, caches: seq<seq<seq<string>>>,
                     now: seq<seq<string>>, errorCode: int)
    requires Current(tags, ids, banks, picks, caches, now, errorCode)
    ensures forall k :: 0 <= k < |picks| && picks[k].Ok? && picks[k].value.Some? ==>
              exists b :: 0 <= b < |banks| && picks[k].value.value in banks[b].1
  {
    forall k | 0 <= k < |picks| && picks[k].Ok? && picks[k].value.Some?
      ensures exists b :: 0 <= b < |banks| && picks[k].value.value in banks[b].1
    {
      var j := FirstHit(ids, tags[k], errorCode);
      var x := CheckReplace(ids[j], tags[k], errorCode);
      assert now[j][x] in banks[j].1;
    }
  }

  /** The randomiser, with `rest` of `template` left, has resolved the term
      tags `seen` before it as the run `picks`, `caches`, and the classes
      now hold `now`. */
  ghost predicate Ledger(template: string, config: LanguageConfig, banks: seq<(string, seq<string>)>,
                         ids: seq<string>, seen: seq<string>, picks: seq<Outcome<Option<string>>>,
                         caches: seq<seq<seq<string>>>, now: seq<seq<string>>, rest: string)
  {
    && seen + TermTags(rest, config) == TermTags(template, config)
    && Resolved(seen, ids, banks, picks, caches, config.errorCode)
    && Current(seen, ids, banks, picks, caches, now, config.errorCode)
  }

  lemma LedgerStart(template: string, config: LanguageConfig, banks: seq<(string, seq<string>)>,
                    ids: seq<string>, now: seq<seq<string>>)
    requires |ids| == |banks| && now == seq(|banks|, b => [])
    ensures Ledger(template, config, banks, ids, [], [], [], now, template)
  {
  }

  /** A modifier tag leaves the run as it is. */
  lemma LedgerModifier(template: string, config: LanguageConfig, banks: seq<(string, seq<string>)>,
                       ids: seq<string>, seen: seq<string>, picks: seq<Outcome<Option<string>>>,
                       caches: seq<seq<seq<string>>>, now: seq<seq<string>>, rest: string)
    requires Ledger(template, config, banks, ids, seen, picks, caches, now, rest)
    requires NextTag(rest, config).Tagged? && ApplyModifier(NextTag(rest, config).tag, NoModifiers).Some?
    ensures Ledger(template, config, banks, ids, seen, picks, caches, now, NextTag(rest, config).next)
  {
  }

  /** A term tag adds its outcome to the run. */
  lemma LedgerTerm(template: string, config: LanguageConfig, banks: seq<(string, seq<string>)>,
                   ids: seq<string>, seen: seq<string>, picks: seq<Outcome<Option<string>>>,
                   caches: seq<seq<seq<string>>>, now: seq<seq<string>>, rest: string,
                   tag: string, next: string, found: Outcome<Option<string>>, after: seq<seq<string>>)
    requires Ledger(template, config, banks, ids, seen, picks, caches, now, rest)
    requires NextTag(rest, config).Tagged? && NextTag(rest, config).tag == tag && NextTag(rest, config).next == next
    requires ApplyModifier(tag, NoModifiers).None?
    requires Resolved(seen + [tag], ids, banks, picks + [found], caches + [now], config.errorCode)
    requires Current(seen + [tag], ids, banks, picks + [found], caches + [now], after, config.errorCode)
    ensures Ledger(template, config, banks, ids, seen + [tag], picks + [found], caches + [now], after, next)
  {
    assert TermTags(rest, config) == [tag] + TermTags(next, config);
    AppendAssoc(seen, [tag], TermTags(next, config));
  }

  /** What a run has established about the whole template. */
  lemma LedgerFinish(template: string, config: LanguageConfig, banks: seq<(string, seq<string>)>,
                     ids: seq<string>, seen: seq<string>, picks: seq<Outcome<Option<string>>>,
                     caches: seq<seq<seq<string>>>, now: seq<seq<string>>, rest: string)
    requires Ledger(template, config, banks, ids, seen, picks, caches, now, rest)
    ensures forall k :: 0 <= k < |picks| && picks[k].Ok? && picks[k].value.Some? ==>
              exists b :: 0 <= b < |banks| && picks[k].value.value in banks[b].1
    ensures |picks| <= |TermTags(template, config)|
    ensures Resolved(TermTags(template, config)[..|picks|], ids, banks, picks, caches, config.errorCode)
    ensures TermTags(rest, config) == [] && (forall k :: 0 <= k < |picks| ==> picks[k].Ok?) ==>
              && |picks| == |TermTags(template, config)|
              && forall k :: 0 <= k < |TermTags(template, config)| ==>
                   !BadIndex(TermTags(template, config)[k], ids, config.errorCode)
  {
    assert seen == TermTags(template, config)[..|picks|];
    PicksInBanks(seen, ids, banks, picks, caches, now, config.errorCode);
    if TermTags(rest, config) == [] && (forall k :: 0 <= k < |picks| ==> picks[k].Ok?) {
      assert seen == TermTags(template, config);
      AllResolvedValid(seen, ids, banks, picks, caches, config.errorCode);
    }
  }

  /** What `RandomizePredicate` promises about its result `r`, the outcomes
      `picks` of the term tags it resolved and the caches before each. */
  ghost predicate Finished(template: string, config: LanguageConfig, banks: seq<(string, seq<string>)>,
                           ids: seq<string>, r: Outcome<string>, picks: seq<Outcome<Option<string>>>,
                           caches: seq<seq<seq<string>>>)
  {
    // the result is the template rendered with those outcomes
    && r == Render(template, config, NoModifiers, picks)
    // every term handed out comes from a bank
    && (forall k :: 0 <= k < |picks| && picks[k].Ok? && picks[k].value.Some? ==>
          exists b :: 0 <= b < |banks| && picks[k].value.value in banks[b].1)
    // the term tags are resolved in order, each as its caches decide, and a
    // tag naming the same term as an earlier one gets the same outcome
    && |picks| <= |TermTags(template, config)|
    && Resolved(TermTags(template, config)[..|picks|], ids, banks, picks, caches, config.errorCode)
    // a text results only when every term tag resolved, each with a valid index
    && (r.Ok? ==> |picks| == |TermTags(template, config)| && forall k :: 0 <= k < |picks| ==> picks[k].Ok?)
    && (r.Ok? ==> forall k :: 0 <= k < |TermTags(template, config)| ==>
          !BadIndex(TermTags(template, config)[k], ids, config.errorCode))
  }

  /** A run that stops with `r`, the rendering of the template for its
      outcomes, has finished. */
  lemma Finish(template: string, config: LanguageConfig, banks: seq<(string, seq<string>)>,
               ids: seq<string>, seen: seq<string>, picks: seq<Outcome<Option<string>>>,
               caches: seq<seq<seq<string>>>, now: seq<seq<string>>, rest: string, r: Outcome<string>)
    requires Ledger(template, config, banks, ids, seen, picks, caches, now, rest)
    requires r == Render(template, config, NoModifiers, picks)
    requires r.Ok? ==> TermTags(rest, config) == [] && forall k :: 0 <= k < |picks| ==> picks[k].Ok?
    ensures Finished(template, config, banks, ids, r, picks, caches)
  {
    LedgerFinish(template, config, banks, ids, seen, picks, caches, now, rest);
  }

  /** One round of `RandomizePredicate` on what is left of the predicate:
      the result when no well-formed tag is left or a term fails, otherwise
      the text written, the remainder and the pending modifiers after the
      next tag. */
  method Round(template: string, config: LanguageConfig, banks: seq<(string, seq<string>)>,
               terms: seq<TermClass>, rng: Rng, ghost ids: seq<string>,
               output: string, rest: string, mods: Modifiers,
               ghost seen: seq<string>, ghost picks: seq<Outcome<Option<string>>>,
               ghost caches: seq<seq<seq<string>>>)
    returns (done: bool, r: Outcome<string>, output': string, rest': string, mods': Modifiers,
             ghost seen': seq<string>, ghost picks': seq<Outcome<Option<string>>>,
             ghost caches': seq<seq<seq<string>>>)
    requires |rest| > 0 && |terms| == |banks|
    requires AllValid(terms) && Identifiers(terms) == ids
    requires forall k :: 0 <= k < |terms| ==> terms[k].Bank == banks[k].1
    requires Consistent(template, config, picks, output, rest, mods)
    requires forall k :: 0 <= k < |picks| ==> picks[k].Ok?
    requires Ledger(template, config, banks, ids, seen, picks, caches, Caches(terms), rest)
    modifies terms, rng
    ensures AllValid(terms)
    ensures !done ==>
              && |rest'| < |rest|
              && Consistent(template, config, picks', output', rest', mods')
              && (forall k :: 0 <= k < |picks'| ==> picks'[k].Ok?)
              && Ledger(template, config, banks, ids, seen', picks', caches', Caches(terms), rest')
    ensures done ==> Finished(template, config, banks, ids, r, picks', caches')
  {
    done, r, output', rest', mods', seen', picks', caches' := true, Ok(""), output, rest, mods, seen, picks, caches;
    var insert := IndexOf(rest, config.startIndicator);
    if insert == -1 {
      ConsistentLast(template, config, picks, output, rest, mods);
      r := Ok(output + rest);
      Finish(template, config, banks, ids, seen, picks, caches, Caches(terms), rest, r);
      return;
    }
    var end := IndexOf(rest, config.endIndicator);
    if end == -1 {
      ConsistentLast(template, config, picks, output, rest, mods);
      r := Thrown("FormatException");
      Finish(template, config, banks, ids, seen, picks, caches, Caches(terms), rest, r);
      return;
    }
    var literal := rest[..insert];
    if end < insert + 1 {
      ConsistentLast(template, config, picks, output, rest, mods);
      r := Thrown("ArgumentOutOfRangeException");
      Finish(template, config, banks, ids, seen, picks, caches, Caches(terms), rest, r);
      return;
    }
    var tag := rest[insert + 1..end];
    var next := rest[end + 1..];
    assert NextTag(rest, config) == Tagged(literal, tag, next);
    done, rest' := false, next;
    var modified := ApplyModifier(tag, mods);
    if modified.Some? {
      ConsistentModifier(template, config, picks, output, rest, mods, modified.value);
      LedgerModifier(template, config, banks, ids, seen, picks, caches, Caches(terms), rest);
      output' := output + literal;
      mods' := modified.value;
    } else {
      done, r, output', mods', seen', picks', caches' :=
        TermRound(template, config, banks, terms, rng, ids, output, rest, mods, seen, picks, caches, literal, tag, next);
    }
  }

  /** The round of a term tag: the tag is resolved and decorated, or the
      run stops with the failure. */
  method TermRound(template: string, config: LanguageConfig, banks: seq<(string, seq<string>)>,
                   terms: seq<TermClass>, rng: Rng, ghost ids: seq<string>,
                   output: string, rest: string, mods: Modifiers,
                   ghost seen: seq<string>, ghost picks: seq<Outcome<Option<string>>>,
                   ghost caches: seq<seq<seq<string>>>, literal: string, tag: string, next: string)
    returns (done: bool, r: Outcome<string>, output': string, mods': Modifiers,
             ghost seen': seq<string>, ghost picks': seq<Outcome<Option<string>>>,
             ghost caches': seq<seq<seq<string>>>)
    requires NextTag(rest, config) == Tagged(literal, tag, next) && ApplyModifier(tag, mods).None?
    requires |terms| == |banks| && AllValid(terms) && Identifiers(terms) == ids
    requires forall k :: 0 <= k < |terms| ==> terms[k].Bank == banks[k].1
    requires Consistent(template, config, picks, output, rest, mods)
    requires forall k :: 0 <= k < |picks| ==> picks[k].Ok?
    requires Ledger(template, config, banks, ids, seen, picks, caches, Caches(terms), rest)
    modifies terms, rng
    ensures AllValid(terms)
    ensures !done ==>
              && Consistent(template, config, picks', output', next, mods')
              && (forall k :: 0 <= k < |picks'| ==> picks'[k].Ok?)
              && Ledger(template, config, banks, ids, seen', picks', caches', Caches(terms), next)
    ensures done ==> Finished(template, config, banks, ids, r, picks', caches')
  {
    var piece, found, before := ResolveNext(tag, terms, rng, config, mods, banks, seen, picks, caches);
    LedgerTerm(template, config, banks, ids, seen, picks, caches, before, rest, tag, next, found, Caches(terms));
    seen', picks', caches' := seen + [tag], picks + [found], caches + [before];
    if !piece.Ok? {
      ConsistentStop(template, config, picks, output, rest, mods, found);
      done, r, output', mods' := true, Fail(piece), output, mods;
      Finish(template, config, banks, ids, seen', picks', caches', Caches(terms), next, r);
      return;
    }
    ConsistentTerm(template, config, picks, output, rest, mods, found);
    done, r := false, Ok("");
    output' := output + literal + piece.value.0;
    mods' := piece.value.1;
  }

  /** `RandomizePredicate`: one term class per bank, in bank order, each
      with an empty cache; then the predicate is consumed tag by tag. Text
      before a tag is copied, modifier tags set the pending modifiers, and a
      term tag recognised by a class is replaced by its decorated term,
      which clears the pending modifiers. `picks` are the outcomes of
      resolving the term tags in order, `caches` the caches of the classes
      just before each of them. */
  method RandomizePredicate(template: string, banks: seq<(string, seq<string>)>, rng: Rng,
                            config: LanguageConfig)
    returns (r: Outcome<string>, ghost picks: seq<Outcome<Option<string>>>,
             ghost caches: seq<seq<seq<string>>>)
    modifies rng
    ensures Finished(template, config, banks, BankIds(banks), r, picks, caches)
  {
    ghost var ids := BankIds(banks);
    var terms := NewTerms(banks);

    var output := "";
    var mods := NoModifiers;
    var rest := template;
    picks := [];
    caches := [];
    ghost var seen: seq<string> := [];
    ConsistentStart(template, config);
    LedgerStart(template, config, banks, ids, Caches(terms));
    while |rest| > 0
      invariant AllValid(terms) && Identifiers(terms) == ids
      invariant forall k :: 0 <= k < |terms| ==> fresh(terms[k])
      invariant forall k :: 0 <= k < |terms| ==> terms[k].Bank == banks[k].1
      invariant Consistent(template, config, picks, output, rest, mods)
      invariant forall k :: 0 <= k < |picks| ==> picks[k].Ok?
      invariant Ledger(template, config, banks, ids, seen, picks, caches, Caches(terms), rest)
      decreases |rest|
    {
      var done;
      done, r, output, rest, mods, seen, picks, caches :=
        Round(template, config, banks, terms, rng, ids, output, rest, mods, seen, picks, caches);
      if done {
        return;
      }
    }
    ConsistentEnd(template, config, picks, output, mods);
    r := Ok(output);
    Finish(template, config, banks, ids, seen, picks, caches, Caches(terms), rest, r);
  }
}
