/**
 * Extraction of links from a message (`GetHyperLinks` and `CheckForLinks`
 * in `LanguageHelper`). The text is padded with a space at each end and
 * scanned once: a space closes the current space-separated segment, and
 * every piece of the segment that starts after its opening space or a `(`
 * and ends before a `)` or the closing space is checked as a link. The
 * test itself, a regular expression, is a predicate passed in.
 */
module Hyperlinks {
  import opened Common

  /** Positions usable as the bounds of a piece of `p`. */
  predicate InRange(p: string, positions: seq<int>)
  {
    forall k :: 0 <= k < |positions| ==> 0 <= positions[k] < |p|
  }

  /** The pieces found between one opener and each of the first `m`
      closers after it, in the order of the closers. */
  function FoundFor(p: string, o: int, closers: seq<int>, m: nat, isLink: string -> bool): seq<string>
    requires 0 <= o < |p| && InRange(p, closers) && m <= |closers|
  {
    if m == 0 then []
    else
      var c := closers[m - 1];
      FoundFor(p, o, closers, m - 1, isLink)
      + (if c > o && isLink(p[o + 1..c]) then [p[o + 1..c]] else [])
  }

  /** What `CheckForLinks` returns for the first `n` openers: for each in
      order, the pieces it starts, in the order of the closers. */
  function Found(p: string, openers: seq<int>, n: nat, closers: seq<int>, isLink: string -> bool): seq<string>
    requires InRange(p, openers) && InRange(p, closers) && n <= |openers|
  {
    if n == 0 then []
    else Found(p, openers, n - 1, closers, isLink) + FoundFor(p, openers[n - 1], closers, |closers|, isLink)
  }

  /** A piece found for `o` is bounded by one of the first `m` closers,
      which comes after `o`, and is a link. */
  lemma {:induction false} FoundForWitness(p: string, o: int, closers: seq<int>, m: nat, isLink: string -> bool, s: string)
    returns (k: int)
    requires 0 <= o < |p| && InRange(p, closers) && m <= |closers|
    requires s in FoundFor(p, o, closers, m, isLink)
    ensures 0 <= k < m && o < closers[k] && s == p[o + 1..closers[k]] && isLink(s)
  {
    if s in FoundFor(p, o, closers, m - 1, isLink) {
      k := FoundForWitness(p, o, closers, m - 1, isLink, s);
    } else {
      k := m - 1;
    }
  }

  /** A closer after `o` that bounds a link makes it found for `o`. */
  lemma {:induction false} FoundForHas(p: string, o: int, closers: seq<int>, m: nat, isLink: string -> bool, k: int)
    requires 0 <= o < |p| && InRange(p, closers) && m <= |closers|
    requires 0 <= k < m && o < closers[k] && isLink(p[o + 1..closers[k]])
    ensures p[o + 1..closers[k]] in FoundFor(p, o, closers, m, isLink)
  {
    if k < m - 1 {
      FoundForHas(p, o, closers, m - 1, isLink, k);
    }
  }

  /** `s` is the link strictly between positions `o` and `c` of `p`. */
  predicate Piece(p: string, o: int, c: int, isLink: string -> bool, s: string)
    requires 0 <= o < |p| && 0 <= c < |p|
  {
    o < c && s == p[o + 1..c] && isLink(s)
  }

  /** A piece found among the first `n` openers is bounded by one of them
      and a closer after it, and is a link. */
  lemma {:induction false} FoundWitness(p: string, openers: seq<int>, n: nat, closers: seq<int>, isLink: string -> bool, s: string)
    returns (j: int, k: int)
    requires InRange(p, openers) && InRange(p, closers) && n <= |openers|
    requires s in Found(p, openers, n, closers, isLink)
    ensures 0 <= j < n && 0 <= k < |closers| && Piece(p, openers[j], closers[k], isLink, s)
  {
    FoundLast(p, openers, n, closers, isLink, s);
    if s in Found(p, openers, n - 1, closers, isLink) {
      j, k := FoundWitness(p, openers, n - 1, closers, isLink, s);
    } else {
      j, k := LastOpenerWitness(p, openers, n, closers, isLink, s);
    }
  }

  /** A piece found for the last of the first `n` openers is bounded by it
      and a closer after it, and is a link. */
  lemma LastOpenerWitness(p: string, openers: seq<int>, n: nat, closers: seq<int>, isLink: string -> bool, s: string)
    returns (j: int, k: int)
    requires InRange(p, openers) && InRange(p, closers) && 0 < n <= |openers|
    requires s in FoundFor(p, openers[n - 1], closers, |closers|, isLink)
    ensures 0 <= j < n && 0 <= k < |closers| && Piece(p, openers[j], closers[k], isLink, s)
  {
    j := n - 1;
    k := FoundForWitness(p, openers[n - 1], closers, |closers|, isLink, s);
  }

  /** A piece found among the first `n` openers is found among the first
      `n - 1` or for the last of them. */
  lemma FoundLast(p: string, openers: seq<int>, n: nat, closers: seq<int>, isLink: string -> bool, s: string)
    requires InRange(p, openers) && InRange(p, closers) && n <= |openers|
    requires s in Found(p, openers, n, closers, isLink)
    ensures n > 0
    ensures s in Found(p, openers, n - 1, closers, isLink)
            || s in FoundFor(p, openers[n - 1], closers, |closers|, isLink)
  {
  }

  /** An opener among the first `n` and a later closer that bound a link
      make it found. */
  lemma {:induction false} FoundHas(p: string, openers: seq<int>, n: nat, closers: seq<int>, isLink: string -> bool,
                                    j: int, k: int)
    requires InRange(p, openers) && InRange(p, closers) && n <= |openers|
    requires 0 <= j < n && 0 <= k < |closers| && openers[j] < closers[k]
    requires isLink(p[openers[j] + 1..closers[k]])
    ensures p[openers[j] + 1..closers[k]] in Found(p, openers, n, closers, isLink)
  {
    var earlier := Found(p, openers, n - 1, closers, isLink);
    var latest := FoundFor(p, openers[n - 1], closers, |closers|, isLink);
    assert Found(p, openers, n, closers, isLink) == earlier + latest;
    if j < n - 1 {
      FoundHas(p, openers, n - 1, closers, isLink, j, k);
    } else {
      FoundForHas(p, openers[j], closers, |closers|, isLink, k);
    }
  }

  /** The pieces one opener starts: the inner loop of `CheckForLinks`. */
  method LinksFrom(p: string, o: int, closers: seq<int>, isLink: string -> bool) returns (result: seq<string>)
    requires 0 <= o < |p| && InRange(p, closers)
    ensures result == FoundFor(p, o, closers, |closers|, isLink)
  {
    result := [];
    var b := 0;
    while b < |closers|
      invariant 0 <= b <= |closers|
      invariant result == FoundFor(p, o, closers, b, isLink)
    {
      var c := closers[b];
      if c > o {
        var s := p[o + 1..c];
        if isLink(s) {
          result := result + [s];
        }
      }
      b := b + 1;
    }
  }

  /** `CheckForLinks`: every opener against every closer after it. */
  method CheckForLinks(p: string, openers: seq<int>, closers: seq<int>, isLink: string -> bool)
    returns (result: seq<string>)
    requires InRange(p, openers) && InRange(p, closers)
    ensures result == Found(p, openers, |openers|, closers, isLink)
  {
    result := [];
    var a := 0;
    while a < |openers|
      invariant 0 <= a <= |openers|
      invariant result == Found(p, openers, a, closers, isLink)
    {
      var fromOpener := LinksFrom(p, openers[a], closers, isLink);
      result := result + fromOpener;
      a := a + 1;
    }
  }

  // ---------------------------------------------------------------------------
  // The scan
  // ---------------------------------------------------------------------------

  /** No space in `p[from..to]`. */
  predicate NoSpace(p: string, from: int, to: int)
  {
    forall k :: from <= k < to && 0 <= k < |p| ==> p[k] != ' '
  }

  /** `p[o + 1..c]` is a piece the scan tests: it starts after a space or a
      `(`, ends before a space or a `)`, and holds no space. */
  predicate LinkAt(p: string, o: int, c: int)
  {
    && 0 <= o < c < |p|
    && (p[o] == ' ' || p[o] == '(')
    && (p[c] == ' ' || p[c] == ')')
    && NoSpace(p, o + 1, c)
  }

  /** The pieces that are links, among those that end at or before `upTo`. */
  ghost predicate FoundBefore(p: string, isLink: string -> bool, upTo: int, s: string)
  {
    exists o, c :: LinkAt(p, o, c) && c <= upTo && s == p[o + 1..c] && isLink(s)
  }

  /** `GetHyperLinks`: the pieces of the padded text that are links, each
      free of spaces. */
  method GetHyperLinks(input: string, isLink: string -> bool) returns (matches: seq<string>)
    ensures var p := " " + input + " ";
            forall s :: s in matches <==> FoundBefore(p, isLink, |p| - 1, s)
    ensures forall s :: s in matches ==> isLink(s) && !ContainsChar(s, ' ')
  {
    var p := " " + input + " ";
    matches := [];
    var openers: seq<int> := [];
    var closers: seq<int> := [];
    ghost var last := -1;
    var i := 0;
    while i < |p|
      invariant 0 <= i <= |p|
      invariant i == 0 ==> last == -1 && openers == [] && closers == []
      invariant i > 0 ==> 0 <= last < i && p[last] == ' ' && NoSpace(p, last + 1, i)
      invariant InRange(p, openers) && InRange(p, closers)
      invariant forall o :: o in openers <==> i > 0 && (o == last || (last < o < i && p[o] == '('))
      invariant forall c :: c in closers <==> last < c < i && p[c] == ')'
      invariant forall s :: s in matches <==> FoundBefore(p, isLink, last, s)
    {
      if p[i] == ' ' {
        closers := closers + [i];
        var found := CheckForLinks(p, openers, closers, isLink);
        SegmentFound(p, isLink, openers, closers, found, last, i);
        matches := matches + found;
        openers := [i];
        closers := [];
        last := i;
      } else if p[i] == ')' {
        closers := closers + [i];
      } else if p[i] == '(' {
        openers := openers + [i];
      }
      i := i + 1;
    }
    assert p[|p| - 1] == ' ';
    forall s | s in matches ensures isLink(s) && !ContainsChar(s, ' ') {
      FoundIsSpaceFree(p, isLink, last, s);
    }
  }

  /** A found piece is a link and holds no space. */
  lemma FoundIsSpaceFree(p: string, isLink: string -> bool, upTo: int, s: string)
    requires FoundBefore(p, isLink, upTo, s)
    ensures isLink(s) && !ContainsChar(s, ' ')
  {
    var o, c :| LinkAt(p, o, c) && c <= upTo && s == p[o + 1..c] && isLink(s);
    forall k | 0 <= k < |s| ensures s[k] != ' ' {
      assert s[k] == p[o + 1 + k];
    }
  }

  /** The openers and closers of the segment that a space at `i` closes,
      after the segment's opening space at `last` (none before the first). */
  ghost predicate Segment(p: string, openers: seq<int>, closers: seq<int>, last: int, i: int)
  {
    && 0 <= i < |p| && p[i] == ' ' && -1 <= last < i
    && (last >= 0 ==> p[last] == ' ') && (last == -1 ==> i == 0)
    && NoSpace(p, last + 1, i)
    && InRange(p, openers) && InRange(p, closers)
    && (forall o :: o in openers <==> last >= 0 && (o == last || (last < o < i && p[o] == '(')))
    && (forall c :: c in closers <==> last < c <= i && (p[c] == ')' || c == i))
  }

  /** Every piece found in a segment is a link that ends at or before the
      space closing it. */
  lemma SegmentSound(p: string, isLink: string -> bool, openers: seq<int>, closers: seq<int>, last: int, i: int, s: string)
    requires Segment(p, openers, closers, last, i)
    requires s in Found(p, openers, |openers|, closers, isLink)
    ensures FoundBefore(p, isLink, i, s)
  {
    var j, k := FoundWitness(p, openers, |openers|, closers, isLink, s);
    assert openers[j] in openers && closers[k] in closers;
    assert LinkAt(p, openers[j], closers[k]);
  }

  /** Every link that ends after `last` and at or before `i` is found in the
      segment. */
  lemma SegmentComplete(p: string, isLink: string -> bool, openers: seq<int>, closers: seq<int>, last: int, i: int,
                        o: int, c: int)
    requires Segment(p, openers, closers, last, i)
    requires LinkAt(p, o, c) && last < c <= i && isLink(p[o + 1..c])
    ensures p[o + 1..c] in Found(p, openers, |openers|, closers, isLink)
  {
    assert o in openers && c in closers;
    var j :| 0 <= j < |openers| && openers[j] == o;
    var k :| 0 <= k < |closers| && closers[k] == c;
    FoundHas(p, openers, |openers|, closers, isLink, j, k);
  }

  /** What one closing space adds: the links that end in the segment it
      closes, which together with those before make every link ending at
      or before it. */
  lemma SegmentFound(p: string, isLink: string -> bool, openers: seq<int>, closers: seq<int>,
                     found: seq<string>, last: int, i: int)
    requires Segment(p, openers, closers, last, i)
    requires found == Found(p, openers, |openers|, closers, isLink)
    ensures forall s :: s in found || FoundBefore(p, isLink, last, s) <==> FoundBefore(p, isLink, i, s)
  {
    forall s ensures s in found || FoundBefore(p, isLink, last, s) <==> FoundBefore(p, isLink, i, s) {
      if s in found {
        SegmentSound(p, isLink, openers, closers, last, i, s);
      }
      if FoundBefore(p, isLink, i, s) && !FoundBefore(p, isLink, last, s) {
        var o, c :| LinkAt(p, o, c) && c <= i && s == p[o + 1..c] && isLink(s);
        SegmentComplete(p, isLink, openers, closers, last, i, o, c);
      }
    }
  }
}
