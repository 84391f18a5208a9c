/**
 * The `math` command's expression evaluator: the result/trace accumulator
 * `MathResult`, the dice and factorial primitives, the parenthesis resolver
 * (`Simplify` and the pre-pass that drives it) and the precedence tiers that
 * split a parenthesis-free expression at its rightmost operator.
 *
 * A double is a real or NaN. `Math.Pow`, `double.ToString` and
 * `double.Parse` are supplied by the host (`Host`); random draws come from an
 * `Rng`. `Evaluate` is a reference definition of the value of a
 * parenthesis-free expression, which `ProcessMath` is proved to compute.
 */
module MathEval {
  import opened Common

  const MAX_ROLLS: int := 999999
  const MAX_ROLLS_VERBOSE_CHARS: int := 80
  const MAX_ROLLS_VERBOSE_DICE: int := 8

  /** The smallest real that a double rounds to infinity: 2^1024 - 2^970. */
  const DOUBLE_OVERFLOW: nat := 0xFFFFFFFFFFFFFC00000000000000000000000000000000000000000000000000000000000000000000000000000000000000000000000000000000000000000000000000000000000000000000000000000000000000000000000000000000000000000000000000000000000000000000000000000000000000000000000000

  const DIVIDE_BY_ZERO := "Attempt to divide by zero"
  const ZERO_POW_ZERO := "Attempt to evaluate zero to the power of zero."
  const UNBALANCED_CLOSING := "Unbalanced or unexpected closing parenthesis found."
  const FEWER_THAN_ONE_FACE := "Attempt to roll a die with less than one face."
  const FACTORIAL_OVERFLOW := "Overflow in factorial operation, result of local expression is infinity."

  /** Operations of the .NET runtime the evaluator relies on: `Math.Pow` on
      two numbers, `double.ToString` of a number and `double.Parse` (`None`
      when it throws). */
  datatype Host = Host(pow: (real, real) -> real, show: real -> string, parse: string -> Option<Eval>)

  /** `double.ToString` never writes a parenthesis, and `double.Parse` yields
      a number or NaN. */
  ghost predicate ValidHost(host: Host)
  {
    && (forall x :: ParenCount(host.show(x)) == 0)
    && (forall s :: host.parse(s).Some? ==> !Escapes(host.parse(s).value))
  }

  /** How an evaluation ends: a number, a NaN (from `x % 0`, and from there
      through arithmetic), an exception escaping the evaluator, or a
      pre-pass loop that never ends. */
  datatype Eval = Num(value: real) | NaN | Raised(exception: string) | Diverges

  /** The evaluation does not produce a double: it ends the whole
      evaluation. A NaN is a double and evaluation goes on with it. */
  predicate Escapes(e: Eval) { e.Raised? || e.Diverges? }

  /** `double.ToString` of a double. */
  function Show(v: Eval, host: Host): string
  {
    if v.Num? then host.show(v.value) else "NaN"
  }

  // ===========================================================================
  // MathResult: error channel, verbose trace and dice summary
  // ===========================================================================

  function TraceLine(message: string, stack: string): string
  {
    " v: " + message + " with arg = " + stack + "\n"
  }

  /** The verbose trace rendered line by line from two parallel lists. */
  function TraceText(messages: seq<string>, stacks: seq<string>): string
    requires |messages| == |stacks|
  {
    if messages == [] then ""
    else TraceText(messages[..|messages| - 1], stacks[..|stacks| - 1])
         + TraceLine(messages[|messages| - 1], stacks[|stacks| - 1])
  }

  /** Each traced step adds exactly its own line to the rendered trace. */
  lemma TraceTextAppend(messages: seq<string>, stacks: seq<string>, message: string, stack: string)
    requires |messages| == |stacks|
    ensures TraceText(messages + [message], stacks + [stack]) == TraceText(messages, stacks) + TraceLine(message, stack)
  {
    assert (messages + [message])[..|messages|] == messages;
    assert (stacks + [stack])[..|stacks|] == stacks;
  }

  function Min(a: int, b: int): int { if a < b then a else b }

  /** A summary line closed: its trailing separator replaced by an optional
      ellipsis and a line break. */
  function CloseLine(s: string, continues: bool): string
    requires |s| > 0
  {
    s[..|s| - 1] + (if continues then "..." else "") + "\n"
  }

  class MathResult {
    var ErrorFlag: bool
    var VerboseFlag: bool
    var Result: Eval
    var Error: string
    var Verbose: seq<string>
    var VerboseStack: seq<string>
    var Rolls: string
    var RollN: nat

    /** The trace lists stay parallel, and the dice summary is non-empty while
        dice are still being recorded in it. */
    ghost predicate Valid()
      reads this
    {
      && |Verbose| == |VerboseStack|
      && (1 <= RollN <= MAX_ROLLS_VERBOSE_DICE ==> |Rolls| > 0)
    }

    constructor ()
      ensures Valid()
      ensures !ErrorFlag && !VerboseFlag && Result == Num(0.0) && Error == ""
      ensures Verbose == [] && VerboseStack == [] && Rolls == "" && RollN == 0
    {
      ErrorFlag, VerboseFlag, Result, Error := false, false, Num(0.0), "";
      Verbose, VerboseStack, Rolls, RollN := [], [], "", 0;
    }

    /** Records an error and yields the sentinel value 1. */
    method ThrowError(message: string) returns (r: real)
      modifies this`Error, this`ErrorFlag
      ensures SinkGrows(this)
      ensures Error == old(Error) + "\n" + message
      ensures ErrorFlag
      ensures r == 1.0
    {
      Error := Error + "\n" + message;
      ErrorFlag := true;
      r := 1.0;
    }

    /** Records an error that forces the trace to be shown, and yields 1. */
    method ThrowVerboseError(message: string) returns (r: real)
      modifies this`Error, this`ErrorFlag, this`VerboseFlag
      ensures SinkGrows(this)
      ensures Error == old(Error) + "\n" + message
      ensures ErrorFlag && VerboseFlag
      ensures r == 1.0
    {
      Error := Error + "\n" + message;
      ErrorFlag := true;
      VerboseFlag := true;
      r := 1.0;
    }

    /** Appends one step to both trace lists; the rendered trace grows by
        exactly that step's line when it is shown at all. */
    method Echo(message: string, stack: string)
      requires Valid()
      modifies this`Verbose, this`VerboseStack
      ensures Valid() && SinkGrows(this)
      ensures Verbose == old(Verbose) + [message]
      ensures VerboseStack == old(VerboseStack) + [stack]
    {
      Verbose := Verbose + [message];
      VerboseStack := VerboseStack + [stack];
    }

    function Snapshot(): Journal
      reads this
    {
      Journal(ErrorFlag, VerboseFlag, Error, Verbose)
    }

    /** The trace shown to the user: empty unless the verbose flag is set,
        otherwise one line per step of the two lists, as far as both reach. */
    method ToString() returns (s: string)
      ensures !VerboseFlag ==> s == ""
      ensures VerboseFlag ==>
                var n := Min(|Verbose|, |VerboseStack|);
                s == TraceText(Verbose[..n], VerboseStack[..n])
      ensures Valid() && VerboseFlag ==> s == TraceText(Verbose, VerboseStack)
    {
      s := "";
      if !VerboseFlag {
        return;
      }
      var i := 0;
      while i < |Verbose| && i < |VerboseStack|
        invariant 0 <= i <= Min(|Verbose|, |VerboseStack|)
        invariant s == TraceText(Verbose[..i], VerboseStack[..i])
      {
        TraceTextAppend(Verbose[..i], VerboseStack[..i], Verbose[i], VerboseStack[i]);
        assert Verbose[..i + 1] == Verbose[..i] + [Verbose[i]];
        assert VerboseStack[..i + 1] == VerboseStack[..i] + [VerboseStack[i]];
        s := s + TraceLine(Verbose[i], VerboseStack[i]);
        i := i + 1;
      }
      assert Valid() ==> Verbose[..i] == Verbose && VerboseStack[..i] == VerboseStack;
    }

    /** Starts the summary of one verbose dice group; only the first eight
        groups are written, the ninth writes an ellipsis, later ones nothing. */
    method NewDice(faces: int)
      requires Valid()
      modifies this`RollN, this`Rolls
      ensures Valid()
      ensures RollN == old(RollN) + 1
      ensures Rolls == if RollN <= MAX_ROLLS_VERBOSE_DICE then old(Rolls) + "d" + IntToString(faces) + ":"
                       else if RollN == MAX_ROLLS_VERBOSE_DICE + 1 then old(Rolls) + "..."
                       else old(Rolls)
    {
      RollN := RollN + 1;
      if RollN > MAX_ROLLS_VERBOSE_DICE {
        if RollN == MAX_ROLLS_VERBOSE_DICE + 1 {
          Rolls := Rolls + "...";
        }
        return;
      }
      Rolls := Rolls + "d" + IntToString(faces) + ":";
    }

    /** Appends one die to the summary while the group is still recorded. */
    method NewRoll(roll: int)
      modifies this`Rolls
      ensures Rolls == old(Rolls) + (if RollN > MAX_ROLLS_VERBOSE_DICE then "" else Piece(roll))
    {
      if RollN > MAX_ROLLS_VERBOSE_DICE {
        return;
      }
      Rolls := Rolls + Piece(roll);
    }

    /** Closes a group: drops its trailing separator, marks a cut-off trace
        with an ellipsis and ends the line. */
    method EndDice(continues: bool)
      requires Valid()
      requires RollN > MAX_ROLLS_VERBOSE_DICE || |Rolls| > 0
      modifies this`Rolls
      ensures Valid()
      ensures Rolls == if RollN > MAX_ROLLS_VERBOSE_DICE then old(Rolls) else CloseLine(old(Rolls), continues)
    {
      if RollN > MAX_ROLLS_VERBOSE_DICE {
        return;
      }
      Rolls := Rolls[..|Rolls| - 1] + (if continues then "..." else "") + "\n";
    }
  }

  /** The parts of the accumulator that evaluation only ever adds to. */
  datatype Journal = Journal(errorFlag: bool, verboseFlag: bool, error: string, verbose: seq<string>)

  /** `later` extends `earlier`: flags are never cleared, errors and trace
      steps are only appended. */
  ghost predicate Extends(earlier: Journal, later: Journal)
  {
    && (earlier.errorFlag ==> later.errorFlag)
    && (earlier.verboseFlag ==> later.verboseFlag)
    && StartsWith(later.error, earlier.error)
    && |earlier.verbose| <= |later.verbose| && later.verbose[..|earlier.verbose|] == earlier.verbose
  }

  lemma ExtendsTransitive(a: Journal, b: Journal, c: Journal)
    requires Extends(a, b) && Extends(b, c)
    ensures Extends(a, c)
  {
    assert c.error[..|b.error|][..|a.error|] == c.error[..|a.error|];
    assert c.verbose[..|b.verbose|][..|a.verbose|] == c.verbose[..|a.verbose|];
  }

  /** What every evaluation step does to the accumulator. */
  twostate predicate SinkGrows(res: MathResult)
    reads res
  {
    Extends(old(res.Snapshot()), res.Snapshot())
  }

  // ===========================================================================
  // Rounding, dice and factorial
  // ===========================================================================

  /** `Math.Round`: to the nearest integer, ties to the even neighbour. */
  function RoundHalfEven(x: real): (r: int)
    ensures -0.5 <= x - r as real <= 0.5
    ensures (x - r as real == 0.5 || x - r as real == -0.5) ==> r % 2 == 0
  {
    var f := x.Floor;
    var d := x - f as real;
    if d < 0.5 then f
    else if d > 0.5 then f + 1
    else if f % 2 == 0 then f
    else f + 1
  }

  /** Those two properties determine the rounding: no other integer has both. */
  lemma RoundHalfEvenUnique(x: real, r: int)
    requires -0.5 <= x - r as real <= 0.5
    requires (x - r as real == 0.5 || x - r as real == -0.5) ==> r % 2 == 0
    ensures r == RoundHalfEven(x)
  {
  }

  /** `(int)Math.Round(x)`. */
  function RoundToInt32(x: real): int
  {
    CastToInt32(RoundHalfEven(x))
  }

  /** `(int)Math.Round(x)` of a double: NaN converts to `int.MinValue`, as
      the x86-64 conversion gives. */
  function RoundNumber(x: Eval): int
  {
    if x.Num? then RoundToInt32(x.value) else INT32_MIN
  }

  /** The value of one die: `Random.Next(1, faces + 1)` on raw draw `p`. */
  function DieFace(draw: nat -> nat, p: nat, faces: int): (r: int)
    requires faces >= 1
    ensures 1 <= r <= faces
  {
    1 + draw(p) % faces
  }

  /** The signed dice of one roll, in the order they are drawn. */
  function DiceRolls(draw: nat -> nat, p: nat, n: nat, faces: int, sign: int): (rs: seq<int>)
    requires faces >= 1
    ensures |rs| == n
  {
    if n == 0 then []
    else DiceRolls(draw, p, n - 1, faces, sign) + [DieFace(draw, p + n - 1, faces) * sign]
  }

  lemma {:induction false} DiceRollsRange(draw: nat -> nat, p: nat, n: nat, faces: int, sign: int)
    requires faces >= 1
    ensures sign == 1 ==> forall k :: 0 <= k < n ==> 1 <= DiceRolls(draw, p, n, faces, sign)[k] <= faces
    ensures sign == -1 ==> forall k :: 0 <= k < n ==> -faces <= DiceRolls(draw, p, n, faces, sign)[k] <= -1
  {
    if n > 0 {
      DiceRollsRange(draw, p, n - 1, faces, sign);
    }
  }

  function Sum(xs: seq<int>): int
  {
    if xs == [] then 0 else Sum(xs[..|xs| - 1]) + xs[|xs| - 1]
  }

  lemma {:induction false} SumBounds(xs: seq<int>, lo: int, hi: int)
    requires forall k :: 0 <= k < |xs| ==> lo <= xs[k] <= hi
    ensures |xs| * lo <= Sum(xs) <= |xs| * hi
  {
    if xs != [] {
      SumBounds(xs[..|xs| - 1], lo, hi);
    }
  }

  /** The number of dice thrown for a rounded count (sign removed with an
      unchecked negation, so `int.MinValue` stays negative). */
  function DiceNumber(count: int): int
  {
    if count < 0 then Wrap32(-count) else count
  }

  function Sign(count: int): int { if count < 0 then -1 else 1 }

  /** Dice without faces: a non-zero count with fewer than one face. */
  predicate DiceFail(count: int, faces: int)
  {
    count != 0 && faces < 1
  }

  /** The value rolling `count` dice of `faces` faces ends with when its
      draws start at `p`. */
  function DiceValue(count: int, faces: int, draw: nat -> nat, p: nat): (e: Eval)
    ensures e.Num? || e == Raised("ArgumentOutOfRangeException")
  {
    if count == 0 then Num(0.0)
    else if faces < 1 then Num(1.0)
    else
      var n := DiceNumber(count);
      if n < 1 then Num(0.0)
      else if faces == INT32_MAX then Raised("ArgumentOutOfRangeException")
      else Num(Sum(DiceRolls(draw, p, n, faces, Sign(count))) as real)
  }

  /** How many raw draws rolling `count` dice of `faces` faces consumes. */
  function DiceDraws(count: int, faces: int): nat
  {
    if DiceFail(count, faces) || count == 0 || faces == INT32_MAX then 0
    else var n := DiceNumber(count); if n < 1 then 0 else n
  }

  /** More than 999999 dice; a NaN count compares false and is not. */
  predicate TooManyDice(A: Eval)
  {
    A.Num? && A.value > MAX_ROLLS as real
  }

  /** The roll is an error: too many dice, or dice without faces. */
  predicate RollFails(A: Eval, B: Eval)
  {
    TooManyDice(A) || DiceFail(RoundNumber(A), RoundNumber(B))
  }

  /** The value `Roll(A, B)` ends with when its draws start at `p`. */
  function RollValue(A: Eval, B: Eval, draw: nat -> nat, p: nat): Eval
  {
    if TooManyDice(A) then Num(1.0)
    else DiceValue(RoundNumber(A), RoundNumber(B), draw, p)
  }

  /** How many raw draws `Roll(A, B)` consumes. */
  function RollDraws(A: Eval, B: Eval): nat
  {
    if TooManyDice(A) then 0 else DiceDraws(RoundNumber(A), RoundNumber(B))
  }

  /** A successful roll of `n` dice sums to between `n` and `n * faces`, and
      to the negation of such a sum for a negative count. */
  lemma DiceValueBounds(count: int, faces: int, draw: nat -> nat, p: nat)
    requires IsInt32(count) && count != 0 && count != INT32_MIN && 1 <= faces < INT32_MAX
    ensures DiceValue(count, faces, draw, p).Num?
    ensures var v := DiceValue(count, faces, draw, p).value;
            (count > 0 ==> count as real <= v <= (count * faces) as real) &&
            (count < 0 ==> (count * faces) as real <= v <= count as real)
  {
    var sign := Sign(count);
    var n := DiceNumber(count);
    assert n == Abs(count) && n >= 1;
    var rs := DiceRolls(draw, p, n, faces, sign);
    DiceRollsRange(draw, p, n, faces, sign);
    if count > 0 {
      SumBounds(rs, 1, faces);
    } else {
      SumBounds(rs, -faces, -1);
      NegatedProduct(count, faces);
    }
  }

  lemma NegatedProduct(a: int, b: int)
    ensures (-a) * (-b) == a * b
  {
  }

  /** A one-sided die always shows 1: `n d 1` is `n`. */
  lemma OneFacedDice(count: int, draw: nat -> nat, p: nat)
    requires 1 <= count <= INT32_MAX
    ensures DiceValue(count, 1, draw, p) == Num(count as real)
  {
    var rs := DiceRolls(draw, p, count, 1, 1);
    DiceRollsRange(draw, p, count, 1, 1);
    SumBounds(rs, 1, 1);
  }

  function Piece(roll: int): string { " " + IntToString(roll) + "," }

  /** The characters the verbose summary has spent after the given rolls:
      a roll is written only while fewer than 80 have been spent. */
  function Chars(rolls: seq<int>): nat
  {
    if rolls == [] then 0
    else
      var c := Chars(rolls[..|rolls| - 1]);
      if c < MAX_ROLLS_VERBOSE_CHARS then c + |IntToString(rolls[|rolls| - 1])| + 2 else c
  }

  /** The part of the dice summary written for the given rolls. */
  function ShownText(rolls: seq<int>): string
  {
    if rolls == [] then ""
    else
      var init := rolls[..|rolls| - 1];
      ShownText(init) + (if Chars(init) < MAX_ROLLS_VERBOSE_CHARS then Piece(rolls[|rolls| - 1]) else "")
  }

  /** The summary line one verbose roll leaves in `Rolls`. */
  function DiceSummary(before: string, rollN: nat, faces: int, rolls: seq<int>): string
  {
    if rollN + 1 <= MAX_ROLLS_VERBOSE_DICE then
      CloseLine(before + "d" + IntToString(faces) + ":" + ShownText(rolls), Chars(rolls) >= MAX_ROLLS_VERBOSE_CHARS)
    else if rollN + 1 == MAX_ROLLS_VERBOSE_DICE + 1 then before + "..."
    else before
  }

  function Pow10(k: nat): nat { if k == 0 then 1 else 10 * Pow10(k - 1) }

  lemma {:induction false} NatToStringShort(n: nat, k: nat)
    requires k >= 1 && n < Pow10(k)
    ensures |NatToString(n)| <= k
  {
    if n >= 10 {
      NatToStringShort(n / 10, k - 1);
    }
  }

  lemma IntToStringShort(x: int)
    requires IsInt32(x)
    ensures |IntToString(x)| <= 11
  {
    assert Pow10(10) == 10000000000;
    if x < 0 { NatToStringShort(-x, 10); } else { NatToStringShort(x, 10); }
  }

  /** The written part of a summary is exactly as long as the characters
      spent, and stays below the 80-character budget plus one roll. */
  lemma {:induction false} ShownTextBounded(rolls: seq<int>)
    requires forall k :: 0 <= k < |rolls| ==> IsInt32(rolls[k])
    ensures |ShownText(rolls)| == Chars(rolls)
    ensures Chars(rolls) < MAX_ROLLS_VERBOSE_CHARS + 13
  {
    if rolls != [] {
      ShownTextBounded(rolls[..|rolls| - 1]);
      IntToStringShort(rolls[|rolls| - 1]);
    }
  }

  lemma AppendRoll(rolls: seq<int>, roll: int)
    ensures Sum(rolls + [roll]) == Sum(rolls) + roll
    ensures Chars(rolls + [roll]) ==
              if Chars(rolls) < MAX_ROLLS_VERBOSE_CHARS then Chars(rolls) + |IntToString(roll)| + 2 else Chars(rolls)
    ensures ShownText(rolls + [roll]) ==
              ShownText(rolls) + (if Chars(rolls) < MAX_ROLLS_VERBOSE_CHARS then Piece(roll) else "")
  {
    assert (rolls + [roll])[..|rolls|] == rolls;
  }

  /** `Roll(A, B, Result, Verbose)`: more than 999999 dice is an error;
      otherwise `A` and `B` are rounded to a count and a number of faces. */
  method Roll(A: Eval, B: Eval, res: MathResult, rng: Rng, host: Host, verbose: bool) returns (e: Eval)
    requires res.Valid()
    modifies res, rng
    ensures res.Valid() && SinkGrows(res)
    ensures e == RollValue(A, B, rng.draw, old(rng.pos))
    ensures e.Num? ==> rng.pos == old(rng.pos) + RollDraws(A, B)
    ensures res.ErrorFlag == (old(res.ErrorFlag) || RollFails(A, B))
    ensures res.VerboseFlag == old(res.VerboseFlag)
    ensures !verbose || RollFails(A, B) || RoundNumber(A) == 0 ==>
              res.Rolls == old(res.Rolls) && res.RollN == old(res.RollN)
    ensures verbose && e.Num? && !RollFails(A, B) && RoundNumber(A) != 0 ==>
              res.RollN == old(res.RollN) + 1 &&
              res.Rolls == DiceSummary(old(res.Rolls), old(res.RollN), RoundNumber(B),
                                       DiceRolls(rng.draw, old(rng.pos), RollDraws(A, B), RoundNumber(B),
                                                 Sign(RoundNumber(A))))
  {
    if TooManyDice(A) {
      var r := res.ThrowError("Exceeded maximum allowed random operations (" + Show(A, host) + " > " + IntToString(MAX_ROLLS) + ")");
      return Num(r);
    }
    e := RollDice(RoundNumber(A), RoundNumber(B), Show(A, host) + "d" + Show(B, host), res, rng, verbose);
  }

  /** The rest of `Roll` once the count and the faces are rounded: zero dice
      roll 0, dice without faces are an error, and otherwise the dice are
      thrown, summarised and traced. */
  method RollDice(count: int, faces: int, stack: string, res: MathResult, rng: Rng, verbose: bool) returns (e: Eval)
    requires res.Valid()
    modifies res, rng
    ensures res.Valid() && SinkGrows(res)
    ensures e == DiceValue(count, faces, rng.draw, old(rng.pos))
    ensures e.Num? ==> rng.pos == old(rng.pos) + DiceDraws(count, faces)
    ensures res.ErrorFlag == (old(res.ErrorFlag) || DiceFail(count, faces))
    ensures res.VerboseFlag == old(res.VerboseFlag)
    ensures !verbose || DiceFail(count, faces) || count == 0 ==>
              res.Rolls == old(res.Rolls) && res.RollN == old(res.RollN)
    ensures verbose && e.Num? && !DiceFail(count, faces) && count != 0 ==>
              res.RollN == old(res.RollN) + 1 &&
              res.Rolls == DiceSummary(old(res.Rolls), old(res.RollN), faces,
                                       DiceRolls(rng.draw, old(rng.pos), DiceDraws(count, faces), faces, Sign(count)))
  {
    if count == 0 {
      res.Echo("Rolled 0 dice.", "ab");
      return Num(0.0);
    }
    if faces < 1 {
      var r := res.ThrowError(FEWER_THAN_ONE_FACE);
      return Num(r);
    }
    e := RollSomeDice(count, faces, stack, res, rng, verbose);
  }

  /** Throws a non-zero number of dice of at least one face: opens the
      summary line, throws the dice, closes the line and traces the roll. */
  method RollSomeDice(count: int, faces: int, stack: string, res: MathResult, rng: Rng, verbose: bool) returns (e: Eval)
    requires count != 0 && faces >= 1 && res.Valid()
    modifies res, rng
    ensures res.Valid() && SinkGrows(res)
    ensures e == DiceValue(count, faces, rng.draw, old(rng.pos))
    ensures e.Num? ==> rng.pos == old(rng.pos) + DiceDraws(count, faces)
    ensures res.ErrorFlag == old(res.ErrorFlag) && res.VerboseFlag == old(res.VerboseFlag)
    ensures !verbose ==> res.Rolls == old(res.Rolls) && res.RollN == old(res.RollN)
    ensures verbose && e.Num? ==>
              res.RollN == old(res.RollN) + 1 &&
              res.Rolls == DiceSummary(old(res.Rolls), old(res.RollN), faces,
                                       DiceRolls(rng.draw, old(rng.pos), DiceDraws(count, faces), faces, Sign(count)))
  {
    var message;
    e, message := ThrowAndSummarise(count, faces, res, rng, verbose);
    if e.Num? {
      res.Echo(message, stack);
    }
  }

  /** The dice of `RollSomeDice` with their verbose summary, and the trace
      line that reports them. */
  method ThrowAndSummarise(count: int, faces: int, res: MathResult, rng: Rng, verbose: bool)
    returns (e: Eval, message: string)
    requires count != 0 && faces >= 1 && res.Valid()
    modifies res`RollN, res`Rolls, rng
    ensures res.Valid()
    ensures e == DiceValue(count, faces, rng.draw, old(rng.pos))
    ensures e.Num? ==> rng.pos == old(rng.pos) + DiceDraws(count, faces)
    ensures !verbose ==> res.Rolls == old(res.Rolls) && res.RollN == old(res.RollN)
    ensures verbose && e.Num? ==>
              res.RollN == old(res.RollN) + 1 &&
              res.Rolls == DiceSummary(old(res.Rolls), old(res.RollN), faces,
                                       DiceRolls(rng.draw, old(rng.pos), DiceDraws(count, faces), faces, Sign(count)))
  {
    if verbose {
      res.NewDice(faces);
    }
    var sign := Sign(count);
    var n := DiceNumber(count);
    assert DiceDraws(count, faces) == (if n < 1 || faces == INT32_MAX then 0 else n);
    ghost var rolled;
    var ok, sum, trace, traceChars;
    ok, sum, trace, traceChars, rolled := ThrowDice(n, faces, sign, verbose, res, rng);
    if !ok {
      return Raised("ArgumentOutOfRangeException"), "";
    }
    if verbose {
      res.EndDice(traceChars >= MAX_ROLLS_VERBOSE_CHARS);
    }
    message := trace[..|trace| - 2] + " on " + (if sign == -1 then "-" else "") + IntToString(n) + "d" + IntToString(faces) + ".";
    e := Num(sum as real);
  }

  /** The dice loop of `Roll`: draws `n` dice of `faces` faces with the given
      sign and writes them to the verbose summary while its 80-character
      budget lasts. The first draw fails when `faces + 1` overflows. */
  method ThrowDice(n: int, faces: int, sign: int, verbose: bool, res: MathResult, rng: Rng)
    returns (ok: bool, sum: int, trace: string, traceChars: int, ghost rolled: seq<int>)
    requires faces >= 1 && res.Valid()
    modifies res`Rolls, rng
    ensures res.Valid()
    ensures ok <==> n < 1 || faces != INT32_MAX
    ensures |trace| >= 2
    ensures !ok ==> res.Rolls == old(res.Rolls)
    ensures ok ==> rng.pos == old(rng.pos) + |rolled|
    ensures ok ==> rolled == DiceRolls(rng.draw, old(rng.pos), if n < 1 then 0 else n, faces, sign)
    ensures ok ==> sum == Sum(rolled)
    ensures ok && verbose ==> traceChars == Chars(rolled)
    ensures ok ==> res.Rolls == old(res.Rolls) + (if verbose && res.RollN <= MAX_ROLLS_VERBOSE_DICE then ShownText(rolled) else "")
  {
    ghost var p0 := rng.pos;
    ghost var draw := rng.draw;
    ghost var rolls0 := res.Rolls;
    ghost var recording := verbose && res.RollN <= MAX_ROLLS_VERBOSE_DICE;
    sum := 0;
    trace := "Rolled values: ";
    traceChars := 0;
    var i := 0;
    rolled := [];
    while i < n
      invariant 0 <= i && (n >= 1 ==> i <= n) && (n < 1 ==> i == 0)
      invariant rng.pos == p0 + i
      invariant i > 0 ==> faces != INT32_MAX
      invariant rolled == DiceRolls(draw, p0, i, faces, sign)
      invariant sum == Sum(rolled)
      invariant |trace| >= 2
      invariant traceChars == (if verbose then Chars(rolled) else 0)
      invariant res.Rolls == rolls0 + (if recording then ShownText(rolled) else "")
    {
      if faces == INT32_MAX {
        assert res.Rolls == rolls0 + "";
        return false, sum, trace, traceChars, rolled;
      }
      var roll;
      ghost var shownBefore := if recording then ShownText(rolled) else "";
      roll, traceChars := DrawDie(faces, sign, verbose, traceChars, res, rng);
      assert DiceRolls(draw, p0, i + 1, faces, sign) == rolled + [roll];
      trace := trace + IntToString(roll) + ", ";
      sum := sum + roll;
      AppendRoll(rolled, roll);
      AppendAssoc(rolls0, shownBefore, if recording && Chars(rolled) < MAX_ROLLS_VERBOSE_CHARS then Piece(roll) else "");
      rolled := rolled + [roll];
      i := i + 1;
    }
    ok := true;
  }

  /** One pass of the dice loop: draws a die and, while the summary's
      character budget lasts, appends it to the summary. */
  method DrawDie(faces: int, sign: int, verbose: bool, traceChars: int, res: MathResult, rng: Rng)
    returns (roll: int, chars: int)
    requires 1 <= faces && faces != INT32_MAX
    modifies res`Rolls, rng
    ensures rng.pos == old(rng.pos) + 1
    ensures roll == DieFace(rng.draw, old(rng.pos), faces) * sign
    ensures chars == if verbose && traceChars < MAX_ROLLS_VERBOSE_CHARS then traceChars + |IntToString(roll)| + 2 else traceChars
    ensures res.Rolls == old(res.Rolls) +
              (if verbose && traceChars < MAX_ROLLS_VERBOSE_CHARS && res.RollN <= MAX_ROLLS_VERBOSE_DICE then Piece(roll) else "")
  {
    var face := rng.NextRange(1, faces + 1);
    roll := face * sign;
    chars := traceChars;
    if verbose && traceChars < MAX_ROLLS_VERBOSE_CHARS {
      res.NewRoll(roll);
      chars := traceChars + |IntToString(roll)| + 2;
    }
  }

  /** a * (a - 1) * ... * 2, and 1 for every a <= 1. */
  function Fact(a: int): nat
    decreases if a < 0 then 0 else a
  {
    if a <= 1 then 1 else a * Fact(a - 1)
  }

  /** The product of the integers k with i < k <= a. */
  function Desc(a: int, i: int): nat
    requires i >= 1
    decreases if a < i then 0 else a - i
  {
    if a <= i then 1 else a * Desc(a - 1, i)
  }

  lemma {:induction false} DescStep(a: int, i: int)
    requires 2 <= i <= a
    ensures Desc(a, i - 1) == Desc(a, i) * i
  {
    if a > i {
      DescStep(a - 1, i);
    }
  }

  lemma {:induction false} FactSplit(a: int, i: int)
    requires 1 <= i <= a
    ensures Fact(a) == Desc(a, i) * Fact(i)
  {
    if a > i {
      FactSplit(a - 1, i);
      var d, f := Desc(a - 1, i), Fact(i);
      assert Fact(a) == a * (d * f);
      assert Desc(a, i) == a * d;
      MulAssoc(a, d, f);
    }
  }

  lemma MulAssoc(a: int, b: int, c: int)
    ensures a * (b * c) == (a * b) * c
  {
  }

  function FactorialOperand(x: Eval): int
  {
    RoundNumber(x)
  }

  /** The running product of `Factorial(x)` reaches infinity. */
  predicate FactorialOverflows(x: Eval)
  {
    Fact(FactorialOperand(x)) >= DOUBLE_OVERFLOW
  }

  /** `Factorial(Operand)`: the product of the rounded operand down to 2, or a
      verbose error once the running product is infinite. */
  method Factorial(operand: Eval, res: MathResult, host: Host) returns (v: real)
    requires res.Valid()
    modifies res
    ensures res.Valid() && SinkGrows(res)
    ensures FactorialOverflows(operand) ==>
              v == 1.0 && res.ErrorFlag && res.VerboseFlag &&
              res.Error == old(res.Error) + "\n" + FACTORIAL_OVERFLOW
    ensures !FactorialOverflows(operand) ==>
              v == Fact(FactorialOperand(operand)) as real &&
              res.ErrorFlag == old(res.ErrorFlag) && res.VerboseFlag == old(res.VerboseFlag) &&
              res.Error == old(res.Error) && |res.Verbose| == |old(res.Verbose)| + 1
  {
    var value := 1;
    var a := FactorialOperand(operand);
    var i := a;
    while i > 1
      invariant a > 1 ==> 1 <= i <= a
      invariant a <= 1 ==> i == a
      invariant value == Desc(a, if i < 1 then 1 else i)
      invariant value < DOUBLE_OVERFLOW
      invariant unchanged(res)
    {
      DescStep(a, i);
      value := value * i;
      if value >= DOUBLE_OVERFLOW {
        FactSplit(a, i - 1);
        FactPositive(i - 1);
        MulAtLeast(value, Fact(i - 1));
        v := res.ThrowVerboseError(FACTORIAL_OVERFLOW);
        return;
      }
      i := i - 1;
    }
    if a > 1 {
      FactSplit(a, 1);
    }
    res.Echo("Calculated the factorial of " + Show(operand, host) + ", rounded to " + IntToString(a) + "!",
             Show(operand, host) + "!");
    v := value as real;
  }

  lemma {:induction false} FactPositive(a: int)
    ensures Fact(a) >= 1
    decreases if a < 0 then 0 else a
  {
    if a > 1 {
      FactPositive(a - 1);
      MulAtLeast(Fact(a - 1), a);
    }
  }

  lemma MulAtLeast(x: nat, y: nat)
    requires y >= 1
    ensures x * y >= x
  {
  }

  /** Rounding to a count of at most 1, negative ones included, gives 1
      without an error. */
  lemma SmallFactorial(x: Eval)
    requires FactorialOperand(x) <= 1
    ensures !FactorialOverflows(x) && Fact(FactorialOperand(x)) == 1
  {
  }

  /** The magnitude of a real. */
  function RealAbs(x: real): real { if x < 0.0 then -x else x }

  // ===========================================================================
  // Precedence tiers
  // ===========================================================================

  datatype Tier = AddSub | MulDiv | Power | DiceRem

  function Rank(t: Tier): nat
  {
    match t
    case AddSub => 0
    case MulDiv => 1
    case Power => 2
    case DiceRem => 3
  }

  predicate IsTierOp(t: Tier, c: char)
  {
    match t
    case AddSub => c == '+' || c == '-'
    case MulDiv => c == '*' || c == '×' || c == '/' || c == '÷'
    case Power => c == '^'
    case DiceRem => c == 'd' || c == 'D' || c == '%'
  }

  /** Position `i` of `s` holds an operator of tier `t`; a sign right after an
      `E` belongs to a number in scientific notation and is no split point. */
  predicate SplitsAt(s: string, t: Tier, i: int)
  {
    0 <= i < |s| && IsTierOp(t, s[i]) && !(t == AddSub && i > 0 && s[i - 1] == 'E')
  }

  predicate NoSplit(s: string, t: Tier)
  {
    forall j :: 0 <= j < |s| ==> !SplitsAt(s, t, j)
  }

  /** The rightmost split point of tier `t` below `n`, or -1. */
  function LastSplit(s: string, t: Tier, n: nat): (r: int)
    requires n <= |s|
    ensures -1 <= r < n
    ensures r >= 0 ==> SplitsAt(s, t, r)
    ensures forall j :: r < j < n ==> !SplitsAt(s, t, j)
  {
    if n == 0 then -1
    else if SplitsAt(s, t, n - 1) then n - 1
    else LastSplit(s, t, n - 1)
  }

  lemma SplitWitness(s: string, t: Tier, i: int)
    requires SplitsAt(s, t, i)
    ensures !NoSplit(s, t)
  {
  }

  /** No tier ranked below `t` occurs in `s`. */
  predicate NoSplitBelow(s: string, t: Tier)
  {
    match t
    case AddSub => true
    case MulDiv => NoSplit(s, AddSub)
    case Power => NoSplit(s, AddSub) && NoSplit(s, MulDiv)
    case DiceRem => NoSplit(s, AddSub) && NoSplit(s, MulDiv) && NoSplit(s, Power)
  }

  /** No operator of any tier occurs in `s`. */
  predicate NoOperator(s: string)
  {
    NoSplitBelow(s, DiceRem) && NoSplit(s, DiceRem)
  }

  /** Which rule `ProcessMath` applies to a parenthesis-free expression. */
  datatype Shape = Binary(tier: Tier, at: nat) | FactorialOf | Leaf

  /** The tiers are tried from `+`/`-` to `d`/`D`/`%`; within the first tier
      that occurs, the rightmost operator splits, so every tier associates to
      the left. A trailing `!` comes next, and the rest is a literal. */
  function Classify(s: string): (sh: Shape)
    ensures sh.Binary? ==> SplitsAt(s, sh.tier, sh.at)
    ensures sh.Binary? ==> forall j :: sh.at < j < |s| ==> !SplitsAt(s, sh.tier, j)
    ensures sh.Binary? ==> NoSplitBelow(s, sh.tier)
    ensures !sh.Binary? <==> NoOperator(s)
    ensures sh == FactorialOf <==> NoOperator(s) && |s| > 0 && s[|s| - 1] == '!'
  {
    var a := LastSplit(s, AddSub, |s|);
    if a >= 0 then
      SplitWitness(s, AddSub, a);
      Binary(AddSub, a)
    else
      var m := LastSplit(s, MulDiv, |s|);
      if m >= 0 then
        SplitWitness(s, MulDiv, m);
        Binary(MulDiv, m)
      else
        var p := LastSplit(s, Power, |s|);
        if p >= 0 then
          SplitWitness(s, Power, p);
          Binary(Power, p)
        else
          var d := LastSplit(s, DiceRem, |s|);
          if d >= 0 then
            SplitWitness(s, DiceRem, d);
            Binary(DiceRem, d)
          else if |s| > 0 && s[|s| - 1] == '!' then FactorialOf
          else Leaf
  }

  /** `2^3^2` is split at its second `^`, i.e. read as `(2^3)^2`. */
  lemma PowerIsLeftAssociative()
    ensures Classify("2^3^2") == Binary(Power, 3)
  {
    var s := "2^3^2";
    assert forall j :: 0 <= j < |s| ==> s[j] in {'2', '3', '^'};
    SplitWitness(s, Power, 3);
    var sh := Classify(s);
    assert sh.Binary?;
    assert s[sh.at] in {'2', '3', '^'};
    assert sh.tier != DiceRem;
    assert sh.tier == Power;
    assert SplitsAt(s, sh.tier, 3);
  }

  /** `1E-5` has no subtraction, while `1E-5-2` subtracts 2 from `1E-5`. */
  lemma ScientificSignIsNoSplit()
    ensures NoSplit("1E-5", AddSub)
    ensures Classify("1E-5-2") == Binary(AddSub, 4)
  {
    var s := "1E-5-2";
    assert !SplitsAt(s, AddSub, 2);
    SplitWitness(s, AddSub, 4);
    assert !SplitsAt(s, AddSub, 5);
  }

  /** Every operator of the four tiers. */
  predicate IsOperator(c: char)
  {
    IsTierOp(AddSub, c) || IsTierOp(MulDiv, c) || IsTierOp(Power, c) || IsTierOp(DiceRem, c)
  }

  /** The arithmetic of one binary split, given the values of both sides. */
  datatype Step = Value(v: Eval, note: string) | Fail(message: string) | Dice(verbose: bool)

  /** C# `%` on doubles: the remainder of the quotient truncated toward 0. It
      takes the sign of the dividend and is smaller than the divisor. */
  function RealRem(a: real, b: real): (r: real)
    requires b != 0.0
    ensures ((a - r) / b).Floor as real == (a - r) / b
    ensures a >= 0.0 ==> r >= 0.0
    ensures a <= 0.0 ==> r <= 0.0
    ensures RealAbs(r) < RealAbs(b)
  {
    var q := Trunc(a / b);
    RemBounds(a, b, q);
    a - b * q as real
  }

  /** The truncated quotient leaves a remainder of the dividend's sign,
      smaller than the divisor. */
  lemma RemBounds(a: real, b: real, q: int)
    requires b != 0.0 && q == Trunc(a / b)
    ensures var r := a - b * q as real;
            ((a - r) / b).Floor as real == (a - r) / b
            && (a >= 0.0 ==> r >= 0.0) && (a <= 0.0 ==> r <= 0.0) && RealAbs(r) < RealAbs(b)
  {
    assert (a - (a - b * q as real)) / b == q as real;
    var x := a / b;
    assert a == b * x;
    var f := x - q as real;
    assert -1.0 < f < 1.0;
    assert x >= 0.0 ==> 0.0 <= f;
    assert x < 0.0 ==> f <= 0.0;
    FractionBelow(b, f);
    assert a - b * q as real == b * f;
  }

  /** A fraction of `b` strictly between -1 and 1 times `b` is smaller than
      `b`. */
  lemma FractionBelow(b: real, f: real)
    requires b != 0.0 && -1.0 < f < 1.0
    ensures RealAbs(b * f) < RealAbs(b)
  {
    if b > 0.0 {
      assert b - b * f == b * (1.0 - f) > 0.0;
      assert b + b * f == b * (1.0 + f) > 0.0;
    } else {
      assert b * f - b == (-b) * (1.0 - f) > 0.0;
      assert -b - b * f == (-b) * (1.0 + f) > 0.0;
    }
  }

  /** Double arithmetic: a NaN operand gives NaN, and so does `x % 0`. */
  function Arith(op: char, A: Eval, B: Eval): (r: Eval)
    requires op in {'+', '-', '*', '/', '%'} && !Escapes(A) && !Escapes(B)
    requires op == '/' ==> B != Num(0.0)
    ensures !Escapes(r)
    ensures r.NaN? <==> A.NaN? || B.NaN? || (op == '%' && B == Num(0.0))
    ensures A.Num? && B.Num? && op == '/' ==> r.Num? && r.value * B.value == A.value
    ensures A.Num? && B.Num? && op == '%' && B.value != 0.0 ==> r == Num(RealRem(A.value, B.value))
  {
    if !A.Num? || !B.Num? then NaN
    else if op == '+' then Num(A.value + B.value)
    else if op == '-' then Num(A.value - B.value)
    else if op == '*' then Num(A.value * B.value)
    else if op == '/' then Num(A.value / B.value)
    else if B.value == 0.0 then NaN
    else Num(RealRem(A.value, B.value))
  }

  /** `Math.Pow` on doubles: NaN to the power 0 and 1 to the power NaN are 1,
      any other NaN operand gives NaN. */
  function Pow(A: Eval, B: Eval, host: Host): Eval
    requires !Escapes(A) && !Escapes(B)
  {
    if A.Num? && B.Num? then Num(host.pow(A.value, B.value))
    else if B == Num(0.0) || A == Num(1.0) then Num(1.0)
    else NaN
  }

  /** One operator applied to two doubles: the value with the note traced for
      it, the division-by-zero and zero-to-the-zero errors (a NaN is not
      zero), or a dice roll. */
  function Combine(op: char, A: Eval, B: Eval, host: Host): (r: Step)
    requires IsOperator(op) && !Escapes(A) && !Escapes(B)
    ensures r.Value? ==> !Escapes(r.v)
    ensures (op == '/' || op == '÷') && B == Num(0.0) ==> r == Fail(DIVIDE_BY_ZERO)
    ensures op == '^' && A == Num(0.0) && B == Num(0.0) ==> r == Fail(ZERO_POW_ZERO)
    ensures r.Fail? ==> op in {'/', '÷', '^'}
    ensures r.Dice? <==> op == 'd' || op == 'D'
    ensures op == '^' && !(A == Num(0.0) && B == Num(0.0)) ==> r.Value? && r.v == Pow(A, B, host)
    ensures op !in {'^', 'd', 'D'} && (A.NaN? || B.NaN?) && !r.Fail? ==> r.Value? && r.v == NaN
    ensures op == '%' && B == Num(0.0) ==> r.Value? && r.v == NaN
    ensures A.Num? && B.Num? ==>
              var a, b := A.value, B.value;
              && (op == '+' ==> r.Value? && r.v == Num(a + b))
              && (op == '-' ==> r.Value? && r.v == Num(a - b))
              && (op == '*' || op == '×' ==> r.Value? && r.v == Num(a * b))
              && ((op == '/' || op == '÷') && b != 0.0 ==> r.Value? && r.v.Num? && r.v.value * b == a)
              && (op == '%' && b != 0.0 ==> r.Value? && r.v == Num(RealRem(a, b)))
  {
    var note := Note(op, Show(A, host), Show(B, host));
    if op == 'd' || op == 'D' then Dice(op == 'D')
    else if op == '^' then
      if A == Num(0.0) && B == Num(0.0) then Fail(ZERO_POW_ZERO) else Value(Pow(A, B, host), note)
    else if (op == '/' || op == '÷') && B == Num(0.0) then Fail(DIVIDE_BY_ZERO)
    else Value(Arith(if op == '×' then '*' else if op == '÷' then '/' else op, A, B), note)
  }

  /** The trace line for an arithmetic operator, given the text of both
      operands; `%` traces nothing. */
  function Note(op: char, sa: string, sb: string): string
  {
    if op == '+' then "Added " + sa + " + " + sb + "."
    else if op == '-' then "Subtracted " + sa + " - " + sb + "."
    else if op == '*' || op == '×' then "Multiplied " + sa + " * " + sb
    else if op == '/' || op == '÷' then "Divided " + sa + " / " + sb
    else if op == '^' then "Evaluated " + sa + " ^ " + sb
    else ""
  }

  // ===========================================================================
  // Parenthesis resolver
  // ===========================================================================

  predicate IsParen(c: char) { c == '(' || c == ')' }

  function ParenCount(s: string): nat
  {
    if s == [] then 0 else ParenCount(s[..|s| - 1]) + (if IsParen(s[|s| - 1]) then 1 else 0)
  }

  lemma {:induction false} ParenCountAppend(a: string, b: string)
    ensures ParenCount(a + b) == ParenCount(a) + ParenCount(b)
  {
    if b == [] {
      assert a + b == a;
    } else {
      assert (a + b)[..|a + b| - 1] == a + b[..|b| - 1];
      assert (a + b)[|a + b| - 1] == b[|b| - 1];
      ParenCountAppend(a, b[..|b| - 1]);
    }
  }

  lemma {:induction false} ParenCountZero(s: string)
    requires forall k :: 0 <= k < |s| ==> !IsParen(s[k])
    ensures ParenCount(s) == 0
  {
    if s != [] {
      ParenCountZero(s[..|s| - 1]);
    }
  }

  lemma {:induction false} ParenCountSame(a: string, b: string)
    requires |a| == |b|
    requires forall k :: 0 <= k < |a| ==> IsParen(a[k]) == IsParen(b[k])
    ensures ParenCount(a) == ParenCount(b)
  {
    if a != [] {
      ParenCountSame(a[..|a| - 1], b[..|b| - 1]);
    }
  }

  lemma ParenCountPositive(s: string, i: int)
    requires 0 <= i < |s| && IsParen(s[i])
    ensures ParenCount(s) >= 1
  {
    assert s == s[..i] + [s[i]] + s[i + 1..];
    ParenCountAppend(s[..i] + [s[i]], s[i + 1..]);
    ParenCountAppend(s[..i], [s[i]]);
  }

  lemma {:induction false} ParenWitness(s: string)
    requires ParenCount(s) > 0
    ensures exists i :: 0 <= i < |s| && IsParen(s[i])
  {
    var t := s[..|s| - 1];
    if !IsParen(s[|s| - 1]) {
      ParenWitness(t);
      var i :| 0 <= i < |t| && IsParen(t[i]);
      assert s[i] == t[i];
    }
  }

  /** The bracket depth seen before position `k`, counting from position 1
      (the comma scan starts at 1). */
  function Depth(e: string, k: nat): int
    requires k <= |e|
  {
    if k <= 1 then 0
    else Depth(e, k - 1) + (if e[k - 1] == '(' then 1 else if e[k - 1] == ')' then -1 else 0)
  }

  /** The text the comma scan of `Simplify` produces: every `,` after the
      first character and at depth 0 becomes `;`. */
  function Semicolons(e: string): string
  {
    seq(|e|, k requires 0 <= k < |e| =>
      if k >= 1 && e[k] == ',' && Depth(e, k) == 0 then ';' else e[k])
  }

  /** The comma scan of `Simplify`, as the loop that performs it: each `,`
      after the first character and outside every nested bracket becomes `;`,
      and nothing else changes. */
  method CommasToSemicolons(eval: string) returns (r: string)
    ensures |r| == |eval|
    ensures forall k :: 0 <= k < |eval| ==>
              r[k] == (if k >= 1 && eval[k] == ',' && Depth(eval, k) == 0 then ';' else eval[k])
    ensures r == Semicolons(eval)
  {
    r := eval;
    if |eval| == 0 {
      return;
    }
    var depth := 0;
    var i := 1;
    while i < |r|
      invariant 1 <= i <= |eval| && |r| == |eval|
      invariant depth == Depth(eval, i)
      invariant forall k :: 0 <= k < i && k < |eval| ==>
                  r[k] == (if k >= 1 && eval[k] == ',' && Depth(eval, k) == 0 then ';' else eval[k])
      invariant forall k :: i <= k < |eval| ==> r[k] == eval[k]
    {
      if r[i] == '(' {
        depth := depth + 1;
      }
      if r[i] == ')' {
        depth := depth - 1;
      } else if r[i] == ',' && depth == 0 {
        r := r[..i] + [';'] + r[i + 1..];
      }
      i := i + 1;
    }
  }

  /** The comma scan keeps every parenthesis where it was. */
  lemma SemicolonsKeepParens(e: string)
    ensures ParenCount(Semicolons(e)) == ParenCount(e)
  {
    ParenCountSame(e, Semicolons(e));
  }

  /** The literal that replaces a single-valued group: an explicit `*` after
      an adjacent digit on the left, `_` for a negative value (a space
      otherwise), the magnitude as `double.ToString` writes it, and an
      explicit `*` before an adjacent digit on the right. A NaN is not
      negative and is written `NaN`. */
  function ValueLiteral(str: string, start: nat, end: nat, value: Eval, host: Host): (r: string)
    requires start < end < |str|
    ensures var star := start > 0 && IsDigit(str[start - 1]);
            |r| > (if star then 1 else 0) && (r[0] == '*' <==> star)
            && r[if star then 1 else 0] == (if Negative(value) then '_' else ' ')
  {
    var asteriskLeft := start > 0 && IsDigit(str[start - 1]);
    var asteriskRight := end + 1 < |str| && IsDigit(str[end + 1]);
    (if asteriskLeft then "*" else "") + (if Negative(value) then "_" else " ")
      + Show(Magnitude(value), host) + (if asteriskRight then "*" else "")
  }

  /** `Value < 0` on a double: false for NaN. */
  predicate Negative(v: Eval) { v.Num? && v.value < 0.0 }

  /** `Math.Abs` on a double. */
  function Magnitude(v: Eval): Eval { if v.Num? then Num(RealAbs(v.value)) else v }

  /** The text after a single-valued group is collapsed: everything outside
      the group is kept and the group becomes its value's literal. */
  function SimplifyValue(str: string, start: nat, end: nat, value: Eval, host: Host): (r: string)
    requires start < end < |str|
    ensures StartsWith(r, str[..start]) && EndsWith(r, str[end + 1..])
    ensures var star := start > 0 && IsDigit(str[start - 1]);
            |r| > (if star then start + 1 else start) && (r[start] == '*' <==> star)
            && r[if star then start + 1 else start] == (if Negative(value) then '_' else ' ')
  {
    str[..start] + ValueLiteral(str, start, end, value, host) + str[end + 1..]
  }

  /** The parentheses of a string split around the group `str[start..end]`,
      whose closing character is a `)`. */
  lemma ParenCountGroup(str: string, start: nat, end: nat)
    requires start < end < |str| && str[end] == ')'
    ensures ParenCount(str) == ParenCount(str[..start]) + (if IsParen(str[start]) then 1 else 0)
                               + ParenCount(str[start + 1..end]) + 1 + ParenCount(str[end + 1..])
  {
    var left, eval, right := str[..start], str[start + 1..end], str[end + 1..];
    assert str == left + [str[start]] + eval + [')'] + right;
    ParenCountAppend(left + [str[start]] + eval + [')'], right);
    ParenCountAppend(left + [str[start]] + eval, [')']);
    ParenCountAppend(left + [str[start]], eval);
    ParenCountAppend(left, [str[start]]);
  }

  /** Square brackets are not parentheses. */
  lemma ParenCountBracketed(left: string, mid: string, right: string)
    ensures ParenCount(left + "[" + mid + "]" + right) == ParenCount(left) + ParenCount(mid) + ParenCount(right)
  {
    ParenCountAppend(left + "[" + mid + "]", right);
    ParenCountAppend(left + "[" + mid, "]");
    ParenCountAppend(left + "[", mid);
    ParenCountAppend(left, "[");
  }

  /** The literal that replaces a group holds no parenthesis of its own. */
  lemma ParenCountValueLiteral(str: string, start: nat, end: nat, value: Eval, host: Host)
    requires start < end < |str| && ValidHost(host)
    ensures ParenCount(ValueLiteral(str, start, end, value, host)) == 0
  {
    var star1 := if start > 0 && IsDigit(str[start - 1]) then "*" else "";
    var sign := if Negative(value) then "_" else " ";
    var shown := Show(Magnitude(value), host);
    var star2 := if end + 1 < |str| && IsDigit(str[end + 1]) then "*" else "";
    if value.Num? {
      assert ParenCount(shown) == 0;
    } else {
      ParenFreeNaN(shown);
    }
    ParenFreeMark(star1);
    ParenFreeMark(sign);
    ParenFreeMark(star2);
    ParenCountAppend(star1, sign);
    ParenCountAppend(star1 + sign, shown);
    ParenCountAppend(star1 + sign + shown, star2);
  }

  /** Collapsing a single-valued group removes exactly its parentheses. */
  lemma ParenCountSimplified(str: string, start: nat, end: nat, value: Eval, host: Host)
    requires start < end < |str| && ValidHost(host)
    ensures ParenCount(SimplifyValue(str, start, end, value, host))
            == ParenCount(str[..start]) + ParenCount(str[end + 1..])
  {
    var mid := ValueLiteral(str, start, end, value, host);
    ParenCountValueLiteral(str, start, end, value, host);
    ParenCountAppend(str[..start] + mid, str[end + 1..]);
    ParenCountAppend(str[..start], mid);
  }

  lemma ParenFreeMark(s: string)
    requires s == "" || s == "*" || s == "_" || s == " "
    ensures ParenCount(s) == 0
  {
    if s != "" {
      assert s[..0] == "";
    }
  }

  lemma ParenFreeNaN(s: string)
    requires s == "NaN"
    ensures ParenCount(s) == 0
  {
    ParenCountZero(s);
  }

  /** The outcome of one rewrite of the expression. */
  datatype Rewrite = Rewritten(text: string) | Stopped(e: Eval)

  /** `Simplify(Str, Eval, Start, End, Result)`: collapses the group
      `Str[Start..End]`, whose contents are `Eval`. A group with a comma
      becomes a bracketed parameter list; any other group is evaluated and
      replaced by its value. Either way the text loses the group's `)`. */
  method Simplify(str: string, eval: string, start: nat, end: nat, res: MathResult, rng: Rng, host: Host)
    returns (out: Rewrite)
    requires start < end < |str| && str[end] == ')' && eval == str[start + 1..end]
    requires res.Valid() && ValidHost(host)
    modifies res, rng
    ensures res.Valid() && SinkGrows(res)
    ensures out.Rewritten? ==> |out.text| > 0 && ParenCount(out.text) < ParenCount(str)
    ensures out.Stopped? ==> Escapes(out.e) && !ContainsChar(eval, ',')
    ensures ContainsChar(eval, ',') ==> out == Rewritten(str[..start] + "[" + Semicolons(eval) + "]" + str[end + 1..])
                                        && res.ErrorFlag == old(res.ErrorFlag) && rng.pos == old(rng.pos)
    ensures !ContainsChar(eval, ',') && out.Rewritten? ==>
              exists v :: !Escapes(v) && out.text == SimplifyValue(str, start, end, v, host)
    ensures !ContainsChar(eval, ',') && ParenCount(eval) == 0 ==>
              var run := Evaluate(eval, 1.0, old(res.ErrorFlag), rng.draw, old(rng.pos), host);
              && (Escapes(run.e) ==> out == Stopped(run.e))
              && (!Escapes(run.e) ==> out == Rewritten(SimplifyValue(str, start, end, run.e, host))
                                      && res.ErrorFlag == run.flag && rng.pos == run.pos)
    decreases ParenCount(str), 0, 0
  {
    ParenCountGroup(str, start, end);
    if ContainsChar(eval, ',') {
      res.Echo("Parsing function parameters \"" + eval + "\"", str);
      var e' := CommasToSemicolons(eval);
      SemicolonsKeepParens(eval);
      ParenCountBracketed(str[..start], e', str[end + 1..]);
      return Rewritten(str[..start] + "[" + e' + "]" + str[end + 1..]);
    }
    var value := ProcessMath(eval, res, 1.0, rng, host);
    if Escapes(value) {
      return Stopped(value);
    }
    res.Echo("Parsing parentheses (" + eval + ") into (" + Show(value, host) + ")", str);
    ParenCountSimplified(str, start, end, value, host);
    return Rewritten(SimplifyValue(str, start, end, value, host));
  }

  /** The outcome of the parenthesis pre-pass. */
  datatype Resolution = Resolved(expr: string) | Halted(e: Eval)

  /** Both sides of a split of a parenthesis-free text are parenthesis-free. */
  lemma ParenCountSplit(a: string, i: nat)
    requires i < |a| && ParenCount(a) == 0
    ensures ParenCount(a[..i]) == 0 && ParenCount(a[i + 1..]) == 0
  {
    assert a == a[..i] + [a[i]] + a[i + 1..];
    ParenCountAppend(a[..i] + [a[i]], a[i + 1..]);
    ParenCountAppend(a[..i], [a[i]]);
  }

  /** The positions of the `(` among the first `n` characters, in order. */
  function Opens(a: string, n: nat): (r: seq<int>)
    requires n <= |a|
    ensures forall k :: 0 <= k < |r| ==> 0 <= r[k] < n && a[r[k]] == '('
  {
    if n == 0 then [] else Opens(a, n - 1) + (if a[n - 1] == '(' then [n - 1] else [])
  }

  /** One scan of the pre-pass: pushes every `(` met before the first `)`
      onto the stack and reports where that `)` is (-1 when there is none). */
  method FindClose(a: string, starts: seq<nat>) returns (close: int, pushed: seq<nat>)
    ensures -1 <= close < |a|
    ensures close >= 0 ==> a[close] == ')'
    ensures forall k :: 0 <= k < (if close < 0 then |a| else close) ==> a[k] != ')'
    ensures pushed == starts + Opens(a, if close < 0 then |a| else close)
    ensures close == IndexOf(a, ')') && pushed == ScanStack(a, starts)
  {
    var i := 0;
    pushed := starts;
    while i < |a| && a[i] != ')'
      invariant 0 <= i <= |a|
      invariant forall k :: 0 <= k < i ==> a[k] != ')'
      invariant pushed == starts + Opens(a, i)
    {
      if a[i] == '(' {
        pushed := pushed + [i];
      }
      i := i + 1;
    }
    close := if i < |a| then i else -1;
    FirstCloseIs(a, close);
  }

  /** A position before which there is no `)`, holding the first `)` when
      there is one, is where `IndexOf` finds it. */
  lemma FirstCloseIs(a: string, close: int)
    requires -1 <= close < |a| && (close >= 0 ==> a[close] == ')')
    requires forall k :: 0 <= k < (if close < 0 then |a| else close) ==> a[k] != ')'
    ensures close == IndexOf(a, ')')
  {
    IndexOfMissing(a, ')');
  }

  /** The stack after one scan: the positions left from earlier rounds, then
      every `(` before the first `)`. */
  function ScanStack(a: string, starts: seq<nat>): (r: seq<nat>)
    ensures var close := IndexOf(a, ')');
            r == starts + Opens(a, if close < 0 then |a| else close)
  {
    var close := IndexOf(a, ')');
    starts + Opens(a, if close < 0 then |a| else close)
  }

  /** A `(` before position `n` is listed by `Opens`, at or before its last
      entry. */
  lemma {:induction false} OpensCover(a: string, n: nat, k: nat)
    requires k < n <= |a| && a[k] == '('
    ensures |Opens(a, n)| > 0 && k <= Opens(a, n)[|Opens(a, n)| - 1]
    decreases n
  {
    if a[n - 1] != '(' {
      OpensCover(a, n - 1, k);
      assert Opens(a, n) == Opens(a, n - 1);
    }
  }

  /** The group a round collapses, from the top of the stack to the first
      `)`, holds no parenthesis: no `)` comes before that one, and every `(`
      before it was pushed on top of anything left from earlier rounds. */
  lemma GroupParenFree(a: string, starts: seq<nat>, close: nat)
    requires close == IndexOf(a, ')') && |ScanStack(a, starts)| > 0
    requires ScanStack(a, starts)[|ScanStack(a, starts)| - 1] < close
    ensures ParenCount(a[ScanStack(a, starts)[|ScanStack(a, starts)| - 1] + 1..close]) == 0
  {
    var stack := ScanStack(a, starts);
    var open := stack[|stack| - 1];
    var g := a[open + 1..close];
    forall k | 0 <= k < |g|
      ensures !IsParen(g[k])
    {
      assert g[k] == a[open + 1 + k];
      if a[open + 1 + k] == '(' {
        OpensCover(a, close, open + 1 + k);
      }
    }
    ParenCountZero(g);
  }

  /** One round of the pre-pass as a value: its outcome, the stack it leaves
      behind, and the error flag and draw position after it. */
  datatype Round = Round(out: Resolution, stack: seq<nat>, flag: bool, pos: nat)

  /** What one round does, starting from the stack `starts`, error flag
      `flag` and draw position `pos`: no `)` leaves the text as it is for
      ever; a `)` with an empty stack is an error yielding 1; a top of stack
      not before the `)` makes the slice throw; otherwise the group between
      them is collapsed and the top is popped. */
  function RoundOf(a: string, starts: seq<nat>, flag: bool, draw: nat -> nat, pos: nat, host: Host): (r: Round)
    requires ValidHost(host)
    ensures r.out.Resolved? ==> |r.out.expr| > 0 && ParenCount(r.out.expr) < ParenCount(a)
    ensures r.out.Halted? && r.out.e.Num? ==> r.out.e.value == 1.0 && r.flag
  {
    var close := IndexOf(a, ')');
    var stack := ScanStack(a, starts);
    if close < 0 then Round(Halted(Diverges), stack, flag, pos)
    else if |stack| == 0 then Round(Halted(Num(1.0)), stack, true, pos)
    else
      var open := stack[|stack| - 1];
      if open >= close then Round(Halted(Raised("ArgumentOutOfRangeException")), stack[..|stack| - 1], flag, pos)
      else
        GroupParenFree(a, starts, close);
        var g := GroupRound(a, open, close, flag, draw, pos, host);
        Round(g.out, stack[..|stack| - 1], g.flag, g.pos)
  }

  /** The collapse of the group from `open` to the `)` at `close` (the stack
      is left to the round): with a comma it becomes a bracketed parameter
      list; otherwise it is evaluated and becomes the literal of its value,
      unless the evaluation escapes. */
  function GroupRound(a: string, open: nat, close: nat, flag: bool, draw: nat -> nat, pos: nat, host: Host): (r: Round)
    requires open < close < |a| && a[close] == ')' && ValidHost(host)
    requires ContainsChar(a[open + 1..close], ',') || ParenCount(a[open + 1..close]) == 0
    ensures r.out.Resolved? ==> |r.out.expr| > 0 && ParenCount(r.out.expr) < ParenCount(a)
    ensures r.out.Halted? ==> Escapes(r.out.e)
  {
    var eval := a[open + 1..close];
    ParenCountGroup(a, open, close);
    if ContainsChar(eval, ',') then
      SemicolonsKeepParens(eval);
      ParenCountBracketed(a[..open], Semicolons(eval), a[close + 1..]);
      Round(Resolved(a[..open] + "[" + Semicolons(eval) + "]" + a[close + 1..]), [], flag, pos)
    else
      var run := Evaluate(eval, 1.0, flag, draw, pos, host);
      if Escapes(run.e) then Round(Halted(run.e), [], run.flag, run.pos)
      else
        ParenCountSimplified(a, open, close, run.e, host);
        Round(Resolved(SimplifyValue(a, open, close, run.e, host)), [], run.flag, run.pos)
  }

  /** A round on text with parentheses but no `)` leaves it as it is for
      ever, and one whose first `)` finds the stack empty halts with 1. */
  lemma RoundOfEnds(a: string, starts: seq<nat>, flag: bool, draw: nat -> nat, pos: nat, host: Host)
    requires ParenCount(a) > 0 && ValidHost(host)
    ensures !ContainsChar(a, ')') <==> IndexOf(a, ')') < 0
    ensures !ContainsChar(a, ')') ==>
              RoundOf(a, starts, flag, draw, pos, host) == Round(Halted(Diverges), ScanStack(a, starts), flag, pos)
              && ContainsChar(a, '(')
    ensures IndexOf(a, ')') >= 0 && ScanStack(a, starts) == [] ==>
              RoundOf(a, starts, flag, draw, pos, host) == Round(Halted(Num(1.0)), [], true, pos)
  {
    IndexOfMissing(a, ')');
    ParenWitness(a);
  }

  /** A round whose first `)` finds the stack non-empty pops its top: the
      slice throws when the top is not before the `)`, and otherwise the
      group between them collapses. */
  lemma RoundOfTop(a: string, starts: seq<nat>, flag: bool, draw: nat -> nat, pos: nat, host: Host, close: nat)
    requires ValidHost(host) && close == IndexOf(a, ')') && |ScanStack(a, starts)| > 0
    ensures var stack := ScanStack(a, starts);
            stack[|stack| - 1] >= close ==>
              RoundOf(a, starts, flag, draw, pos, host)
              == Round(Halted(Raised("ArgumentOutOfRangeException")), stack[..|stack| - 1], flag, pos)
    ensures var stack := ScanStack(a, starts);
            var open := stack[|stack| - 1];
            open < close ==>
              && ParenCount(a[open + 1..close]) == 0
              && var g := GroupRound(a, open, close, flag, draw, pos, host);
                 RoundOf(a, starts, flag, draw, pos, host) == Round(g.out, stack[..|stack| - 1], g.flag, g.pos)
  {
    var stack := ScanStack(a, starts);
    if stack[|stack| - 1] < close {
      GroupParenFree(a, starts, close);
    }
  }

  /** The whole pre-pass as a value: rounds until no parenthesis is left or
      a round halts, the stack carried from each round to the next. */
  function ResolveFrom(a: string, starts: seq<nat>, flag: bool, draw: nat -> nat, pos: nat, host: Host): (r: Round)
    requires |a| > 0 && ValidHost(host)
    ensures r.out.Resolved? ==> |r.out.expr| > 0 && ParenCount(r.out.expr) == 0
    ensures r.out.Halted? && r.out.e.Num? ==> r.out.e.value == 1.0 && r.flag
    decreases ParenCount(a)
  {
    if ParenCount(a) == 0 then Round(Resolved(a), starts, flag, pos)
    else
      var r := RoundOf(a, starts, flag, draw, pos, host);
      if r.out.Halted? then r else ResolveFrom(r.out.expr, r.stack, r.flag, draw, r.pos, host)
  }

  /** What `ProcessMath` computes for any expression: the neutral value for
      an empty one; otherwise the pre-pass, then the value of the term it
      leaves, starting from the flag and draw position the pre-pass left. */
  function Process(s: string, neutral: real, flag: bool, draw: nat -> nat, pos: nat, host: Host): Run
    requires ValidHost(host)
  {
    if s == [] then Run(Num(neutral), flag, pos)
    else
      var p := ResolveFrom(s, [], flag, draw, pos, host);
      if p.out.Halted? then Run(p.out.e, p.flag, p.pos)
      else EvaluateTerm(p.out.expr, p.flag, draw, p.pos, host)
  }

  /** The outcome is `r`'s; unless it escapes, so are the error flag and the
      draw position. */
  predicate Follows(out: Resolution, res: MathResult, rng: Rng, r: Round)
    reads res, rng
  {
    out == r.out && (!(out.Halted? && Escapes(out.e)) ==> res.ErrorFlag == r.flag && rng.pos == r.pos)
  }

  /** Without parentheses the pre-pass leaves the expression alone, and
      `Process` is the evaluation of parenthesis-free text. */
  lemma ProcessParenFree(s: string, neutral: real, flag: bool, draw: nat -> nat, pos: nat, host: Host)
    requires ValidHost(host) && ParenCount(s) == 0
    ensures Process(s, neutral, flag, draw, pos, host) == Evaluate(s, neutral, flag, draw, pos, host)
  {
  }

  /** When the first parenthesis of the expression is a `)`, the first round
      finds the stack empty: `ProcessMath` yields 1 with the error flag up
      and draws nothing. */
  lemma UnmatchedCloseHalts(s: string, neutral: real, flag: bool, draw: nat -> nat, pos: nat, host: Host)
    requires ValidHost(host) && IndexOf(s, ')') >= 0 && Opens(s, IndexOf(s, ')')) == []
    ensures ParenCount(s) > 0
    ensures ResolveFrom(s, [], flag, draw, pos, host) == Round(Halted(Num(1.0)), [], true, pos)
    ensures Process(s, neutral, flag, draw, pos, host) == Run(Num(1.0), true, pos)
  {
    ParenCountPositive(s, IndexOf(s, ')'));
    assert ScanStack(s, []) == [];
  }

  /** One round of the pre-pass: scans for the first `)`, pushing every `(`
      before it onto the stack, and collapses the group that the top of the
      stack opens. */
  method CollapseFirstGroup(a: string, starts: seq<nat>, res: MathResult, rng: Rng, host: Host)
    returns (out: Resolution, pushed: seq<nat>)
    requires ParenCount(a) > 0 && res.Valid() && ValidHost(host)
    modifies res, rng
    ensures res.Valid() && SinkGrows(res)
    ensures out.Resolved? ==> |out.expr| > 0 && ParenCount(out.expr) < ParenCount(a)
    ensures out.Halted? && out.e.Num? ==> out.e.value == 1.0 && res.ErrorFlag
    ensures !ContainsChar(a, ')') ==> out == Halted(Diverges) && ContainsChar(a, '(')
    ensures IndexOf(a, ')') >= 0 && ScanStack(a, starts) == [] ==> out == Halted(Num(1.0)) && res.ErrorFlag
    ensures Follows(out, res, rng, RoundOf(a, starts, old(res.ErrorFlag), rng.draw, old(rng.pos), host))
    ensures pushed == RoundOf(a, starts, old(res.ErrorFlag), rng.draw, old(rng.pos), host).stack
    decreases ParenCount(a), 0, 4
  {
    RoundOfEnds(a, starts, res.ErrorFlag, rng.draw, rng.pos, host);
    var close, scanned := FindClose(a, starts);
    if close < 0 {
      // The scan found no `)`: the expression still holds a `(`, is left
      // unchanged, and the same scan repeats for ever.
      return Halted(Diverges), scanned;
    }
    out, pushed := CollapseAt(a, starts, close, scanned, res, rng, host);
  }

  /** The round once its first `)` is found at `close`: an empty stack is
      the unbalanced-parenthesis error, yielding 1. */
  method CollapseAt(a: string, starts: seq<nat>, close: nat, scanned: seq<nat>, res: MathResult, rng: Rng, host: Host)
    returns (out: Resolution, pushed: seq<nat>)
    requires close == IndexOf(a, ')') && scanned == ScanStack(a, starts)
    requires ParenCount(a) > 0 && res.Valid() && ValidHost(host)
    modifies res, rng
    ensures res.Valid() && SinkGrows(res)
    ensures Follows(out, res, rng, RoundOf(a, starts, old(res.ErrorFlag), rng.draw, old(rng.pos), host))
    ensures pushed == RoundOf(a, starts, old(res.ErrorFlag), rng.draw, old(rng.pos), host).stack
    decreases ParenCount(a), 0, 3
  {
    if |scanned| == 0 {
      var r := res.ThrowError(UNBALANCED_CLOSING);
      return Halted(Num(r)), scanned;
    }
    out, pushed := CollapseTop(a, starts, close, scanned, res, rng, host);
  }

  /** The round once the stack is known to be non-empty: its top is popped;
      when it is not before the `)` the slice throws, and otherwise the
      group between them collapses. */
  method CollapseTop(a: string, starts: seq<nat>, close: nat, scanned: seq<nat>, res: MathResult, rng: Rng, host: Host)
    returns (out: Resolution, pushed: seq<nat>)
    requires close == IndexOf(a, ')') && scanned == ScanStack(a, starts) && |scanned| > 0
    requires res.Valid() && ValidHost(host)
    modifies res, rng
    ensures res.Valid() && SinkGrows(res)
    ensures Follows(out, res, rng, RoundOf(a, starts, old(res.ErrorFlag), rng.draw, old(rng.pos), host))
    ensures pushed == RoundOf(a, starts, old(res.ErrorFlag), rng.draw, old(rng.pos), host).stack
    decreases ParenCount(a), 0, 2
  {
    RoundOfTop(a, starts, res.ErrorFlag, rng.draw, rng.pos, host, close);
    ghost var round := RoundOf(a, starts, res.ErrorFlag, rng.draw, rng.pos, host);
    var open := scanned[|scanned| - 1];
    pushed := scanned[..|scanned| - 1];
    if open + 1 > close {
      return Halted(Raised("ArgumentOutOfRangeException")), pushed;
    }
    ghost var g := GroupRound(a, open, close, res.ErrorFlag, rng.draw, rng.pos, host);
    assert round == Round(g.out, pushed, g.flag, g.pos);
    out := CollapseGroup(a, open, close, res, rng, host);
  }

  /** The `Simplify` call of one round, on the group from `open` to the
      `)` at `close`: the text loses a parenthesis, or the evaluation of
      the group escapes; a group with a comma, or one without parentheses,
      is collapsed as `GroupRound` says. */
  method CollapseGroup(a: string, open: nat, close: nat, res: MathResult, rng: Rng, host: Host)
    returns (out: Resolution)
    requires open < close < |a| && a[close] == ')' && res.Valid() && ValidHost(host)
    modifies res, rng
    ensures res.Valid() && SinkGrows(res)
    ensures out.Resolved? ==> |out.expr| > 0 && ParenCount(out.expr) < ParenCount(a)
    ensures out.Halted? ==> Escapes(out.e)
    ensures ContainsChar(a[open + 1..close], ',') || ParenCount(a[open + 1..close]) == 0 ==>
              Follows(out, res, rng, GroupRound(a, open, close, old(res.ErrorFlag), rng.draw, old(rng.pos), host))
    decreases ParenCount(a), 0, 1
  {
    ParenCountPositive(a, close);
    var rewrite := Simplify(a, a[open + 1..close], open, close, res, rng, host);
    out := if rewrite.Stopped? then Halted(rewrite.e) else Resolved(rewrite.text);
  }

  /** The pre-pass of `ProcessMath`: while any parenthesis is left, collapse
      the first closed group, with a stack of `(` positions that is never
      reset between rounds. A `)` with an empty stack is an error; an
      expression with `(` but no `)` is scanned again forever. */
  method ResolveParentheses(arg: string, res: MathResult, rng: Rng, host: Host) returns (out: Resolution)
    requires |arg| > 0 && res.Valid() && ValidHost(host)
    modifies res, rng
    ensures res.Valid() && SinkGrows(res)
    ensures out.Resolved? ==> |out.expr| > 0 && ParenCount(out.expr) == 0
    ensures ParenCount(arg) == 0 ==> out == Resolved(arg) && unchanged(res) && unchanged(rng)
    ensures out.Halted? && out.e.Num? ==> out.e.value == 1.0 && res.ErrorFlag
    ensures IndexOf(arg, ')') >= 0 && Opens(arg, IndexOf(arg, ')')) == [] ==> out == Halted(Num(1.0)) && res.ErrorFlag
    ensures Follows(out, res, rng, ResolveFrom(arg, [], old(res.ErrorFlag), rng.draw, old(rng.pos), host))
    decreases ParenCount(arg), |arg|, 0
  {
    if IndexOf(arg, ')') >= 0 && Opens(arg, IndexOf(arg, ')')) == [] {
      UnmatchedCloseHalts(arg, 1.0, res.ErrorFlag, rng.draw, rng.pos, host);
    }
    if ParenCount(arg) == 0 {
      return Resolved(arg);
    }
    var a := arg;
    var starts: seq<nat> := [];
    ghost var entry := res.Snapshot();
    ghost var whole := ResolveFrom(arg, [], res.ErrorFlag, rng.draw, rng.pos, host);
    while ParenCount(a) > 0
      invariant |a| > 0 && ParenCount(a) <= ParenCount(arg)
      invariant res.Valid() && Extends(entry, res.Snapshot())
      invariant ResolveFrom(a, starts, res.ErrorFlag, rng.draw, rng.pos, host) == whole
      decreases ParenCount(a)
    {
      ghost var before := res.Snapshot();
      var round;
      round, starts := CollapseFirstGroup(a, starts, res, rng, host);
      ExtendsTransitive(entry, before, res.Snapshot());
      if round.Halted? {
        return round;
      }
      a := round.expr;
    }
    return Resolved(a);
  }

  // ===========================================================================
  // Reference evaluator
  // ===========================================================================

  /** An evaluation's outcome together with the error flag and the position
      in the draw stream it leaves behind. */
  datatype Run = Run(e: Eval, flag: bool, pos: nat)

  /** The length of the run of digits `s` starts with. */
  function DigitRun(s: string): (n: nat)
    ensures n <= |s|
    ensures forall k :: 0 <= k < n ==> IsDigit(s[k])
    ensures n < |s| ==> !IsDigit(s[n])
  {
    if s == [] || !IsDigit(s[0]) then 0 else 1 + DigitRun(s[1..])
  }

  /** The number written before a function name (`2` of `2sin`): the leading
      digits when something other than a digit follows them, and "" when
      the term does not start with a digit or is digits only. */
  function Multiplicand(s: string): (m: string)
    ensures m != "" ==> |m| < |s| && m == s[..|m|] && !IsDigit(s[|m|])
                        && forall k :: 0 <= k < |m| ==> IsDigit(m[k])
    ensures m == "" ==> s == [] || !IsDigit(s[0]) || forall k :: 0 <= k < |s| ==> IsDigit(s[k])
  {
    var n := DigitRun(s);
    if 0 < n < |s| then s[..n] else ""
  }

  /** A term with no operator left: the host's number parser, whose
      rejection is a `FormatException`. */
  function LeafValue(a: string, host: Host): (e: Eval)
    requires ValidHost(host)
    ensures !Escapes(e) <==> host.parse(a).Some?
    ensures Escapes(e) ==> e == Raised("FormatException")
  {
    match host.parse(a)
    case Some(x) => x
    case None => Raised("FormatException")
  }

  /** The value, error flag and draw position after one operator is applied
      to two doubles: an error yields 1 and raises the flag, a roll draws. */
  function Combined(op: char, A: Eval, B: Eval, flag: bool, draw: nat -> nat, pos: nat, host: Host): Run
    requires IsOperator(op) && !Escapes(A) && !Escapes(B)
  {
    match Combine(op, A, B, host)
    case Value(v, _) => Run(v, flag, pos)
    case Fail(_) => Run(Num(1.0), true, pos)
    case Dice(_) => Run(RollValue(A, B, draw, pos), flag || RollFails(A, B), pos + RollDraws(A, B))
  }

  /** What `ProcessMath` computes for a parenthesis-free expression, starting
      with error flag `flag` and draw position `pos`: the neutral value for
      an empty one, otherwise the value of the term. */
  function Evaluate(s: string, neutral: real, flag: bool, draw: nat -> nat, pos: nat, host: Host): Run
    requires ParenCount(s) == 0 && ValidHost(host)
    decreases |s|, 2
  {
    if s == [] then Run(Num(neutral), flag, pos) else EvaluateTerm(s, flag, draw, pos, host)
  }

  /** A non-empty parenthesis-free term: a split at the operator `Classify`
      picks; a factorial of the rounded operand, 1 with the flag raised once
      it overflows; or a number, after the multiplicand before a function
      name has been evaluated on its own, and 1 once the flag is raised. An
      exception or divergence ends the evaluation where it happens. */
  function EvaluateTerm(s: string, flag: bool, draw: nat -> nat, pos: nat, host: Host): Run
    requires s != [] && ParenCount(s) == 0 && ValidHost(host)
    decreases |s|, 1
  {
    match Classify(s)
    case Binary(tier, i) => EvaluateSplit(s, tier, i, flag, draw, pos, host)
    case FactorialOf =>
      ParenCountSplit(s, |s| - 1);
      var o := Evaluate(s[..|s| - 1], 1.0, flag, draw, pos, host);
      if Escapes(o.e) then o
      else if FactorialOverflows(o.e) then Run(Num(1.0), true, o.pos)
      else Run(Num(Fact(FactorialOperand(o.e)) as real), o.flag, o.pos)
    case Leaf =>
      var m := Multiplicand(s);
      if m == [] then ParseTerm(s, Run(Num(1.0), flag, pos), host)
      else
        ParenCountSplit(s, |m|);
        ParseTerm(s, Evaluate(m, 1.0, flag, draw, pos, host), host)
  }

  /** The number a term without operators stands for, once its multiplicand
      has run to `f`: 1 when the error flag is up, otherwise the parse. */
  function ParseTerm(s: string, f: Run, host: Host): Run
    requires ValidHost(host)
  {
    if Escapes(f.e) then f
    else Run(if f.flag then Num(1.0) else LeafValue(s, host), f.flag, f.pos)
  }

  /** A split at operator `i` of `tier`: the left side, then the right side
      (each with 0 or 1 as the value of an empty side), then the operator. */
  function EvaluateSplit(s: string, tier: Tier, i: nat, flag: bool, draw: nat -> nat, pos: nat, host: Host): Run
    requires ParenCount(s) == 0 && ValidHost(host) && Classify(s) == Binary(tier, i)
    decreases |s|, 0
  {
    ParenCountSplit(s, i);
    var neutral := if tier == AddSub then 0.0 else 1.0;
    var l := Evaluate(s[..i], neutral, flag, draw, pos, host);
    if Escapes(l.e) then l
    else
      var r := Evaluate(s[i + 1..], neutral, l.flag, draw, l.pos, host);
      if Escapes(r.e) then r
      else Combined(s[i], l.e, r.e, r.flag, draw, r.pos, host)
  }

  /** The outcome `e`, the error flag and the draw position are those of
      `run`; after an exception or divergence only the outcome matters. */
  predicate Matches(e: Eval, res: MathResult, rng: Rng, run: Run)
    reads res, rng
  {
    e == run.e && (!Escapes(e) ==> res.ErrorFlag == run.flag && rng.pos == run.pos)
  }

  // ===========================================================================
  // ProcessMath without its unfinished outer scan
  // ===========================================================================

  /** Evaluates an expression: empty gives the neutral value; otherwise
      parentheses are resolved, then the first tier present splits the
      expression at its rightmost operator, then a trailing `!`, and what is
      left is parsed as a number (1 once an error has been recorded). */
  method ProcessMath(arg: string, res: MathResult, neutral: real, rng: Rng, host: Host) returns (e: Eval)
    requires res.Valid() && ValidHost(host)
    modifies res, rng
    ensures res.Valid() && SinkGrows(res)
    ensures arg == "" ==> e == Num(neutral)
    ensures ParenCount(arg) == 0 ==>
              Matches(e, res, rng, Evaluate(arg, neutral, old(res.ErrorFlag), rng.draw, old(rng.pos), host))
    ensures Matches(e, res, rng, Process(arg, neutral, old(res.ErrorFlag), rng.draw, old(rng.pos), host))
    decreases ParenCount(arg), |arg|, 2
  {
    if ParenCount(arg) == 0 {
      ProcessParenFree(arg, neutral, res.ErrorFlag, rng.draw, rng.pos, host);
    }
    if arg == "" {
      return Num(neutral);
    }
    ghost var entry := res.Snapshot();
    var resolution := ResolveParentheses(arg, res, rng, host);
    if resolution.Halted? {
      return resolution.e;
    }
    ghost var resolved := res.Snapshot();
    e := EvaluateResolved(resolution.expr, res, rng, host);
    ExtendsTransitive(entry, resolved, res.Snapshot());
  }

  /** The part of `ProcessMath` after the parentheses are gone: a split at
      the rightmost operator of the first tier present, a trailing `!`, or
      a number. */
  method EvaluateResolved(a: string, res: MathResult, rng: Rng, host: Host) returns (e: Eval)
    requires |a| > 0 && ParenCount(a) == 0 && res.Valid() && ValidHost(host)
    modifies res, rng
    ensures res.Valid() && SinkGrows(res)
    ensures Matches(e, res, rng, EvaluateTerm(a, old(res.ErrorFlag), rng.draw, old(rng.pos), host))
    decreases 0, |a|, 1
  {
    match Classify(a)
    case Binary(tier, i) =>
      e := ProcessBinary(a, tier, i, res, rng, host);
    case FactorialOf =>
      ghost var entry := res.Snapshot();
      ParenCountSplit(a, |a| - 1);
      var A := ProcessMath(a[..|a| - 1], res, 1.0, rng, host);
      if Escapes(A) {
        return A;
      }
      ghost var operand := res.Snapshot();
      var v := Factorial(A, res, host);
      ExtendsTransitive(entry, operand, res.Snapshot());
      e := Num(v);
    case Leaf =>
      var m := Multiplicand(a);
      if m != [] {
        ghost var entry := res.Snapshot();
        res.Echo("Parsing function multiplicand \"" + m + "\"", a);
        ghost var echoed := res.Snapshot();
        ParenCountSplit(a, |m|);
        var factor := ProcessMath(m, res, 1.0, rng, host);
        ExtendsTransitive(entry, echoed, res.Snapshot());
        if Escapes(factor) {
          return factor;
        }
      }
      if res.ErrorFlag {
        return Num(1.0);
      }
      e := LeafValue(a, host);
  }

  /** A split at operator `i` of `tier`: both sides are evaluated, with 0 or
      1 as the neutral value of an empty side, and combined by the
      operator; an exception on either side ends the evaluation, a NaN goes
      on into the operator. */
  method ProcessBinary(a: string, tier: Tier, i: nat, res: MathResult, rng: Rng, host: Host) returns (e: Eval)
    requires |a| > 0 && ParenCount(a) == 0 && Classify(a) == Binary(tier, i)
    requires res.Valid() && ValidHost(host)
    modifies res, rng
    ensures res.Valid() && SinkGrows(res)
    ensures Matches(e, res, rng, EvaluateSplit(a, tier, i, old(res.ErrorFlag), rng.draw, old(rng.pos), host))
    decreases 0, |a|, 0
  {
    ghost var entry := res.Snapshot();
    ParenCountSplit(a, i);
    var neutralValue := if tier == AddSub then 0.0 else 1.0;
    var A := ProcessMath(a[..i], res, neutralValue, rng, host);
    if Escapes(A) {
      return A;
    }
    ghost var left := res.Snapshot();
    var B := ProcessMath(a[i + 1..], res, neutralValue, rng, host);
    ExtendsTransitive(entry, left, res.Snapshot());
    if Escapes(B) {
      return B;
    }
    ghost var right := res.Snapshot();
    e := Apply(a[i], A, B, a, res, rng, host);
    ExtendsTransitive(entry, right, res.Snapshot());
  }

  /** Combines the two values of a split: arithmetic with its trace step
      (none for `%`), the division-by-zero and zero-to-the-zero errors, and
      the dice operators. */
  method Apply(op: char, A: Eval, B: Eval, a: string, res: MathResult, rng: Rng, host: Host) returns (e: Eval)
    requires res.Valid() && IsOperator(op) && !Escapes(A) && !Escapes(B)
    modifies res, rng
    ensures res.Valid() && SinkGrows(res)
    ensures Matches(e, res, rng, Combined(op, A, B, old(res.ErrorFlag), rng.draw, old(rng.pos), host))
  {
    match Combine(op, A, B, host)
    case Value(v, note) =>
      if op != '%' {
        res.Echo(note, a);
      }
      e := v;
    case Fail(message) =>
      var r := res.ThrowError(message);
      e := Num(r);
    case Dice(verbose) =>
      e := Roll(A, B, res, rng, host, verbose);
  }

  /** `new MathResult(Arg)`: evaluates the expression with its spaces removed
      and keeps the double it yields. */
  method NewMathResult(arg: string, rng: Rng, host: Host) returns (res: MathResult, e: Eval)
    requires ValidHost(host)
    modifies rng
    ensures fresh(res) && res.Valid()
    ensures ParenCount(Replace(arg, " ", "")) == 0 ==>
              Matches(e, res, rng, Evaluate(Replace(arg, " ", ""), 1.0, false, rng.draw, old(rng.pos), host))
    ensures Matches(e, res, rng, Process(Replace(arg, " ", ""), 1.0, false, rng.draw, old(rng.pos), host))
    ensures !Escapes(e) ==> res.Result == e
  {
    res := new MathResult();
    e := ProcessMath(Replace(arg, " ", ""), res, 1.0, rng, host);
    if !Escapes(e) {
      res.Result := e;
    }
  }

  // ===========================================================================
  // Worked evaluations
  // ===========================================================================

  /** `1+2` is 3. */
  lemma OnePlusTwo(host: Host, draw: nat -> nat, pos: nat)
    requires ValidHost(host) && host.parse("1") == Some(Num(1.0)) && host.parse("2") == Some(Num(2.0))
    ensures ParenCount("1+2") == 0
    ensures Evaluate("1+2", 1.0, false, draw, pos, host) == Run(Num(3.0), false, pos)
  {
    ParenCountZero("1+2");
    SplitWitness("1+2", AddSub, 1);
    assert Classify("1+2") == Binary(AddSub, 1);
    assert "1+2"[..1] == "1" && "1+2"[2..] == "2";
  }

  /** `-5` is -5: the empty left side of the `-` counts 0. */
  lemma MinusFive(host: Host, draw: nat -> nat, pos: nat)
    requires ValidHost(host) && host.parse("5") == Some(Num(5.0))
    ensures ParenCount("-5") == 0
    ensures Evaluate("-5", 1.0, false, draw, pos, host) == Run(Num(-5.0), false, pos)
  {
    ParenCountZero("-5");
    SplitWitness("-5", AddSub, 0);
    assert Classify("-5") == Binary(AddSub, 0);
    assert "-5"[..0] == "" && "-5"[1..] == "5";
  }

  /** `2^3^2` is `(2^3)^2`. */
  lemma PowerChain(host: Host, draw: nat -> nat, pos: nat)
    requires ValidHost(host) && host.parse("2") == Some(Num(2.0)) && host.parse("3") == Some(Num(3.0))
    ensures ParenCount("2^3^2") == 0
    ensures Evaluate("2^3^2", 1.0, false, draw, pos, host) == Run(Num(host.pow(host.pow(2.0, 3.0), 2.0)), false, pos)
  {
    ParenCountZero("2^3^2");
    PowerIsLeftAssociative();
    var s := "2^3^2";
    assert s[..3] == "2^3" && s[4..] == "2";
    TwoPowThree(1.0, host, draw, pos);
    Two(host, draw, pos);
    var p := host.pow(2.0, 3.0);
    EvaluateSplitStep(s, Power, 3, 1.0, false, draw, pos, host, Run(Num(p), false, pos), Run(Num(2.0), false, pos));
    assert Combine('^', Num(p), Num(2.0), host).v == Num(host.pow(p, 2.0));
  }

  /** One split of the reference evaluator, once both sides are known. */
  lemma EvaluateSplitStep(s: string, tier: Tier, i: nat, neutral: real, flag: bool, draw: nat -> nat, pos: nat,
                          host: Host, l: Run, r: Run)
    requires ParenCount(s) == 0 && ValidHost(host) && Classify(s) == Binary(tier, i)
    requires ParenCount(s[..i]) == 0 && ParenCount(s[i + 1..]) == 0
    requires l == Evaluate(s[..i], if tier == AddSub then 0.0 else 1.0, flag, draw, pos, host) && !Escapes(l.e)
    requires r == Evaluate(s[i + 1..], if tier == AddSub then 0.0 else 1.0, l.flag, draw, l.pos, host)
    requires !Escapes(r.e)
    ensures Evaluate(s, neutral, flag, draw, pos, host) == Combined(s[i], l.e, r.e, r.flag, draw, r.pos, host)
  {
    assert Evaluate(s, neutral, flag, draw, pos, host) == EvaluateTerm(s, flag, draw, pos, host);
    assert EvaluateTerm(s, flag, draw, pos, host) == EvaluateSplit(s, tier, i, flag, draw, pos, host);
  }

  lemma Two(host: Host, draw: nat -> nat, pos: nat)
    requires ValidHost(host) && host.parse("2") == Some(Num(2.0))
    ensures ParenCount("2") == 0
    ensures Evaluate("2", 1.0, false, draw, pos, host) == Run(Num(2.0), false, pos)
  {
    ParenCountZero("2");
    assert Classify("2") == Leaf;
    assert Multiplicand("2") == "";
  }

  lemma TwoPowThree(neutral: real, host: Host, draw: nat -> nat, pos: nat)
    requires ValidHost(host) && host.parse("2") == Some(Num(2.0)) && host.parse("3") == Some(Num(3.0))
    ensures ParenCount("2^3") == 0
    ensures Evaluate("2^3", neutral, false, draw, pos, host) == Run(Num(host.pow(2.0, 3.0)), false, pos)
  {
    ParenCountZero("2^3");
    SplitWitness("2^3", Power, 1);
    assert Classify("2^3") == Binary(Power, 1);
    assert "2^3"[..1] == "2" && "2^3"[2..] == "3";
  }

  lemma ZeroPowZero(neutral: real, host: Host, draw: nat -> nat, pos: nat)
    requires ValidHost(host) && host.parse("0") == Some(Num(0.0))
    ensures ParenCount("0^0") == 0
    ensures Evaluate("0^0", neutral, false, draw, pos, host) == Run(Num(1.0), true, pos)
  {
    ParenCountZero("0^0");
    SplitWitness("0^0", Power, 1);
    assert Classify("0^0") == Binary(Power, 1);
    assert "0^0"[..1] == "0" && "0^0"[2..] == "0";
  }

  /** `1/0` is the error value 1 with the error flag raised. */
  lemma DivideByZero(host: Host, draw: nat -> nat, pos: nat)
    requires ValidHost(host) && host.parse("1") == Some(Num(1.0)) && host.parse("0") == Some(Num(0.0))
    ensures ParenCount("1/0") == 0
    ensures Evaluate("1/0", 1.0, false, draw, pos, host) == Run(Num(1.0), true, pos)
  {
    ParenCountZero("1/0");
    SplitWitness("1/0", MulDiv, 1);
    assert Classify("1/0") == Binary(MulDiv, 1);
    assert "1/0"[..1] == "1" && "1/0"[2..] == "0";
  }

  /** A NaN does not stop the evaluation: in `5%0+0^0` the remainder is NaN,
      the right side is still evaluated and raises the zero-to-the-zero
      error, and the sum is NaN. */
  lemma NaNGoesOn(host: Host, draw: nat -> nat, pos: nat)
    requires ValidHost(host) && host.parse("5") == Some(Num(5.0)) && host.parse("0") == Some(Num(0.0))
    ensures ParenCount("5%0+0^0") == 0
    ensures Evaluate("5%0+0^0", 1.0, false, draw, pos, host) == Run(NaN, true, pos)
  {
    var s := "5%0+0^0";
    NaNGoesOnSplit();
    FiveRemZero(host, draw, pos);
    ZeroPowZero(0.0, host, draw, pos);
    EvaluateSplitStep(s, AddSub, 3, 1.0, false, draw, pos, host, Run(NaN, false, pos), Run(Num(1.0), true, pos));
    assert Combine('+', NaN, Num(1.0), host).v == NaN;
  }

  /** `5%0+0^0` splits at its `+`, into `5%0` and `0^0`. */
  lemma NaNGoesOnSplit()
    ensures ParenCount("5%0+0^0") == 0 && Classify("5%0+0^0") == Binary(AddSub, 3)
    ensures "5%0+0^0"[..3] == "5%0" && "5%0+0^0"[4..] == "0^0"
  {
    var s := "5%0+0^0";
    ParenCountZero(s);
    assert s[2] == '0' && s[3] == '+' && SplitsAt(s, AddSub, 3);
    assert !SplitsAt(s, AddSub, 6) && !SplitsAt(s, AddSub, 5) && !SplitsAt(s, AddSub, 4);
    assert LastSplit(s, AddSub, 7) == 3;
    assert Classify(s) == Binary(AddSub, 3);
    assert s[..3] == "5%0" && s[4..] == "0^0";
  }

  lemma FiveRemZero(host: Host, draw: nat -> nat, pos: nat)
    requires ValidHost(host) && host.parse("5") == Some(Num(5.0)) && host.parse("0") == Some(Num(0.0))
    ensures ParenCount("5%0") == 0
    ensures Evaluate("5%0", 0.0, false, draw, pos, host) == Run(NaN, false, pos)
  {
    ParenCountZero("5%0");
    SplitWitness("5%0", DiceRem, 1);
    assert Classify("5%0") == Binary(DiceRem, 1);
    assert "5%0"[..1] == "5" && "5%0"[2..] == "0";
  }
}
