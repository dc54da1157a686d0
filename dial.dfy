// Day 1: a dial numbered 0..99 that starts at 50 and is turned left or right
// by a number of clicks. Part 1 counts the turns that end on 0, part 2 every
// click that passes 0, by a closed form.

module Dial {
  import opened Wrappers
  import opened Text

  /** One parsed line: its first character, -1 for 'L' and +1 for any other
      letter, and `parseInt` of the rest (`None` is `NaN`). */
  datatype Instruction = Instruction(direction: char, directionVal: int, turnCounts: Option<int>)

  /** The dial position; `None` is the `NaN` a `NaN` turn count leaves behind. */
  type Position = Option<int>

  const START: int := 50

  // ---------------------------------------------------------------------------
  // parseInstructions

  function ParseInstruction(line: String): (ins: Instruction)
    requires |line| > 0
    ensures ins.direction == line[0]
    ensures ins.directionVal == (if line[0] == 'L' then -1 else 1)
    ensures ins.turnCounts == ParseInt(line[1..])
  {
    var direction := line[0];
    Instruction(direction, if direction == 'L' then -1 else 1, ParseInt(line[1..]))
  }

  /** One instruction per non-blank line, trimmed, in order. */
  function ParseInstructions(input: String): (instructions: seq<Instruction>)
    ensures |instructions| == |TrimmedNonEmpty(input, "\n")|
    ensures forall k :: 0 <= k < |instructions| ==>
              instructions[k] == ParseInstruction(TrimmedNonEmpty(input, "\n")[k])
  {
    var lines := TrimmedNonEmpty(input, "\n");
    seq(|lines|, k requires 0 <= k < |lines| => ParseInstruction(lines[k]))
  }

  // ---------------------------------------------------------------------------
  // turning the dial

  /** JavaScript's `a % b` for `b > 0`: the remainder takes the sign of `a`. */
  function JsRem(a: int, b: int): (r: int)
    requires b > 0
    ensures -b < r < b
    ensures a >= 0 ==> r >= 0
    ensures a < 0 ==> r <= 0
  {
    if a >= 0 then a % b else -((-a) % b)
  }

  /** `p % 100`, then `+ 100` when negative. */
  function Wrap(p: int): int
  {
    var r := JsRem(p, 100);
    if r < 0 then r + 100 else r
  }

  /** Wrapping is the mathematical residue modulo 100. */
  lemma WrapIsResidue(p: int)
    ensures Wrap(p) == p % 100
    ensures 0 <= Wrap(p) <= 99
  {
    if p < 0 {
      var q := (-p) / 100;
      var m := (-p) % 100;
      assert -p == 100 * q + m;
      if m == 0 {
        assert p == 100 * (-q);
      } else {
        assert p == 100 * (-q - 1) + (100 - m);
      }
    }
  }

  /** The position after one instruction, as both parts compute it. */
  function Rotate(position: Position, ins: Instruction): Position
  {
    if position.None? || ins.turnCounts.None? then None
    else Some(Wrap(position.value + ins.directionVal * ins.turnCounts.value))
  }

  /** A rotation from a number by a number ends on the residue modulo 100 of
      `start + directionVal * turnCounts`; `NaN` on either side stays `NaN`. */
  lemma RotateInRange(position: Position, ins: Instruction)
    ensures Rotate(position, ins).Some? <==> position.Some? && ins.turnCounts.Some?
    ensures Rotate(position, ins).Some? ==>
              0 <= Rotate(position, ins).value <= 99
              && Rotate(position, ins).value == (position.value + ins.directionVal * ins.turnCounts.value) % 100
  {
    if position.Some? && ins.turnCounts.Some? {
      WrapIsResidue(position.value + ins.directionVal * ins.turnCounts.value);
    }
  }

  /** The positions after each instruction, starting from `position`. */
  function Positions(instructions: seq<Instruction>, position: Position): (ps: seq<Position>)
    ensures |ps| == |instructions|
    decreases |instructions|
  {
    if |instructions| == 0 then []
    else
      var next := Rotate(position, instructions[0]);
      [next] + Positions(instructions[1..], next)
  }

  /** The dial starts at 50 and, while it holds a number, it holds one in 0..99. */
  lemma {:induction false} PositionsInRange(instructions: seq<Instruction>, position: Position, k: nat)
    requires position.Some? ==> 0 <= position.value <= 99
    requires k < |instructions|
    ensures Positions(instructions, position)[k].Some? ==> 0 <= Positions(instructions, position)[k].value <= 99
    decreases k
  {
    var next := Rotate(position, instructions[0]);
    RotateInRange(position, instructions[0]);
    if k > 0 {
      PositionsInRange(instructions[1..], next, k - 1);
    }
  }

  // ---------------------------------------------------------------------------
  // part 1

  /** The number of instructions that end on 0. */
  function ZeroEnds(instructions: seq<Instruction>, position: Position): nat
    decreases |instructions|
  {
    if |instructions| == 0 then 0
    else
      var next := Rotate(position, instructions[0]);
      (if next == Some(0) then 1 else 0) + ZeroEnds(instructions[1..], next)
  }

  /** The number of entries of `xs` equal to `x`. */
  function Occurrences<T(==)>(xs: seq<T>, x: T): (n: nat)
    ensures n <= |xs|
  {
    if |xs| == 0 then 0 else (if xs[0] == x then 1 else 0) + Occurrences(xs[1..], x)
  }

  /** `ZeroEnds` counts exactly the positions after each instruction that are 0. */
  lemma {:induction false} ZeroEndsCountsPositions(instructions: seq<Instruction>, position: Position)
    ensures ZeroEnds(instructions, position) == Occurrences(Positions(instructions, position), Some(0))
    decreases |instructions|
  {
    if |instructions| > 0 {
      var next := Rotate(position, instructions[0]);
      ZeroEndsCountsPositions(instructions[1..], next);
      assert Positions(instructions, position)[1..] == Positions(instructions[1..], next);
    }
  }

  /** The loop of part 1: turn the dial once per instruction and count the
      times it comes to rest on 0. */
  method SolveForFirstStar(input: String) returns (solution: nat)
    ensures solution == ZeroEnds(ParseInstructions(input), Some(START))
  {
    var instructions := ParseInstructions(input);
    solution := CountZeroEnds(instructions);
  }

  /** The `for` loop of part 1 over the parsed instructions. */
  method CountZeroEnds(instructions: seq<Instruction>) returns (solution: nat)
    ensures solution == ZeroEnds(instructions, Some(START))
  {
    var zeroCount := 0;
    var dialPosition: Position := Some(START);
    var i := 0;
    while i < |instructions|
      invariant 0 <= i <= |instructions|
      invariant zeroCount + ZeroEnds(instructions[i..], dialPosition) == ZeroEnds(instructions, Some(START))
    {
      var instruction := instructions[i];
      assert instructions[i..][1..] == instructions[i + 1..];
      if dialPosition.Some? && instruction.turnCounts.Some? {
        var p := dialPosition.value + instruction.directionVal * instruction.turnCounts.value;
        p := JsRem(p, 100);
        if p < 0 {
          p := p + 100;
        }
        dialPosition := Some(p);
      } else {
        dialPosition := None;
      }
      if dialPosition == Some(0) {
        zeroCount := zeroCount + 1;
      }
      i := i + 1;
    }
    solution := zeroCount;
  }

  // ---------------------------------------------------------------------------
  // part 2

  /** The clicks after which a turn from `start` in direction `directionVal`
      first shows 0: `(100 - start) % 100` to the right, `start % 100` to the
      left, with 0 meaning a full turn of 100. */
  function FirstZero(start: int, directionVal: int): int
  {
    var f := if directionVal == 1 then JsRem(100 - start, 100) else JsRem(start, 100);
    if f == 0 then 100 else f
  }

  /** Whether the dial shows 0 after `k` clicks from `start`. */
  predicate ShowsZero(start: int, directionVal: int, k: int)
  {
    (start + directionVal * k) % 100 == 0
  }

  /** From a position on the dial, `firstZero` lies in 1..100 and is the
      first click that shows 0. */
  lemma FirstZeroIsFirst(start: int, directionVal: int)
    requires 0 <= start <= 99 && (directionVal == 1 || directionVal == -1)
    ensures 1 <= FirstZero(start, directionVal) <= 100
    ensures ShowsZero(start, directionVal, FirstZero(start, directionVal))
    ensures forall k :: 1 <= k < FirstZero(start, directionVal) ==> !ShowsZero(start, directionVal, k)
  {
    var f := FirstZeroValue(start, directionVal);
    ShowsZeroIff(start, directionVal, f);
    forall k | 1 <= k < f
      ensures !ShowsZero(start, directionVal, k)
    {
      ShowsZeroIff(start, directionVal, k);
    }
  }

  /** A click `k` shows 0 exactly when it is `firstZero` plus whole turns. */
  lemma ShowsZeroIff(start: int, directionVal: int, k: int)
    requires 0 <= start <= 99 && (directionVal == 1 || directionVal == -1) && k >= 1
    ensures ShowsZero(start, directionVal, k) <==>
              k >= FirstZero(start, directionVal) && (k - FirstZero(start, directionVal)) % 100 == 0
  {
    var f := FirstZeroValue(start, directionVal);
    var x := k - f;
    if directionVal == 1 {
      assert start + directionVal * k == x + 100;
      DivisibleShifted(x);
    } else if start > 0 {
      assert start + directionVal * k == -x;
      DivisibleNegated(x);
    } else {
      assert start + directionVal * k == -(x + 100);
      DivisibleNegated(x + 100);
      DivisibleShifted(x);
    }
    if k < f {
      NotDivisibleBelow(x);
    }
  }

  /** `firstZero` written out: the clicks to 0 are `100 - start` to the right and
      `start` to the left, a full turn from 0 itself. */
  lemma FirstZeroValue(start: int, directionVal: int) returns (f: int)
    requires 0 <= start <= 99
    ensures f == FirstZero(start, directionVal)
    ensures f == if start == 0 then 100 else if directionVal == 1 then 100 - start else start
  {
    f := FirstZero(start, directionVal);
  }

  lemma DivisibleNegated(x: int)
    ensures x % 100 == 0 <==> (-x) % 100 == 0
  {
    if x % 100 == 0 {
      assert -x == 100 * (-(x / 100));
    }
    if (-x) % 100 == 0 {
      assert x == 100 * (-((-x) / 100));
    }
  }

  lemma DivisibleShifted(x: int)
    ensures x % 100 == 0 <==> (x + 100) % 100 == 0
  {
    if x % 100 == 0 {
      assert x + 100 == 100 * (x / 100 + 1);
    }
    if (x + 100) % 100 == 0 {
      assert x == 100 * ((x + 100) / 100 - 1);
    }
  }

  lemma NotDivisibleBelow(x: int)
    requires -100 < x < 0
    ensures x % 100 != 0
  {
  }

  /** The number of clicks among the first `t` that show 0. */
  function ZeroClicks(start: int, directionVal: int, t: int): nat
    decreases t
  {
    if t <= 0 then 0
    else ZeroClicks(start, directionVal, t - 1) + (if ShowsZero(start, directionVal, t) then 1 else 0)
  }

  /** The closed form of part 2: `1 + floor((turnCounts - firstZero) / 100)`
      once `turnCounts` reaches `firstZero`, otherwise 0. */
  function PassesZero(firstZero: int, turnCounts: int): nat
  {
    if 0 < firstZero <= turnCounts then 1 + (turnCounts - firstZero) / 100 else 0
  }

  /** The closed form counts every click of the turn that shows 0. */
  lemma {:induction false} PassesZeroCounts(start: int, directionVal: int, t: int)
    requires 0 <= start <= 99 && (directionVal == 1 || directionVal == -1)
    ensures PassesZero(FirstZero(start, directionVal), t) == ZeroClicks(start, directionVal, t)
    decreases t
  {
    var f := FirstZero(start, directionVal);
    FirstZeroIsFirst(start, directionVal);
    if t > 0 {
      PassesZeroCounts(start, directionVal, t - 1);
      ShowsZeroIff(start, directionVal, t);
      if t > f {
        var q := (t - 1 - f) / 100;
        var m := (t - 1 - f) % 100;
        assert t - f == 100 * q + m + 1;
        if m == 99 {
          assert t - f == 100 * (q + 1);
        } else {
          assert (t - f) / 100 == q && (t - f) % 100 == m + 1;
        }
      }
    }
  }

  /** The clicks one instruction adds to part 2's count; any `NaN` gives 0. */
  function TurnsPastZero(position: Position, ins: Instruction): nat
  {
    if position.None? || ins.turnCounts.None? then 0
    else PassesZero(FirstZero(position.value, ins.directionVal), ins.turnCounts.value)
  }

  /** From a position on the dial, an instruction adds the number of its
      clicks that show 0. */
  lemma TurnsPastZeroCounts(start: int, ins: Instruction)
    requires 0 <= start <= 99 && (ins.directionVal == 1 || ins.directionVal == -1) && ins.turnCounts.Some?
    ensures TurnsPastZero(Some(start), ins) == ZeroClicks(start, ins.directionVal, ins.turnCounts.value)
    ensures TurnsPastZero(Some(start), ins) == |set k | 1 <= k <= ins.turnCounts.value && ShowsZero(start, ins.directionVal, k)|
  {
    PassesZeroCounts(start, ins.directionVal, ins.turnCounts.value);
    ZeroClicksIsCount(start, ins.directionVal, ins.turnCounts.value);
  }

  /** `ZeroClicks` is the size of the set of clicks that show 0. */
  lemma {:induction false} ZeroClicksIsCount(start: int, directionVal: int, t: int)
    ensures ZeroClicks(start, directionVal, t) == |set k | 1 <= k <= t && ShowsZero(start, directionVal, k)|
    decreases t
  {
    var s := set k | 1 <= k <= t && ShowsZero(start, directionVal, k);
    if t <= 0 {
      assert s == {};
    } else {
      ZeroClicksIsCount(start, directionVal, t - 1);
      var s0 := set k | 1 <= k <= t - 1 && ShowsZero(start, directionVal, k);
      if ShowsZero(start, directionVal, t) {
        assert s == s0 + {t};
      } else {
        assert s == s0;
      }
    }
  }

  /** The sum of part 2 over the instructions. */
  function ZeroPasses(instructions: seq<Instruction>, position: Position): nat
    decreases |instructions|
  {
    if |instructions| == 0 then 0
    else TurnsPastZero(position, instructions[0]) + ZeroPasses(instructions[1..], Rotate(position, instructions[0]))
  }

  /** Part 2 counts every click that shows 0, over all instructions whose
      turn count and starting position are numbers. */
  lemma {:induction false} ZeroPassesCountsClicks(instructions: seq<Instruction>, position: Position)
    requires position.Some? ==> 0 <= position.value <= 99
    requires forall k :: 0 <= k < |instructions| ==> instructions[k].directionVal == 1 || instructions[k].directionVal == -1
    ensures ZeroPasses(instructions, position) == ClicksOf(instructions, position)
    decreases |instructions|
  {
    if |instructions| > 0 {
      var ins := instructions[0];
      RotateInRange(position, ins);
      ZeroPassesCountsClicks(instructions[1..], Rotate(position, ins));
      if position.Some? && ins.turnCounts.Some? {
        PassesZeroCounts(position.value, ins.directionVal, ins.turnCounts.value);
      }
    }
  }

  /** The independent count: for each instruction, the clicks among its
      turn that show 0. */
  function ClicksOf(instructions: seq<Instruction>, position: Position): nat
    decreases |instructions|
  {
    if |instructions| == 0 then 0
    else
      var ins := instructions[0];
      (if position.None? || ins.turnCounts.None? then 0
       else ZeroClicks(position.value, ins.directionVal, ins.turnCounts.value))
      + ClicksOf(instructions[1..], Rotate(position, ins))
  }

  /** Every parsed instruction turns by one click at a time, left or right. */
  lemma DirectionsAreUnit(input: String)
    ensures forall k :: 0 <= k < |ParseInstructions(input)| ==>
              ParseInstructions(input)[k].directionVal == 1 || ParseInstructions(input)[k].directionVal == -1
  {
  }

  /** The loop of part 2: add each instruction's closed-form count of clicks
      past 0, then turn the dial. */
  method SolveForSecondStar(input: String) returns (solution: nat)
    ensures solution == ZeroPasses(ParseInstructions(input), Some(START))
    ensures solution == ClicksOf(ParseInstructions(input), Some(START))
  {
    var instructions := ParseInstructions(input);
    solution := CountZeroPasses(instructions);
    DirectionsAreUnit(input);
    ZeroPassesCountsClicks(instructions, Some(START));
  }

  /** The `for` loop of part 2 over the parsed instructions. */
  method CountZeroPasses(instructions: seq<Instruction>) returns (solution: nat)
    ensures solution == ZeroPasses(instructions, Some(START))
  {
    var zeroCount := 0;
    var dialPosition: Position := Some(START);
    var i := 0;
    while i < |instructions|
      invariant 0 <= i <= |instructions|
      invariant zeroCount + ZeroPasses(instructions[i..], dialPosition) == ZeroPasses(instructions, Some(START))
    {
      var instruction := instructions[i];
      assert instructions[i..][1..] == instructions[i + 1..];
      var dialTurnsPastZero := 0;
      if dialPosition.Some? && instruction.turnCounts.Some? {
        var instructionStart := dialPosition.value;
        var turnCounts := instruction.turnCounts.value;
        var firstZero;
        if instruction.directionVal == 1 {
          firstZero := JsRem(100 - instructionStart, 100);
          if firstZero == 0 {
            firstZero := 100;
          }
        } else {
          firstZero := JsRem(instructionStart, 100);
          if firstZero == 0 {
            firstZero := 100;
          }
        }
        if firstZero > 0 && firstZero <= turnCounts {
          dialTurnsPastZero := 1 + (turnCounts - firstZero) / 100;
        }
        var p := JsRem(instructionStart + instruction.directionVal * turnCounts, 100);
        if p < 0 {
          p := p + 100;
        }
        dialPosition := Some(p);
      } else {
        dialPosition := None;
      }
      zeroCount := zeroCount + dialTurnsPastZero;
      i := i + 1;
    }
    solution := zeroCount;
  }
}
