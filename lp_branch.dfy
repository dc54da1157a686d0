/** Branch-and-bound over the linear-program solver of
    solutions/day10/lpsolver.js: `findFractionalIndex` picks the variable to
    branch on, `solveIntegerProgram` keeps the best integral solution found. */
module LpBranch {
  import opened Wrappers
  import opened LpModel
  import opened LpSimplex

  /** `Math.round`: the nearest integer, halves rounded up. */
  function Round(v: real): (r: int)
    ensures v - 0.5 < r as real <= v + 0.5
  {
    (v + 0.5).Floor
  }

  /** `Math.ceil` */
  function Ceil(v: real): (r: int)
    ensures v <= r as real < v + 1.0
  {
    -((-v).Floor)
  }

  /** `Math.abs(value - Math.round(value))`: the distance to the nearest integer. */
  function Fraction(v: real): (r: real)
    ensures 0.0 <= r <= 0.5
  {
    Abs(v - Round(v) as real)
  }

  /** Every value lies within EPSILON of an integer. */
  predicate Integral(values: seq<real>)
  {
    forall i :: 0 <= i < |values| ==> Fraction(values[i]) <= EPSILON
  }

  /** `findFractionalIndex`: -1 when every value is integral up to EPSILON,
      otherwise the first index of the largest distance to an integer. */
  method FindFractionalIndex(values: seq<real>) returns (index: int)
    ensures index == -1 <==> Integral(values)
    ensures index != -1 ==>
              0 <= index < |values| && Fraction(values[index]) > EPSILON
              && (forall i :: 0 <= i < |values| ==> Fraction(values[i]) <= Fraction(values[index]))
              && (forall i :: 0 <= i < index ==> Fraction(values[i]) < Fraction(values[index]))
  {
    index := -1;
    var maxFraction := 0.0;
    var i := 0;
    while i < |values|
      invariant 0 <= i <= |values|
      invariant -1 <= index < i
      invariant index == -1 <==> forall k :: 0 <= k < i ==> Fraction(values[k]) <= EPSILON
      invariant index == -1 ==> maxFraction == 0.0
      invariant index != -1 ==> maxFraction == Fraction(values[index]) && maxFraction > EPSILON
      invariant forall k :: 0 <= k < i ==> Fraction(values[k]) <= maxFraction || Fraction(values[k]) <= EPSILON
      invariant index != -1 ==> forall k :: 0 <= k < index ==> Fraction(values[k]) < maxFraction
    {
      var fractional := Fraction(values[i]);
      if fractional > EPSILON && fractional > maxFraction {
        maxFraction := fractional;
        index := i;
      }
      i := i + 1;
    }
  }

  /** The best integral solution found so far (`bestSolution`). */
  datatype Incumbent = Incumbent(solution: seq<real>, objective: real)

  /** An incumbent fit for a model with `numVars` variables: the right length and integral. */
  predicate Acceptable(best: Option<Incumbent>, numVars: nat)
  {
    best.Some? ==> |best.value.solution| == numVars && Integral(best.value.solution)
  }

  /** The incumbent only ever changes to one whose objective is lower by more than EPSILON. */
  predicate Improves(before: Option<Incumbent>, after: Option<Incumbent>)
  {
    after == before || (after.Some? && (before.Some? ==> after.value.objective < before.value.objective - EPSILON))
  }

  /** `branch`: solve the relaxation, prune it against the incumbent, record it
      when integral, and otherwise branch on `x <= floor` (only when the floor
      is not negative) and then on `x >= ceil`. `complete` is false when some
      branch ran out of fuel; each level of branching and each LP solve
      receives the remaining fuel. */
  method Branch(current: Model, best: Option<Incumbent>, fuel: nat) returns (newBest: Option<Incumbent>, complete: bool)
    requires WellFormed(current) && Acceptable(best, current.numVars)
    ensures Acceptable(newBest, current.numVars)
    ensures Improves(best, newBest)
    decreases fuel
  {
    newBest := best;
    if fuel == 0 {
      return best, false;
    }
    var lpResult := SolveLinearProgram(current, fuel);
    if lpResult.Exhausted? {
      return best, false;
    }
    if lpResult.Infeasible? {
      return best, true;
    }
    if best.Some? && lpResult.objective >= best.value.objective - EPSILON {
      return best, true;
    }
    var fractionalIndex := FindFractionalIndex(lpResult.solution);
    if fractionalIndex == -1 {
      if best.None? || lpResult.objective < best.value.objective - EPSILON {
        newBest := Some(Incumbent(lpResult.solution, lpResult.objective));
      }
      return newBest, true;
    }
    var value := lpResult.solution[fractionalIndex];
    var floorValue := value.Floor;
    var ceilValue := Ceil(value);
    complete := true;
    if floorValue >= 0 {
      var leftModel := CloneModelWithConstraint(current, fractionalIndex, Le, floorValue as real);
      CloneKeepsWellFormed(current, fractionalIndex, Le, floorValue as real);
      var leftComplete;
      newBest, leftComplete := Branch(leftModel, newBest, fuel - 1);
      complete := leftComplete;
    }
    var rightModel := CloneModelWithConstraint(current, fractionalIndex, Ge, ceilValue as real);
    CloneKeepsWellFormed(current, fractionalIndex, Ge, ceilValue as real);
    var rightComplete;
    newBest, rightComplete := Branch(rightModel, newBest, fuel - 1);
    complete := complete && rightComplete;
  }

  /** `solveIntegerProgram`: branch-and-bound from the normalised model. A
      feasible answer is always integral up to EPSILON. */
  method SolveIntegerProgram(model: Model, fuel: nat) returns (result: LpResult)
    requires WellFormed(model)
    ensures result.Feasible? ==> |result.solution| == model.numVars && Integral(result.solution)
  {
    var normalized := NormalizeModel(model);
    var best, complete := Branch(normalized, None, fuel);
    if !complete {
      return Exhausted;
    }
    if best.None? {
      return Infeasible;
    }
    return Feasible(best.value.solution, best.value.objective);
  }
}
