/** The Simplex iteration and the two-phase linear-program driver of
    solutions/day10/lpsolver.js. The source loops until it finds an optimum or
    an unbounded column; here every loop receives `fuel`, an upper bound on
    the number of pivots, and reports when it has run out. */
module LpSimplex {
  import opened LpModel
  import opened LpTableau

  /** Column `col` of the objective row. */
  function ObjectiveEntry(tab: array2<real>, col: nat): real
    reads tab
    requires tab.Length0 >= 1 && col < tab.Length1
  {
    tab[tab.Length0 - 1, col]
  }

  /** Column `col` is the one `simplex` enters: its objective entry is below
      `-EPSILON`, no column `< columnCount` has a smaller one, and every column
      before it has a larger one (the first of the most negative). */
  predicate ChosenEntering(tab: array2<real>, columnCount: nat, col: int)
    reads tab
    requires tab.Length0 >= 1 && columnCount <= tab.Length1
  {
    0 <= col < columnCount && ObjectiveEntry(tab, col) < -EPSILON
    && (forall k :: 0 <= k < columnCount ==> ObjectiveEntry(tab, k) >= ObjectiveEntry(tab, col))
    && (forall k :: 0 <= k < col ==> ObjectiveEntry(tab, k) > ObjectiveEntry(tab, col))
  }

  /** The entering-column choice of `simplex`: the first column `< columnCount`
      whose objective entry is the most negative one below `-EPSILON`, or -1. */
  method FindEntering(tab: array2<real>, columnCount: nat) returns (entering: int)
    requires tab.Length0 >= 1 && columnCount <= tab.Length1
    ensures entering == -1 <==> forall col :: 0 <= col < columnCount ==> ObjectiveEntry(tab, col) >= -EPSILON
    ensures entering != -1 ==> ChosenEntering(tab, columnCount, entering)
  {
    entering := -1;
    var mostNegative := -EPSILON;
    var col := 0;
    while col < columnCount
      invariant 0 <= col <= columnCount
      invariant -1 <= entering < col
      invariant entering == -1 ==> mostNegative == -EPSILON
      invariant entering != -1 ==> mostNegative == ObjectiveEntry(tab, entering) && mostNegative < -EPSILON
      invariant forall k :: 0 <= k < col ==> ObjectiveEntry(tab, k) >= mostNegative
      invariant entering != -1 ==> forall k :: 0 <= k < entering ==> ObjectiveEntry(tab, k) > mostNegative
    {
      var value := ObjectiveEntry(tab, col);
      if value < mostNegative {
        mostNegative := value;
        entering := col;
      }
      col := col + 1;
    }
  }

  /** A constraint row may leave the basis for column `entering` when its entry there exceeds EPSILON. */
  predicate Eligible(tab: array2<real>, row: nat, entering: nat)
    reads tab
    requires row < tab.Length0 && entering < tab.Length1
  {
    tab[row, entering] > EPSILON
  }

  /** The ratio of row `row`'s rhs to its entry in column `entering`. */
  function Ratio(tab: array2<real>, row: nat, entering: nat): real
    reads tab
    requires row < tab.Length0 && entering < tab.Length1 && tab.Length1 >= 1
    requires tab[row, entering] != 0.0
  {
    tab[row, tab.Length1 - 1] / tab[row, entering]
  }

  /** The ratio test of `simplex`: the eligible constraint row of least ratio;
      a later row replaces the current choice only when its ratio is smaller by
      more than EPSILON. -1 when no row is eligible. */
  method FindLeaving(tab: array2<real>, entering: nat) returns (leaving: int)
    requires tab.Length0 >= 1 && entering < tab.Length1
    ensures leaving == -1 <==> forall row :: 0 <= row < tab.Length0 - 1 ==> !Eligible(tab, row, entering)
    ensures leaving != -1 ==>
              0 <= leaving < tab.Length0 - 1 && Eligible(tab, leaving, entering)
              && (forall row :: 0 <= row < tab.Length0 - 1 && Eligible(tab, row, entering) ==>
                    Ratio(tab, row, entering) >= Ratio(tab, leaving, entering) - EPSILON)
              && (forall row :: 0 <= row < leaving && Eligible(tab, row, entering) ==>
                    Ratio(tab, row, entering) > Ratio(tab, leaving, entering))
  {
    var rows := tab.Length0;
    var rhsColumn := tab.Length1 - 1;
    leaving := -1;
    var bestRatio: real := 0.0;   // stands for Infinity while `leaving` is -1
    var row := 0;
    while row < rows - 1
      invariant 0 <= row <= rows - 1
      invariant -1 <= leaving < row
      invariant leaving == -1 <==> forall k :: 0 <= k < row ==> !Eligible(tab, k, entering)
      invariant leaving != -1 ==> Eligible(tab, leaving, entering) && bestRatio == Ratio(tab, leaving, entering)
      invariant leaving != -1 ==>
                  forall k :: 0 <= k < row && Eligible(tab, k, entering) ==> Ratio(tab, k, entering) >= bestRatio - EPSILON
      invariant leaving != -1 ==>
                  forall k :: 0 <= k < leaving && Eligible(tab, k, entering) ==> Ratio(tab, k, entering) > bestRatio
    {
      if Eligible(tab, row, entering) {
        var ratio := tab[row, rhsColumn] / tab[row, entering];
        if leaving == -1 || ratio < bestRatio - EPSILON {
          bestRatio := ratio;
          leaving := row;
        }
      }
      row := row + 1;
    }
  }

  datatype SimplexStatus = Optimal | Unbounded | OutOfFuel

  /** `simplex` with at most `fuel` pivots. */
  method Simplex(tab: array2<real>, basis: array<int>, columnCount: nat, fuel: nat) returns (status: SimplexStatus)
    requires tab.Length0 >= 1 && basis.Length == tab.Length0 - 1 && columnCount < tab.Length1
    modifies tab, basis
    ensures status == Optimal ==>
              forall col :: 0 <= col < columnCount ==> ObjectiveEntry(tab, col) >= -EPSILON
    ensures status == Unbounded ==>
              exists col :: ChosenEntering(tab, columnCount, col)
                            && forall row :: 0 <= row < tab.Length0 - 1 ==> !Eligible(tab, row, col)
    ensures forall k :: 0 <= k < basis.Length ==> basis[k] == old(basis[k]) || 0 <= basis[k] < columnCount
  {
    var remaining := fuel;
    while remaining > 0
      invariant forall k :: 0 <= k < basis.Length ==> basis[k] == old(basis[k]) || 0 <= basis[k] < columnCount
      decreases remaining
    {
      var entering := FindEntering(tab, columnCount);
      if entering == -1 {
        return Optimal;
      }
      var leaving := FindLeaving(tab, entering);
      if leaving == -1 {
        assert ChosenEntering(tab, columnCount, entering);
        return Unbounded;
      }
      Pivot(tab, basis, leaving, entering);
      remaining := remaining - 1;
    }
    return OutOfFuel;
  }

  /** The result of `solveLinearProgram`; `Exhausted` is a run out of fuel. */
  datatype LpResult = Infeasible | Feasible(solution: seq<real>, objective: real) | Exhausted

  /** The phase-one objective: -1 on every artificial column. */
  function PhaseOneCoeffs(totalVars: nat, artificialStart: nat): (r: seq<real>)
    ensures |r| == totalVars
    ensures forall j :: 0 <= j < totalVars ==> r[j] == if j >= artificialStart then -1.0 else 0.0
  {
    seq(totalVars, j => if j >= artificialStart then -1.0 else 0.0)
  }

  /** The phase-two objective: the negated original objective, so that
      maximising it minimises the model's objective. */
  function MaximizingCoeffs(objective: seq<real>, totalVars: nat, numOriginalVars: nat): (r: seq<real>)
    ensures |r| == totalVars
    ensures forall j :: 0 <= j < totalVars ==> r[j] == if j < numOriginalVars then -Coeff(objective, j) else 0.0
  {
    seq(totalVars, j => if j < numOriginalVars then -Coeff(objective, j) else 0.0)
  }

  /** `solveLinearProgram`: phase one drives the artificial variables to 0
      (infeasible when it cannot), the artificial columns are dropped, and
      phase two optimises the objective; the solution is read off the basis
      and the objective reported as a minimum. */
  method SolveLinearProgram(model: Model, fuel: nat) returns (result: LpResult)
    requires WellFormed(model)
    ensures result.Feasible? ==> |result.solution| == model.numVars
  {
    var normalized := NormalizeModel(model);
    var tab, basis, layout := BuildInitialTableau(normalized);
    var totalVars := layout.totalVars;
    var rhsColumn := layout.rhsColumn;
    var rows := tab.Length0;
    if layout.phaseOneNeeded {
      SetObjectiveRow(tab, basis, PhaseOneCoeffs(totalVars, layout.artificialStart), totalVars);
      var phaseOne := Simplex(tab, basis, totalVars, fuel);
      if phaseOne == OutOfFuel {
        return Exhausted;
      }
      if phaseOne != Optimal {
        return Infeasible;
      }
      var phaseOneValue := tab[rows - 1, rhsColumn];
      if Abs(phaseOneValue) > EPSILON {
        return Infeasible;
      }
      EliminateArtificialVariables(tab, basis, layout.artificialStart);
      tab := RemoveArtificialColumns(tab, totalVars, layout.artificialStart);
      totalVars := layout.artificialStart;
      rhsColumn := totalVars;
    } else {
      var col := 0;
      while col <= rhsColumn
        invariant 0 <= col <= rhsColumn + 1
      {
        tab[rows - 1, col] := 0.0;
        col := col + 1;
      }
    }
    SetObjectiveRow(tab, basis, MaximizingCoeffs(normalized.objective.coeffs, totalVars, layout.numOriginalVars), totalVars);
    var phaseTwo := Simplex(tab, basis, totalVars, fuel);
    if phaseTwo == OutOfFuel {
      return Exhausted;
    }
    if phaseTwo != Optimal {
      return Infeasible;
    }
    var solution := ExtractSolution(tab, basis, layout.numOriginalVars);
    var maximizedValue := tab[rows - 1, rhsColumn];
    return Feasible(solution, -maximizedValue);
  }
}
