/** The Simplex tableau of solutions/day10/lpsolver.js: its initial layout,
    Gauss-Jordan pivoting, loading an objective row, driving artificial
    variables out of the basis, dropping the artificial columns and reading a
    solution off the basis. The tableau is a `real` matrix; row `i < m` holds
    constraint `i`, the last row is the objective, the last column the
    right-hand sides. `basis[i]` is the column basic in row `i`, or -1. */
module LpTableau {
  import opened LpModel

  predicate HasSlack(rel: Relation) { rel == Le || rel == Ge }
  predicate HasArtificial(rel: Relation) { rel == Ge || rel == Eq }

  /** Number of `<=` and `>=` constraints. */
  function SlackCount(cs: seq<Constraint>): (r: nat)
    ensures r <= |cs|
  {
    if |cs| == 0 then 0
    else SlackCount(cs[..|cs| - 1]) + (if HasSlack(cs[|cs| - 1].relation) then 1 else 0)
  }

  /** Number of `>=` and `=` constraints. */
  function ArtificialCount(cs: seq<Constraint>): (r: nat)
    ensures r <= |cs|
  {
    if |cs| == 0 then 0
    else ArtificialCount(cs[..|cs| - 1]) + (if HasArtificial(cs[|cs| - 1].relation) then 1 else 0)
  }

  /** The shape facts `buildInitialTableau` reports beside the tableau. */
  datatype Layout = Layout(totalVars: nat, rhsColumn: nat, numOriginalVars: nat,
                           artificialStart: nat, artificialCount: nat, phaseOneNeeded: bool)

  function ArtificialStart(m: Model): nat
  {
    m.numVars + SlackCount(m.constraints)
  }

  function TotalVars(m: Model): nat
  {
    ArtificialStart(m) + ArtificialCount(m.constraints)
  }

  /** The slack column handed to row `i` (meaningful when the row has one). */
  function SlackColumn(m: Model, i: nat): nat
    requires i <= |m.constraints|
  {
    m.numVars + SlackCount(m.constraints[..i])
  }

  /** The artificial column handed to row `i` (meaningful when the row has one). */
  function ArtificialColumn(m: Model, i: nat): nat
    requires i <= |m.constraints|
  {
    ArtificialStart(m) + ArtificialCount(m.constraints[..i])
  }

  /** The value `buildInitialTableau` leaves at row `i`, column `j`. */
  function InitialEntry(m: Model, i: nat, j: nat): real
    requires i <= |m.constraints|
  {
    if i == |m.constraints| then 0.0
    else
      var c := m.constraints[i];
      if j == TotalVars(m) then c.rhs
      else if j < m.numVars then Coeff(c.coeffs, j)
      else if HasSlack(c.relation) && j == SlackColumn(m, i) then (if c.relation == Le then 1.0 else -1.0)
      else if HasArtificial(c.relation) && j == ArtificialColumn(m, i) then 1.0
      else 0.0
  }

  /** The variable `buildInitialTableau` makes basic in row `i`. */
  function InitialBasis(m: Model, i: nat): int
    requires i < |m.constraints|
  {
    match m.constraints[i].relation
    case Le => SlackColumn(m, i)
    case Ge => ArtificialColumn(m, i)
    case Eq => ArtificialColumn(m, i)
    case Other => -1
  }

  lemma {:induction false} SlackCountStep(cs: seq<Constraint>, i: nat)
    requires i < |cs|
    ensures SlackCount(cs[..i + 1]) == SlackCount(cs[..i]) + (if HasSlack(cs[i].relation) then 1 else 0)
    ensures ArtificialCount(cs[..i + 1]) == ArtificialCount(cs[..i]) + (if HasArtificial(cs[i].relation) then 1 else 0)
  {
    assert cs[..i + 1][..i] == cs[..i];
  }

  /** Counting over a longer prefix never gives less, and passes row `i`'s own column. */
  lemma {:induction false} CountsGrow(cs: seq<Constraint>, i: nat, k: nat)
    requires i < k <= |cs|
    ensures SlackCount(cs[..i]) + (if HasSlack(cs[i].relation) then 1 else 0) <= SlackCount(cs[..k])
    ensures ArtificialCount(cs[..i]) + (if HasArtificial(cs[i].relation) then 1 else 0) <= ArtificialCount(cs[..k])
    decreases k - i
  {
    SlackCountStep(cs, i);
    if i + 1 < k {
      CountsGrow(cs, i + 1, k);
      SlackCountStep(cs, i + 1);
    }
  }

  /** Slack columns lie in `[numVars, artificialStart)`, artificial columns in
      `[artificialStart, totalVars)`, and no two rows share one. */
  lemma ColumnLayout(m: Model, i: nat, k: nat)
    requires i < |m.constraints| && k < |m.constraints|
    ensures HasSlack(m.constraints[i].relation) ==> m.numVars <= SlackColumn(m, i) < ArtificialStart(m)
    ensures HasArtificial(m.constraints[i].relation) ==> ArtificialStart(m) <= ArtificialColumn(m, i) < TotalVars(m)
    ensures i != k && HasSlack(m.constraints[i].relation) && HasSlack(m.constraints[k].relation) ==>
              SlackColumn(m, i) != SlackColumn(m, k)
    ensures i != k && HasArtificial(m.constraints[i].relation) && HasArtificial(m.constraints[k].relation) ==>
              ArtificialColumn(m, i) != ArtificialColumn(m, k)
  {
    var cs := m.constraints;
    assert cs[..|cs|] == cs;
    CountsGrow(cs, i, |cs|);
    if i < k { CountsGrow(cs, i, k); }
    if k < i { CountsGrow(cs, k, i); }
  }

  /** The initial basis is a true basis: the column basic in row `i` is the
      `i`-th unit column of the tableau, objective row included. */
  lemma InitialBasisIsUnitColumn(m: Model, i: nat, k: nat)
    requires WellFormed(m)
    requires i < |m.constraints| && k <= |m.constraints| && InitialBasis(m, i) >= 0
    ensures InitialBasis(m, i) < TotalVars(m)
    ensures InitialEntry(m, k, InitialBasis(m, i)) == if k == i then 1.0 else 0.0
  {
    ColumnLayout(m, i, i);
    if k < |m.constraints| {
      ColumnLayout(m, i, k);
      ColumnLayout(m, k, i);
    }
  }

  /** The tableau's entries as rows of values. */
  function Rows(tab: array2<real>): (r: seq<seq<real>>)
    reads tab
    ensures |r| == tab.Length0
    ensures forall i :: 0 <= i < tab.Length0 ==> |r[i]| == tab.Length1
    ensures forall i, j :: 0 <= i < tab.Length0 && 0 <= j < tab.Length1 ==> r[i][j] == tab[i, j]
  {
    seq(tab.Length0, i requires 0 <= i < tab.Length0 reads tab =>
      seq(tab.Length1, j requires 0 <= j < tab.Length1 reads tab => tab[i, j]))
  }

  /** One iteration of the row loop of `buildInitialTableau`: copy constraint
      `r`'s coefficients and rhs, and give it its slack and artificial entries. */
  method WriteConstraintRow(m: Model, tab: array2<real>, basis: array<int>, r: nat,
                            slackOffset: nat, artificialOffset: nat)
    requires WellFormed(m) && r < |m.constraints|
    requires tab.Length0 == |m.constraints| + 1 && tab.Length1 == TotalVars(m) + 1
    requires basis.Length == |m.constraints|
    requires slackOffset == SlackColumn(m, r) && artificialOffset == ArtificialColumn(m, r)
    requires forall j :: 0 <= j < tab.Length1 ==> tab[r, j] == 0.0
    requires basis[r] == -1
    modifies tab, basis
    ensures forall j :: 0 <= j < tab.Length1 ==> tab[r, j] == InitialEntry(m, r, j)
    ensures basis[r] == InitialBasis(m, r)
    ensures forall i, j :: 0 <= i < tab.Length0 && i != r && 0 <= j < tab.Length1 ==> tab[i, j] == old(tab[i, j])
    ensures forall i :: 0 <= i < basis.Length && i != r ==> basis[i] == old(basis[i])
  {
    var c := m.constraints[r];
    var rhsColumn := TotalVars(m);
    var col := 0;
    while col < |c.coeffs|
      invariant 0 <= col <= |c.coeffs|
      invariant forall i, j :: 0 <= i < tab.Length0 && i != r && 0 <= j < tab.Length1 ==> tab[i, j] == old(tab[i, j])
      invariant forall j :: 0 <= j < col ==> tab[r, j] == c.coeffs[j]
      invariant forall j :: col <= j < tab.Length1 ==> tab[r, j] == 0.0
      invariant basis[..] == old(basis[..])
    {
      tab[r, col] := c.coeffs[col];
      col := col + 1;
    }
    ColumnLayout(m, r, r);
    if c.relation == Le {
      tab[r, slackOffset] := 1.0;
      basis[r] := slackOffset;
    } else if c.relation == Ge {
      tab[r, slackOffset] := -1.0;
      tab[r, artificialOffset] := 1.0;
      basis[r] := artificialOffset;
    } else if c.relation == Eq {
      tab[r, artificialOffset] := 1.0;
      basis[r] := artificialOffset;
    }
    tab[r, rhsColumn] := c.rhs;
  }

  /** The first loop of `buildInitialTableau`: count the slack and artificial
      columns the constraints need. */
  method CountColumns(cs: seq<Constraint>) returns (slackCount: nat, artificialCount: nat)
    ensures slackCount == SlackCount(cs) && artificialCount == ArtificialCount(cs)
  {
    slackCount, artificialCount := 0, 0;
    var k := 0;
    while k < |cs|
      invariant 0 <= k <= |cs|
      invariant slackCount == SlackCount(cs[..k]) && artificialCount == ArtificialCount(cs[..k])
    {
      SlackCountStep(cs, k);
      if cs[k].relation == Le {
        slackCount := slackCount + 1;
      } else if cs[k].relation == Ge {
        slackCount := slackCount + 1;
        artificialCount := artificialCount + 1;
      } else if cs[k].relation == Eq {
        artificialCount := artificialCount + 1;
      }
      k := k + 1;
    }
    assert cs[..|cs|] == cs;
  }

  /** `buildInitialTableau`: one row per constraint plus the objective row, one
      column per original, slack and artificial variable plus the rhs column. */
  method BuildInitialTableau(m: Model) returns (tab: array2<real>, basis: array<int>, layout: Layout)
    requires WellFormed(m)
    ensures fresh(tab) && fresh(basis)
    ensures layout == Layout(TotalVars(m), TotalVars(m), m.numVars, ArtificialStart(m),
                             ArtificialCount(m.constraints), ArtificialCount(m.constraints) > 0)
    ensures tab.Length0 == |m.constraints| + 1 && tab.Length1 == TotalVars(m) + 1
    ensures basis.Length == |m.constraints|
    ensures forall i, j :: 0 <= i < tab.Length0 && 0 <= j < tab.Length1 ==> tab[i, j] == InitialEntry(m, i, j)
    ensures forall i :: 0 <= i < basis.Length ==> basis[i] == InitialBasis(m, i)
  {
    var cs := m.constraints;
    var n := m.numVars;
    var slackCount, artificialCount := CountColumns(cs);
    var totalVars := n + slackCount + artificialCount;
    var rhsColumn := totalVars;
    tab := new real[|cs| + 1, totalVars + 1]((i, j) => 0.0);
    basis := new int[|cs|](i => -1);
    var slackOffset := n;
    var artificialOffset := n + slackCount;
    var r := 0;
    while r < |cs|
      invariant 0 <= r <= |cs|
      invariant slackOffset == SlackColumn(m, r) && artificialOffset == ArtificialColumn(m, r)
      invariant forall i, j :: 0 <= i < r && 0 <= j < tab.Length1 ==> tab[i, j] == InitialEntry(m, i, j)
      invariant forall i, j :: r <= i < tab.Length0 && 0 <= j < tab.Length1 ==> tab[i, j] == 0.0
      invariant forall i :: 0 <= i < r ==> basis[i] == InitialBasis(m, i)
      invariant forall i :: r <= i < basis.Length ==> basis[i] == -1
    {
      WriteConstraintRow(m, tab, basis, r, slackOffset, artificialOffset);
      SlackCountStep(cs, r);
      if HasSlack(cs[r].relation) { slackOffset := slackOffset + 1; }
      if HasArtificial(cs[r].relation) { artificialOffset := artificialOffset + 1; }
      r := r + 1;
    }
    layout := Layout(totalVars, rhsColumn, n, n + slackCount, artificialCount, artificialCount > 0);
  }

  /** A non-pivot row's entry after pivoting: rows whose pivot-column factor is
      below the tolerance are left alone, the others lose `factor` times the
      normalised pivot row. */
  function EliminatedEntry(entry: real, factor: real, pivotRowEntry: real): (r: real)
    ensures Abs(factor) < EPSILON ==> r == entry
  {
    if Abs(factor) < EPSILON then entry else entry - factor * pivotRowEntry
  }

  lemma DivideBySelf(x: real)
    requires x != 0.0
    ensures x / x == 1.0
  {
  }

  /** The first loop of `pivot`: divide the pivot row by the pivot value. */
  method DividePivotRow(tab: array2<real>, pivotRow: nat, pivotValue: real)
    requires pivotRow < tab.Length0 && pivotValue != 0.0
    modifies tab
    ensures forall j :: 0 <= j < tab.Length1 ==> tab[pivotRow, j] == old(tab[pivotRow, j]) / pivotValue
    ensures forall i, j :: 0 <= i < tab.Length0 && i != pivotRow && 0 <= j < tab.Length1 ==> tab[i, j] == old(tab[i, j])
  {
    var col := 0;
    while col < tab.Length1
      invariant 0 <= col <= tab.Length1
      invariant forall j :: 0 <= j < col ==> tab[pivotRow, j] == old(tab[pivotRow, j]) / pivotValue
      invariant forall j :: col <= j < tab.Length1 ==> tab[pivotRow, j] == old(tab[pivotRow, j])
      invariant forall i, j :: 0 <= i < tab.Length0 && i != pivotRow && 0 <= j < tab.Length1 ==> tab[i, j] == old(tab[i, j])
    {
      tab[pivotRow, col] := tab[pivotRow, col] / pivotValue;
      col := col + 1;
    }
  }

  /** The inner loop of `pivot`'s elimination: row `row` loses `factor` times the pivot row. */
  method SubtractPivotRow(tab: array2<real>, row: nat, pivotRow: nat, factor: real)
    requires row < tab.Length0 && pivotRow < tab.Length0 && row != pivotRow
    modifies tab
    ensures forall j :: 0 <= j < tab.Length1 ==> tab[row, j] == old(tab[row, j]) - factor * tab[pivotRow, j]
    ensures forall i, j :: 0 <= i < tab.Length0 && i != row && 0 <= j < tab.Length1 ==> tab[i, j] == old(tab[i, j])
  {
    var col := 0;
    while col < tab.Length1
      invariant 0 <= col <= tab.Length1
      invariant forall j :: 0 <= j < col ==> tab[row, j] == old(tab[row, j]) - factor * tab[pivotRow, j]
      invariant forall j :: col <= j < tab.Length1 ==> tab[row, j] == old(tab[row, j])
      invariant forall i, j :: 0 <= i < tab.Length0 && i != row && 0 <= j < tab.Length1 ==> tab[i, j] == old(tab[i, j])
    {
      tab[row, col] := tab[row, col] - factor * tab[pivotRow, col];
      col := col + 1;
    }
  }

  /** `pivot`: Gauss-Jordan elimination on `(pivotRow, pivotCol)`. */
  method Pivot(tab: array2<real>, basis: array<int>, pivotRow: nat, pivotCol: nat)
    requires pivotRow < tab.Length0 && pivotCol < tab.Length1 && pivotRow < basis.Length
    requires tab[pivotRow, pivotCol] != 0.0
    modifies tab, basis
    ensures forall j :: 0 <= j < tab.Length1 ==>
              tab[pivotRow, j] == old(tab[pivotRow, j]) / old(tab[pivotRow, pivotCol])
    ensures forall i, j :: 0 <= i < tab.Length0 && i != pivotRow && 0 <= j < tab.Length1 ==>
              tab[i, j] == EliminatedEntry(old(tab[i, j]), old(tab[i, pivotCol]), tab[pivotRow, j])
    ensures tab[pivotRow, pivotCol] == 1.0
    ensures forall i :: 0 <= i < tab.Length0 && i != pivotRow && Abs(old(tab[i, pivotCol])) >= EPSILON ==>
              tab[i, pivotCol] == 0.0
    ensures basis[pivotRow] == pivotCol
    ensures forall k :: 0 <= k < basis.Length && k != pivotRow ==> basis[k] == old(basis[k])
  {
    var pivotValue := tab[pivotRow, pivotCol];
    DividePivotRow(tab, pivotRow, pivotValue);
    DivideBySelf(pivotValue);
    var row := 0;
    while row < tab.Length0
      invariant 0 <= row <= tab.Length0
      invariant forall j :: 0 <= j < tab.Length1 ==> tab[pivotRow, j] == old(tab[pivotRow, j]) / pivotValue
      invariant forall i, j :: 0 <= i < row && i != pivotRow && 0 <= j < tab.Length1 ==>
                  tab[i, j] == EliminatedEntry(old(tab[i, j]), old(tab[i, pivotCol]), tab[pivotRow, j])
      invariant forall i, j :: row <= i < tab.Length0 && i != pivotRow && 0 <= j < tab.Length1 ==> tab[i, j] == old(tab[i, j])
      invariant basis[..] == old(basis[..])
    {
      if row != pivotRow {
        var factor := tab[row, pivotCol];
        if Abs(factor) >= EPSILON {
          SubtractPivotRow(tab, row, pivotRow, factor);
        }
      }
      row := row + 1;
    }
    basis[pivotRow] := pivotCol;
  }

  /** Every row has `w` entries. */
  ghost predicate Rectangular(S: seq<seq<real>>, w: nat)
  {
    forall i :: 0 <= i < |S| ==> |S[i]| == w
  }

  /** `pivot` on rows of values: the pivot row divided by the pivot, every
      other row whose pivot-column factor is not negligible reduced by that
      factor times the new pivot row. */
  ghost function PivotedRows(S: seq<seq<real>>, w: nat, pivotRow: nat, pivotCol: nat): (r: seq<seq<real>>)
    requires Rectangular(S, w) && pivotRow < |S| && pivotCol < w && S[pivotRow][pivotCol] != 0.0
    ensures |r| == |S| && Rectangular(r, w)
  {
    var p := seq(w, j requires 0 <= j < w => S[pivotRow][j] / S[pivotRow][pivotCol]);
    seq(|S|, i requires 0 <= i < |S| =>
      if i == pivotRow then p
      else seq(w, j requires 0 <= j < w => EliminatedEntry(S[i][j], S[i][pivotCol], p[j])))
  }

  /** Rows that agree entry by entry with a pivot are the pivoted rows. */
  lemma PivotedRowsAgree(S: seq<seq<real>>, T: seq<seq<real>>, w: nat, pivotRow: nat, pivotCol: nat)
    requires Rectangular(S, w) && pivotRow < |S| && pivotCol < w && S[pivotRow][pivotCol] != 0.0
    requires |T| == |S| && Rectangular(T, w)
    requires forall j :: 0 <= j < w ==> T[pivotRow][j] == S[pivotRow][j] / S[pivotRow][pivotCol]
    requires forall i, j :: 0 <= i < |S| && i != pivotRow && 0 <= j < w ==>
               T[i][j] == EliminatedEntry(S[i][j], S[i][pivotCol], T[pivotRow][j])
    ensures T == PivotedRows(S, w, pivotRow, pivotCol)
  {
    var P := PivotedRows(S, w, pivotRow, pivotCol);
    forall i | 0 <= i < |S| ensures T[i] == P[i] {
      assert T[pivotRow] == P[pivotRow];
    }
  }

  // ---------------------------------------------------------------------------
  // setObjectiveRow

  /** The objective row's entry before the basic rows are added back in: the
      negated coefficient in the first `columnCount` columns, 0 in the rhs
      column, untouched elsewhere. */
  function ObjectiveStart(prev: real, coeffs: seq<real>, columnCount: nat, rhsColumn: nat, j: nat): real
  {
    if j < columnCount then -Coeff(coeffs, j) else if j == rhsColumn then 0.0 else prev
  }

  /** Whether row `row`'s basic variable is priced into the objective row. */
  predicate PricedRow(b: seq<int>, coeffs: seq<real>, row: nat)
    requires row < |b|
  {
    b[row] >= 0 && Abs(Coeff(coeffs, b[row])) >= EPSILON
  }

  /** Column `j` of the sum of `coeffs[basis[row]]` times row `row`, over the
      priced rows `row < k`. */
  function BasisSum(S: seq<seq<real>>, b: seq<int>, coeffs: seq<real>, k: nat, j: nat): real
    requires k <= |S| && k <= |b|
    requires forall i :: 0 <= i < k ==> j < |S[i]|
  {
    if k == 0 then 0.0
    else BasisSum(S, b, coeffs, k - 1, j)
         + (if PricedRow(b, coeffs, k - 1) then Coeff(coeffs, b[k - 1]) * S[k - 1][j] else 0.0)
  }

  /** Column `j` of the objective row that `setObjectiveRow` computes from the
      tableau `S`, whose last row is the previous objective row. */
  function LoadedObjective(S: seq<seq<real>>, b: seq<int>, coeffs: seq<real>, columnCount: nat, j: nat): real
    requires |S| >= 1 && |b| == |S| - 1
    requires forall i :: 0 <= i < |S| ==> j < |S[i]|
  {
    ObjectiveStart(S[|S| - 1][j], coeffs, columnCount, |S[0]| - 1, j) + BasisSum(S, b, coeffs, |S| - 1, j)
  }

  /** `setObjectiveRow`: load `-coeffs` into the objective row and add back
      every priced basic row. The constraint rows are not touched. */
  method SetObjectiveRow(tab: array2<real>, basis: array<int>, coeffs: seq<real>, columnCount: nat)
    requires tab.Length0 >= 1 && basis.Length == tab.Length0 - 1 && columnCount < tab.Length1
    modifies tab
    ensures forall i, j :: 0 <= i < tab.Length0 - 1 && 0 <= j < tab.Length1 ==> tab[i, j] == old(tab[i, j])
    ensures forall j :: 0 <= j < tab.Length1 ==>
              tab[tab.Length0 - 1, j] == LoadedObjective(old(Rows(tab)), basis[..], coeffs, columnCount, j)
  {
    ghost var S := Rows(tab);
    var lastRow := tab.Length0 - 1;
    var rhsColumn := tab.Length1 - 1;
    LoadObjectiveStart(tab, coeffs, columnCount, lastRow, rhsColumn);
    var row := 0;
    while row < lastRow
      invariant 0 <= row <= lastRow
      invariant forall i, j :: 0 <= i < lastRow && 0 <= j < tab.Length1 ==> tab[i, j] == S[i][j]
      invariant forall j :: 0 <= j < tab.Length1 ==>
                  tab[lastRow, j] == ObjectiveStart(S[lastRow][j], coeffs, columnCount, rhsColumn, j)
                                     + BasisSum(S, basis[..], coeffs, row, j)
    {
      PriceRow(tab, basis, coeffs, columnCount, row, lastRow, rhsColumn, S);
      row := row + 1;
    }
  }

  /** The first loop of `setObjectiveRow` and the rhs reset: the objective row
      starts as `-coeffs` over the first `columnCount` columns and 0 in the rhs column. */
  method LoadObjectiveStart(tab: array2<real>, coeffs: seq<real>, columnCount: nat, lastRow: nat, rhsColumn: nat)
    requires lastRow + 1 == tab.Length0 && rhsColumn + 1 == tab.Length1 && columnCount < tab.Length1
    modifies tab
    ensures forall i, j :: 0 <= i < lastRow && 0 <= j < tab.Length1 ==> tab[i, j] == old(tab[i, j])
    ensures forall j :: 0 <= j < tab.Length1 ==>
              tab[lastRow, j] == ObjectiveStart(old(tab[lastRow, j]), coeffs, columnCount, rhsColumn, j)
  {
    var col := 0;
    while col < columnCount
      invariant 0 <= col <= columnCount
      invariant forall i, j :: 0 <= i < lastRow && 0 <= j < tab.Length1 ==> tab[i, j] == old(tab[i, j])
      invariant forall j :: 0 <= j < col ==> tab[lastRow, j] == -Coeff(coeffs, j)
      invariant forall j :: col <= j < tab.Length1 ==> tab[lastRow, j] == old(tab[lastRow, j])
    {
      tab[lastRow, col] := -Coeff(coeffs, col);
      col := col + 1;
    }
    tab[lastRow, rhsColumn] := 0.0;
  }

  /** One iteration of the second loop of `setObjectiveRow`: add row `row`
      into the objective row when its basic variable is priced. */
  method PriceRow(tab: array2<real>, basis: array<int>, coeffs: seq<real>, columnCount: nat, row: nat,
                  lastRow: nat, rhsColumn: nat, ghost S: seq<seq<real>>)
    requires lastRow + 1 == tab.Length0 && rhsColumn + 1 == tab.Length1 && basis.Length == lastRow && row < basis.Length
    requires |S| == tab.Length0 && forall i :: 0 <= i < |S| ==> |S[i]| == tab.Length1
    requires forall i, j :: 0 <= i < lastRow && 0 <= j < tab.Length1 ==> tab[i, j] == S[i][j]
    requires forall j :: 0 <= j < tab.Length1 ==>
               tab[lastRow, j] == ObjectiveStart(S[lastRow][j], coeffs, columnCount, rhsColumn, j)
                                          + BasisSum(S, basis[..], coeffs, row, j)
    modifies tab
    ensures forall i, j :: 0 <= i < lastRow && 0 <= j < tab.Length1 ==> tab[i, j] == S[i][j]
    ensures forall j :: 0 <= j < tab.Length1 ==>
              tab[lastRow, j] == ObjectiveStart(S[lastRow][j], coeffs, columnCount, rhsColumn, j)
                                         + BasisSum(S, basis[..], coeffs, row + 1, j)
  {
    var basicVar := basis[row];
    if basicVar >= 0 {
      var coefficient := Coeff(coeffs, basicVar);
      if Abs(coefficient) >= EPSILON {
        AddScaledRow(tab, lastRow, row, coefficient);
      }
    }
    forall j | 0 <= j < tab.Length1
      ensures tab[lastRow, j] == ObjectiveStart(S[lastRow][j], coeffs, columnCount, rhsColumn, j)
                                 + BasisSum(S, basis[..], coeffs, row + 1, j)
    {
      assert tab[lastRow, j] == old(tab[lastRow, j])
                                + (if PricedRow(basis[..], coeffs, row) then Coeff(coeffs, basis[row]) * S[row][j] else 0.0);
    }
  }

  /** The inner loop of `setObjectiveRow`: add `coefficient` times row `row` to row `target`. */
  method AddScaledRow(tab: array2<real>, target: nat, row: nat, coefficient: real)
    requires target < tab.Length0 && row < tab.Length0 && row != target
    modifies tab
    ensures forall j :: 0 <= j < tab.Length1 ==> tab[target, j] == old(tab[target, j]) + coefficient * tab[row, j]
    ensures forall i, j :: 0 <= i < tab.Length0 && i != target && 0 <= j < tab.Length1 ==> tab[i, j] == old(tab[i, j])
  {
    var col := 0;
    while col < tab.Length1
      invariant 0 <= col <= tab.Length1
      invariant forall j :: 0 <= j < col ==> tab[target, j] == old(tab[target, j]) + coefficient * tab[row, j]
      invariant forall j :: col <= j < tab.Length1 ==> tab[target, j] == old(tab[target, j])
      invariant forall i, j :: 0 <= i < tab.Length0 && i != target && 0 <= j < tab.Length1 ==> tab[i, j] == old(tab[i, j])
    {
      tab[target, col] := tab[target, col] + coefficient * tab[row, col];
      col := col + 1;
    }
  }

  /** Column `c` is the `i`-th unit column of the constraint rows `0..k-1`. */
  predicate UnitColumn(S: seq<seq<real>>, k: nat, c: nat, i: nat)
    requires k <= |S|
    requires forall r :: 0 <= r < k ==> c < |S[r]|
  {
    forall r :: 0 <= r < k ==> S[r][c] == if r == i then 1.0 else 0.0
  }

  /** Over a unit column, the basis sum picks up row `i` alone. */
  lemma {:induction false} BasisSumOfUnitColumn(S: seq<seq<real>>, b: seq<int>, coeffs: seq<real>, k: nat, c: nat, i: nat)
    requires k <= |S| && k <= |b|
    requires forall r :: 0 <= r < k ==> c < |S[r]|
    requires UnitColumn(S, k, c, i)
    ensures BasisSum(S, b, coeffs, k, c)
            == if i < k && PricedRow(b, coeffs, i) then Coeff(coeffs, b[i]) else 0.0
  {
    if k > 0 {
      assert UnitColumn(S, k - 1, c, i);
      BasisSumOfUnitColumn(S, b, coeffs, k - 1, c, i);
    }
  }

  /** The point of `setObjectiveRow`: when the column basic in row `i` is a unit
      column, its objective entry afterwards is 0, or the negated coefficient
      itself when that is below the tolerance. Either way it is below EPSILON. */
  lemma PricedOutBasicColumn(S: seq<seq<real>>, b: seq<int>, coeffs: seq<real>, columnCount: nat, rhsColumn: nat, i: nat)
    requires |S| >= 1 && |b| == |S| - 1
    requires i < |b| && 0 <= b[i] < columnCount
    requires forall r :: 0 <= r < |S| ==> b[i] < |S[r]|
    requires UnitColumn(S, |S| - 1, b[i], i)
    ensures var entry := ObjectiveStart(S[|S| - 1][b[i]], coeffs, columnCount, rhsColumn, b[i])
                         + BasisSum(S, b, coeffs, |S| - 1, b[i]);
            Abs(entry) < EPSILON
            && (Abs(Coeff(coeffs, b[i])) >= EPSILON ==> entry == 0.0)
  {
    BasisSumOfUnitColumn(S, b, coeffs, |S| - 1, b[i], i);
  }

  // ---------------------------------------------------------------------------
  // eliminateArtificialVariables, removeArtificialColumns, extractSolution

  /** The column loop of `eliminateArtificialVariables` on one row: the
      first column from `from` below `artificialStart` whose entry exceeds
      EPSILON in magnitude, or -1 when every such entry is negligible. */
  function FirstEligible(row: seq<real>, artificialStart: nat, from: nat): (e: int)
    requires artificialStart <= |row| && from <= artificialStart
    ensures e == -1 <==> forall j :: from <= j < artificialStart ==> Abs(row[j]) <= EPSILON
    ensures e != -1 ==> from <= e < artificialStart && Abs(row[e]) > EPSILON
                        && forall j :: from <= j < e ==> Abs(row[j]) <= EPSILON
    decreases artificialStart - from
  {
    if from == artificialStart then -1
    else if Abs(row[from]) > EPSILON then from
    else FirstEligible(row, artificialStart, from + 1)
  }

  /** One row of `eliminateArtificialVariables` on rows of values: a row
      whose basic variable is artificial pivots on its first eligible
      column or, when it has none, loses its basic variable (-1); any other
      row is left alone. */
  ghost function EliminatedRow(S: seq<seq<real>>, b: seq<int>, w: nat, artificialStart: nat, row: nat)
    : (r: (seq<seq<real>>, seq<int>))
    requires Rectangular(S, w) && |b| <= |S| && artificialStart <= w && row < |b|
    ensures |r.0| == |S| && Rectangular(r.0, w) && |r.1| == |b|
  {
    if b[row] >= artificialStart then
      var e := FirstEligible(S[row], artificialStart, 0);
      if e != -1 then (PivotedRows(S, w, row, e), b[row := e]) else (S, b[row := -1])
    else (S, b)
  }

  /** `eliminateArtificialVariables` on rows of values from row `row` on,
      each row treated in the rows as the earlier pivots left them. */
  ghost function Eliminated(S: seq<seq<real>>, b: seq<int>, w: nat, artificialStart: nat, row: nat)
    : (r: (seq<seq<real>>, seq<int>))
    requires Rectangular(S, w) && |b| <= |S| && artificialStart <= w && row <= |b|
    decreases |b| - row
  {
    if row == |b| then (S, b)
    else
      var next := EliminatedRow(S, b, w, artificialStart, row);
      Eliminated(next.0, next.1, w, artificialStart, row + 1)
  }

  /** The column loop of `eliminateArtificialVariables`. */
  method FindEligible(tab: array2<real>, row: nat, artificialStart: nat) returns (entering: int)
    requires row < tab.Length0 && artificialStart <= tab.Length1
    ensures entering == FirstEligible(Rows(tab)[row], artificialStart, 0)
  {
    entering := -1;
    var col := 0;
    while col < artificialStart
      invariant 0 <= col <= artificialStart
      invariant forall j :: 0 <= j < col ==> Abs(tab[row, j]) <= EPSILON
    {
      if Abs(tab[row, col]) > EPSILON {
        entering := col;
        break;
      }
      col := col + 1;
    }
  }

  /** One iteration of the row loop of `eliminateArtificialVariables`. */
  method EliminateRow(tab: array2<real>, basis: array<int>, artificialStart: nat, row: nat)
    requires row < basis.Length <= tab.Length0 && artificialStart <= tab.Length1
    modifies tab, basis
    ensures Rows(tab) == EliminatedRow(old(Rows(tab)), old(basis[..]), tab.Length1, artificialStart, row).0
    ensures basis[..] == EliminatedRow(old(Rows(tab)), old(basis[..]), tab.Length1, artificialStart, row).1
  {
    if basis[row] >= artificialStart {
      var entering := FindEligible(tab, row, artificialStart);
      if entering != -1 {
        ghost var before := Rows(tab);
        Pivot(tab, basis, row, entering);
        PivotedRowsAgree(before, Rows(tab), tab.Length1, row, entering);
        assert basis[..] == old(basis[..])[row := entering];
      } else {
        basis[row] := -1;
      }
    }
  }

  /** `eliminateArtificialVariables`: every row whose basic variable is
      artificial pivots on its first non-negligible non-artificial column, or
      loses its basic variable (-1) when there is none. */
  method EliminateArtificialVariables(tab: array2<real>, basis: array<int>, artificialStart: nat)
    requires basis.Length <= tab.Length0 && artificialStart <= tab.Length1
    modifies tab, basis
    ensures Rows(tab) == Eliminated(old(Rows(tab)), old(basis[..]), tab.Length1, artificialStart, 0).0
    ensures basis[..] == Eliminated(old(Rows(tab)), old(basis[..]), tab.Length1, artificialStart, 0).1
    ensures forall k :: 0 <= k < basis.Length ==> basis[k] < artificialStart
    ensures forall k :: 0 <= k < basis.Length && old(basis[k]) < artificialStart ==> basis[k] == old(basis[k])
    ensures forall k :: 0 <= k < basis.Length && old(basis[k]) >= artificialStart ==>
              basis[k] == -1 || 0 <= basis[k] < artificialStart
  {
    ghost var goal := Eliminated(Rows(tab), basis[..], tab.Length1, artificialStart, 0);
    var row := 0;
    while row < basis.Length
      invariant 0 <= row <= basis.Length
      invariant Eliminated(Rows(tab), basis[..], tab.Length1, artificialStart, row) == goal
      invariant forall k :: 0 <= k < row ==> basis[k] < artificialStart
      invariant forall k :: 0 <= k < row && old(basis[k]) < artificialStart ==> basis[k] == old(basis[k])
      invariant forall k :: 0 <= k < row && old(basis[k]) >= artificialStart ==>
                  basis[k] == -1 || 0 <= basis[k] < artificialStart
      invariant forall k :: row <= k < basis.Length ==> basis[k] == old(basis[k])
    {
      EliminateRow(tab, basis, artificialStart, row);
      row := row + 1;
    }
  }

  /** `removeArtificialColumns`: keep columns `0..artificialStart-1` and then
      the rhs (`columnCount`); with no artificial columns the tableau itself. */
  method RemoveArtificialColumns(tab: array2<real>, columnCount: nat, artificialStart: nat) returns (r: array2<real>)
    requires artificialStart < tab.Length1 && columnCount < tab.Length1
    ensures columnCount == artificialStart ==> r == tab
    ensures columnCount != artificialStart ==> fresh(r)
    ensures r.Length0 == tab.Length0
    ensures columnCount != artificialStart ==> r.Length1 == artificialStart + 1
    ensures columnCount != artificialStart ==>
              forall i, j :: 0 <= i < r.Length0 && 0 <= j < artificialStart ==> r[i, j] == tab[i, j]
    ensures columnCount != artificialStart ==>
              forall i :: 0 <= i < r.Length0 ==> r[i, artificialStart] == tab[i, columnCount]
  {
    if columnCount == artificialStart {
      return tab;
    }
    r := new real[tab.Length0, artificialStart + 1]((i, j) reads tab =>
      if 0 <= i < tab.Length0 && 0 <= j < artificialStart then tab[i, j]
      else if 0 <= i < tab.Length0 then tab[i, columnCount]
      else 0.0);
  }

  /** The last row `< k` whose basic variable is `v`, or -1. */
  function LastBasicRow(b: seq<int>, v: int, k: nat): (r: int)
    requires k <= |b|
    ensures -1 <= r < k
    ensures r >= 0 ==> b[r] == v && forall i :: r < i < k ==> b[i] != v
    ensures r == -1 ==> forall i :: 0 <= i < k ==> b[i] != v
  {
    if k == 0 then -1 else if b[k - 1] == v then k - 1 else LastBasicRow(b, v, k - 1)
  }

  /** `extractSolution`: variable `v` takes the rhs of the last row where it is
      basic, and 0 when it is basic nowhere. */
  method ExtractSolution(tab: array2<real>, basis: array<int>, numVars: nat) returns (solution: seq<real>)
    requires tab.Length1 >= 1 && basis.Length <= tab.Length0
    ensures |solution| == numVars
    ensures forall v :: 0 <= v < numVars ==>
              solution[v] == (var row := LastBasicRow(basis[..], v, basis.Length);
                              if row < 0 then 0.0 else tab[row, tab.Length1 - 1])
  {
    solution := seq(numVars, v => 0.0);
    var rhsColumn := tab.Length1 - 1;
    var row := 0;
    while row < basis.Length
      invariant 0 <= row <= basis.Length
      invariant |solution| == numVars
      invariant forall v :: 0 <= v < numVars ==>
                  solution[v] == (var r := LastBasicRow(basis[..], v, row);
                                  if r < 0 then 0.0 else tab[r, rhsColumn])
    {
      var varIndex := basis[row];
      if varIndex >= 0 && varIndex < numVars {
        solution := solution[varIndex := tab[row, rhsColumn]];
      }
      row := row + 1;
    }
  }
}
