/** The linear-program model handed to the solver in solutions/day10/lpsolver.js:
    a number of variables, an objective and a list of constraints, together with
    the value-level operations on it (normalising, copying, adding a bound). */
module LpModel {

  /** The tolerance the solver compares against everywhere. */
  const EPSILON: real := 0.000000001

  /** A constraint's relation. The source compares the relation string against
      '<=', '>=' and '='; any other string is carried along as `Other` and gets
      neither a slack nor an artificial column. */
  datatype Relation = Le | Ge | Eq | Other

  datatype Constraint = Constraint(relation: Relation, rhs: real, coeffs: seq<real>)

  /** `sense` is the objective's sense string; the empty string stands for a
      missing (falsy) sense. */
  datatype Objective = Objective(sense: string, coeffs: seq<real>)

  datatype Model = Model(numVars: nat, objective: Objective, constraints: seq<Constraint>)

  function Abs(x: real): (r: real)
    ensures r >= 0.0 && (r == x || r == -x)
  {
    if x < 0.0 then -x else x
  }

  /** `coeffs[i] || 0`: a coefficient past the end of the list reads as 0. */
  function Coeff(coeffs: seq<real>, i: int): (r: real)
    ensures 0 <= i < |coeffs| ==> r == coeffs[i]
    ensures !(0 <= i < |coeffs|) ==> r == 0.0
  {
    if 0 <= i < |coeffs| then coeffs[i] else 0.0
  }

  /** A copy of every constraint, field by field. */
  function DeepCopyConstraints(cs: seq<Constraint>): (r: seq<Constraint>)
    ensures |r| == |cs|
    ensures forall i :: 0 <= i < |r| ==> r[i] == cs[i]
  {
    if |cs| == 0 then []
    else [Constraint(cs[0].relation, cs[0].rhs, cs[0].coeffs[..])] + DeepCopyConstraints(cs[1..])
  }

  /** A copy of the model whose sense defaults to "min". */
  function NormalizeModel(m: Model): (r: Model)
    ensures r.numVars == m.numVars
    ensures r.constraints == m.constraints
    ensures r.objective.coeffs == m.objective.coeffs
    ensures r.objective.sense != ""
    ensures m.objective.sense != "" ==> r.objective.sense == m.objective.sense
  {
    Model(m.numVars,
          Objective(if m.objective.sense == "" then "min" else m.objective.sense, m.objective.coeffs[..]),
          DeepCopyConstraints(m.constraints))
  }

  /** `Array(n).fill(0)` with a 1 at `k`. */
  function UnitVector(n: nat, k: nat): (r: seq<real>)
    requires k < n
    ensures |r| == n
    ensures r[k] == 1.0
    ensures forall j :: 0 <= j < n && j != k ==> r[j] == 0.0
  {
    seq(n, j => if j == k then 1.0 else 0.0)
  }

  /** The model with one more constraint `x[varIndex] relation rhs`. */
  function CloneModelWithConstraint(m: Model, varIndex: nat, relation: Relation, rhs: real): (r: Model)
    requires varIndex < m.numVars
    ensures r.numVars == m.numVars
    ensures r.objective.coeffs == m.objective.coeffs
    ensures |r.constraints| == |m.constraints| + 1
    ensures r.constraints[..|m.constraints|] == m.constraints
    ensures r.constraints[|m.constraints|] == Constraint(relation, rhs, UnitVector(m.numVars, varIndex))
  {
    var cloned := NormalizeModel(m);
    cloned.(constraints := cloned.constraints + [Constraint(relation, rhs, UnitVector(cloned.numVars, varIndex))])
  }

  /** Every constraint has at most one coefficient per variable. */
  predicate WellFormed(m: Model)
  {
    forall i :: 0 <= i < |m.constraints| ==> |m.constraints[i].coeffs| <= m.numVars
  }

  /** Adding a bound keeps a model well formed. */
  lemma CloneKeepsWellFormed(m: Model, varIndex: nat, relation: Relation, rhs: real)
    requires varIndex < m.numVars && WellFormed(m)
    ensures WellFormed(CloneModelWithConstraint(m, varIndex, relation, rhs))
  {
    var r := CloneModelWithConstraint(m, varIndex, relation, rhs);
    forall i | 0 <= i < |r.constraints| ensures |r.constraints[i].coeffs| <= r.numVars {
      if i < |m.constraints| {
        assert r.constraints[i] == r.constraints[..|m.constraints|][i];
      }
    }
  }
}
