/** The ILP model: decision variables in registration order, an objective, and a
    constraint list that only grows; plus the LP relaxation built from it and the
    interface to the external LP solver, which the model treats as an oracle. */
module IlpModel {
  import opened Wrappers
  import opened Numbers
  import opened Text

  // ---------------------------------------------------------------------------
  // Data model
  // ---------------------------------------------------------------------------

  /** The continuous variable the relaxation attaches to a decision variable. Its value
      is absent until a solve assigns one. */
  datatype RelaxVar = RelaxVar(varValue: Option<real>)

  /** A decision variable. The type is kept as the caller spelled it ("Continuous",
      "Integer", "Binary"); nothing checks it when the variable is added. A missing
      bound means unbounded on that side. `relax` is absent until the first relaxation
      is built. */
  datatype Variable = Variable(
    name: string,
    varType: string,
    lowBound: Option<real>,
    upBound: Option<real>,
    relax: Option<RelaxVar>)

  /** A linear constraint: coefficient i belongs to the i-th registered variable; the
      comparison is kept as spelled ("<=", ">=", "="). */
  datatype Constraint = Constraint(coeffs: seq<real>, comparison: string, rhs: real)

  /** The model. The objective type is absent until `SetObjective` is called. */
  datatype Model = Model(
    objectiveType: Option<string>,
    objectiveCoeffs: seq<real>,
    variables: seq<Variable>,
    constraints: seq<Constraint>)

  /** Everything that can make building the relaxation (or a typed PuLP variable) fail:
      the source's ValueError and IndexError cases. */
  datatype ModelError =
    | UnknownVariableType(varType: string)
    | UnknownObjectiveType(objectiveType: Option<string>)
    | ObjectiveIndexOutOfRange
    | ConstraintIndexOutOfRange(index: nat)
    | UnknownComparison(index: nat, comparison: string)

  /** A model with nothing registered yet. */
  function EmptyModel(): (r: Model)
    ensures r.objectiveType.None? && |r.objectiveCoeffs| == 0
    ensures |r.variables| == 0 && |r.constraints| == 0
  {
    Model(None, [], [], [])
  }

  /** A fresh model cannot be built: building before an objective is set raises. */
  lemma EmptyModelNeedsObjective()
    ensures Relax(EmptyModel()) == Failure(UnknownObjectiveType(None))
    ensures BuildLpRelaxation(EmptyModel()) == (EmptyModel(), Failure(UnknownObjectiveType(None)))
  {
  }

  // ---------------------------------------------------------------------------
  // Variable
  // ---------------------------------------------------------------------------

  /** Whether the variable must take an integer value. */
  function IsIntegerRequired(v: Variable): (r: bool)
    ensures r <==> v.varType == "Integer" || v.varType == "Binary"
  {
    v.varType in ["Integer", "Binary"]
  }

  /** The value the last solve gave the variable, if any. A relaxation variable that is
      present counts as set (PuLP variables are always truthy), so only a missing one or a
      missing value gives None. */
  function GetValue(v: Variable): (r: Option<real>)
    ensures r.Some? <==> v.relax.Some? && v.relax.value.varValue.Some?
    ensures r.Some? ==> r.value == v.relax.value.varValue.value
  {
    if v.relax.Some? then v.relax.value.varValue else None
  }

  /** Whether the variable is integer-required, has a value, and that value lies more
      than `tol` away from every integer. */
  function IsFractional(v: Variable, tol: real): (r: bool)
    ensures r <==> IsIntegerRequired(v) && GetValue(v).Some? && DistanceToInteger(GetValue(v).value) > tol
  {
    if !IsIntegerRequired(v) || v.relax.None? then false
    else match GetValue(v)
      case None => false
      case Some(val) => Abs(val - PyRound(val) as real) > tol
  }

  /** With a non-negative tolerance, a fractional value lies strictly above its floor and
      strictly below the next integer. */
  lemma FractionalValueIsNotIntegral(v: Variable, tol: real)
    requires 0.0 <= tol
    requires IsFractional(v, tol)
    ensures GetValue(v).Some?
    ensures GetValue(v).value.Floor as real < GetValue(v).value < GetValue(v).value.Floor as real + 1.0
  {
    var x := GetValue(v).value;
    assert DistanceToInteger(x) > 0.0;
  }

  /** PuLP's variable categories. */
  datatype Category = LpContinuous | LpInteger | LpBinary

  /** A typed PuLP variable: name, bounds and category. */
  datatype TypedVar = TypedVar(name: string, lowBound: Option<real>, upBound: Option<real>, category: Category)

  /** The typed variable for a declaration: Binary gets the fixed bounds [0, 1]; Continuous
      and Integer keep the stored bounds; any other type is rejected. */
  function CreatePulpVar(v: Variable): (r: Result<TypedVar, ModelError>)
    ensures r.Failure? <==> v.varType !in {"Continuous", "Integer", "Binary"}
    ensures r.Failure? ==> r.error == UnknownVariableType(v.varType)
    ensures r.Success? ==> r.value.name == v.name
    ensures r.Success? && v.varType == "Binary" ==> r.value.lowBound == Some(0.0) && r.value.upBound == Some(1.0)
    ensures r.Success? && v.varType != "Binary" ==> r.value.lowBound == v.lowBound && r.value.upBound == v.upBound
    ensures r.Success? ==> (IsIntegerRequired(v) <==> r.value.category != LpContinuous)
    ensures v.varType == "Continuous" ==> r == Success(TypedVar(v.name, v.lowBound, v.upBound, LpContinuous))
    ensures v.varType == "Integer" ==> r == Success(TypedVar(v.name, v.lowBound, v.upBound, LpInteger))
    ensures v.varType == "Binary" ==> r == Success(TypedVar(v.name, Some(0.0), Some(1.0), LpBinary))
  {
    if v.varType == "Continuous" then Success(TypedVar(v.name, v.lowBound, v.upBound, LpContinuous))
    else if v.varType == "Integer" then Success(TypedVar(v.name, v.lowBound, v.upBound, LpInteger))
    else if v.varType == "Binary" then Success(TypedVar(v.name, Some(0.0), Some(1.0), LpBinary))
    else Failure(UnknownVariableType(v.varType))
  }

  /** A variable with its relaxation state cleared: what was declared for it. */
  function Declaration(v: Variable): Variable {
    v.(relax := None)
  }

  /** Two variable lists that declare the same variables, in the same order. */
  predicate SameDeclarations(a: seq<Variable>, b: seq<Variable>) {
    |a| == |b| && forall i :: 0 <= i < |a| ==> Declaration(a[i]) == Declaration(b[i])
  }

  /** Integer-requirement depends on the declaration only, so no solve or rebuild can
      change it. */
  lemma SameDeclarationsKeepIntegerRequired(a: seq<Variable>, b: seq<Variable>, i: nat)
    requires SameDeclarations(a, b)
    requires i < |a|
    ensures IsIntegerRequired(a[i]) <==> IsIntegerRequired(b[i])
    ensures a[i].name == b[i].name
  {
    assert Declaration(a[i]) == Declaration(b[i]);
  }

  // ---------------------------------------------------------------------------
  // ILPModel operations
  // ---------------------------------------------------------------------------

  /** Replace the objective: the coefficients verbatim, the type capitalized. */
  function SetObjective(m: Model, coeffs: seq<real>, objType: string): (r: Model)
    ensures r.objectiveCoeffs == coeffs
    ensures r.objectiveType.Some?
    ensures EqualIgnoringCase(r.objectiveType.value, objType)
    ensures |objType| > 0 ==> !IsLower(r.objectiveType.value[0])
    ensures forall i :: 1 <= i < |objType| ==> !IsUpper(r.objectiveType.value[i])
    ensures r.variables == m.variables && r.constraints == m.constraints
  {
    m.(objectiveCoeffs := coeffs, objectiveType := Some(Capitalize(objType)))
  }

  /** After SetObjective, building the relaxation accepts the objective type exactly when
      it was spelled "Maximize" or "Minimize" in any mixture of letter case. */
  lemma SetObjectiveAcceptedSpellings(m: Model, coeffs: seq<real>, objType: string)
    ensures ObjectiveSense(SetObjective(m, coeffs, objType).objectiveType) == Some(Maximize)
      <==> EqualIgnoringCase(objType, "Maximize")
    ensures ObjectiveSense(SetObjective(m, coeffs, objType).objectiveType) == Some(Minimize)
      <==> EqualIgnoringCase(objType, "Minimize")
  {
    CapitalizeUnique("Maximize", "Maximize");
    CapitalizeUnique("Minimize", "Minimize");
    CapitalizeAgreesIffEqualIgnoringCase(objType, "Maximize");
    CapitalizeAgreesIffEqualIgnoringCase(objType, "Minimize");
  }

  /** Append one variable with no relaxation state; earlier variables keep their
      positions, so every existing coefficient vector keeps its meaning. */
  function AddVariable(m: Model, name: string, varType: string, lowBound: Option<real>, upBound: Option<real>): (r: Model)
    ensures |r.variables| == |m.variables| + 1
    ensures r.variables[..|m.variables|] == m.variables
    ensures r.variables[|m.variables|] == Variable(name, varType, lowBound, upBound, None)
    ensures r.objectiveType == m.objectiveType && r.objectiveCoeffs == m.objectiveCoeffs
    ensures r.constraints == m.constraints
  {
    m.(variables := m.variables + [Variable(name, varType, lowBound, upBound, None)])
  }

  /** Append one constraint, unvalidated; nothing else changes. */
  function AddConstraint(m: Model, coeffs: seq<real>, comparison: string, rhs: real): (r: Model)
    ensures |r.constraints| == |m.constraints| + 1
    ensures r.constraints[..|m.constraints|] == m.constraints
    ensures r.constraints[|m.constraints|] == Constraint(coeffs, comparison, rhs)
    ensures r.objectiveType == m.objectiveType && r.objectiveCoeffs == m.objectiveCoeffs
    ensures r.variables == m.variables
  {
    m.(constraints := m.constraints + [Constraint(coeffs, comparison, rhs)])
  }

  // ---------------------------------------------------------------------------
  // LP relaxation
  // ---------------------------------------------------------------------------

  datatype Sense = Maximize | Minimize
  datatype RowSense = Le | Ge | Eq

  /** A continuous relaxation variable with its bounds. */
  datatype Column = Column(name: string, lowBound: Option<real>, upBound: Option<real>)

  /** A relaxation row: coefficient j multiplies column j; a row shorter than the column
      list leaves the remaining columns out of the sum. */
  datatype Row = Row(coeffs: seq<real>, sense: RowSense, rhs: real)

  /** The LP handed to the solver. The objective, like a row, may be shorter than the
      column list. */
  datatype Relaxation = Relaxation(sense: Sense, columns: seq<Column>, objective: seq<real>, rows: seq<Row>)

  /** The recognised objective types, after capitalization. */
  function ObjectiveSense(t: Option<string>): (r: Option<Sense>)
    ensures r == Some(Maximize) <==> t == Some("Maximize")
    ensures r == Some(Minimize) <==> t == Some("Minimize")
  {
    if t == Some("Maximize") then Some(Maximize)
    else if t == Some("Minimize") then Some(Minimize)
    else None
  }

  /** The recognised comparison spellings. */
  function ComparisonSense(s: string): (r: Option<RowSense>)
    ensures r.Some? <==> s in {"<=", ">=", "="}
    ensures s == "<=" ==> r == Some(Le)
    ensures s == ">=" ==> r == Some(Ge)
    ensures s == "=" ==> r == Some(Eq)
  {
    if s == "<=" then Some(Le)
    else if s == ">=" then Some(Ge)
    else if s == "=" then Some(Eq)
    else None
  }

  /** A constraint the relaxation can take when n variables are registered. */
  predicate WellFormedConstraint(c: Constraint, n: nat) {
    |c.coeffs| <= n && ComparisonSense(c.comparison).Some?
  }

  /** Constraint k is the first among cs[i..] that cannot be built with n variables. */
  predicate FirstBadConstraint(cs: seq<Constraint>, n: nat, i: nat, k: nat) {
    && i <= k < |cs|
    && !WellFormedConstraint(cs[k], n)
    && forall j :: i <= j < k ==> WellFormedConstraint(cs[j], n)
  }

  /** The error the first bad constraint, number k, raises: its coefficients are summed
      against the variables before its comparison is looked at. */
  function ConstraintError(c: Constraint, n: nat, k: nat): ModelError {
    if |c.coeffs| > n then ConstraintIndexOutOfRange(k) else UnknownComparison(k, c.comparison)
  }

  /** Every variable becomes a continuous column with its stored bounds. */
  function Columns(vars: seq<Variable>): (r: seq<Column>)
    ensures |r| == |vars|
    ensures forall i :: 0 <= i < |vars| ==> r[i] == Column(vars[i].name, vars[i].lowBound, vars[i].upBound)
  {
    seq(|vars|, i requires 0 <= i < |vars| => Column(vars[i].name, vars[i].lowBound, vars[i].upBound))
  }

  /** The rows for constraints i.. of cs, in order, or the error of the first constraint
      among them that cannot be built with n variables. */
  function RowsFrom(cs: seq<Constraint>, n: nat, i: nat): (r: Result<seq<Row>, ModelError>)
    requires i <= |cs|
    decreases |cs| - i
    ensures r.Success? <==> forall j :: i <= j < |cs| ==> WellFormedConstraint(cs[j], n)
    ensures r.Success? ==> |r.value| == |cs| - i
    ensures r.Success? ==> forall j :: i <= j < |cs| ==>
      r.value[j - i] == Row(cs[j].coeffs, ComparisonSense(cs[j].comparison).value, cs[j].rhs)
    ensures r.Failure? ==> exists k: nat :: FirstBadConstraint(cs, n, i, k) && r.error == ConstraintError(cs[k], n, k)
  {
    if i == |cs| then Success([])
    else
      var c := cs[i];
      if |c.coeffs| > n then
        assert FirstBadConstraint(cs, n, i, i);
        Failure(ConstraintIndexOutOfRange(i))
      else match ComparisonSense(c.comparison)
        case None =>
          assert FirstBadConstraint(cs, n, i, i);
          Failure(UnknownComparison(i, c.comparison))
        case Some(sense) =>
          assert WellFormedConstraint(c, n);
          match RowsFrom(cs, n, i + 1)
          case Failure(e) => Failure(e)
          case Success(rest) => Success([Row(c.coeffs, sense, c.rhs)] + rest)
  }

  /** The relaxation of the model, or the error building it raises. The objective type is
      checked first, then the objective's length, then the constraints in order. */
  function Relax(m: Model): (r: Result<Relaxation, ModelError>)
    ensures r.Success? <==>
      && ObjectiveSense(m.objectiveType).Some?
      && |m.objectiveCoeffs| <= |m.variables|
      && forall j :: 0 <= j < |m.constraints| ==> WellFormedConstraint(m.constraints[j], |m.variables|)
    ensures ObjectiveSense(m.objectiveType).None? ==> r == Failure(UnknownObjectiveType(m.objectiveType))
    ensures ObjectiveSense(m.objectiveType).Some? && |m.objectiveCoeffs| > |m.variables| ==>
      r == Failure(ObjectiveIndexOutOfRange)
    ensures r.Failure? && ObjectiveSense(m.objectiveType).Some? && |m.objectiveCoeffs| <= |m.variables| ==>
      exists k: nat :: FirstBadConstraint(m.constraints, |m.variables|, 0, k)
        && r.error == ConstraintError(m.constraints[k], |m.variables|, k)
    ensures r.Success? ==>
      && r.value.sense == ObjectiveSense(m.objectiveType).value
      && |r.value.columns| == |m.variables|
      && (forall i :: 0 <= i < |m.variables| ==>
            r.value.columns[i] == Column(m.variables[i].name, m.variables[i].lowBound, m.variables[i].upBound))
      && r.value.objective == m.objectiveCoeffs
      && |r.value.rows| == |m.constraints|
      && (forall j :: 0 <= j < |m.constraints| ==>
            r.value.rows[j] == Row(m.constraints[j].coeffs, ComparisonSense(m.constraints[j].comparison).value, m.constraints[j].rhs))
  {
    match ObjectiveSense(m.objectiveType)
    case None => Failure(UnknownObjectiveType(m.objectiveType))
    case Some(sense) =>
      if |m.objectiveCoeffs| > |m.variables| then Failure(ObjectiveIndexOutOfRange)
      else match RowsFrom(m.constraints, |m.variables|, 0)
        case Failure(e) => Failure(e)
        case Success(rows) => Success(Relaxation(sense, Columns(m.variables), m.objectiveCoeffs, rows))
  }

  /** The variables with fresh relaxation variables attached, none of them holding a value. */
  function Rebind(vars: seq<Variable>): (r: seq<Variable>)
    ensures SameDeclarations(r, vars)
    ensures forall i :: 0 <= i < |r| ==> r[i].relax == Some(RelaxVar(None))
  {
    seq(|vars|, i requires 0 <= i < |vars| => vars[i].(relax := Some(RelaxVar(None))))
  }

  /** Building the relaxation: an unknown objective type fails before anything is touched;
      otherwise every variable is given a fresh relaxation variable, and the formulation
      is produced or the first dimension or comparison error is raised. */
  function BuildLpRelaxation(m: Model): (r: (Model, Result<Relaxation, ModelError>))
    ensures r.1 == Relax(m)
    ensures ObjectiveSense(m.objectiveType).None? ==> r.0 == m
    ensures SameDeclarations(r.0.variables, m.variables)
    ensures ObjectiveSense(m.objectiveType).Some? ==>
      forall i :: 0 <= i < |r.0.variables| ==> GetValue(r.0.variables[i]).None? && r.0.variables[i].relax.Some?
    ensures r.0.objectiveType == m.objectiveType && r.0.objectiveCoeffs == m.objectiveCoeffs
    ensures r.0.constraints == m.constraints
    ensures Relax(r.0) == Relax(m)
  {
    if ObjectiveSense(m.objectiveType).None? then (m, Relax(m))
    else
      var m1 := m.(variables := Rebind(m.variables));
      RelaxIgnoresSolverState(m1, m);
      (m1, Relax(m))
  }

  /** The relaxation is a function of the declarations, the objective and the
      constraints: the values a solve left behind play no part in it. */
  lemma RelaxIgnoresSolverState(m1: Model, m2: Model)
    requires SameDeclarations(m1.variables, m2.variables)
    requires m1.objectiveType == m2.objectiveType && m1.objectiveCoeffs == m2.objectiveCoeffs
    requires m1.constraints == m2.constraints
    ensures Relax(m1) == Relax(m2)
  {
    assert Columns(m1.variables) == Columns(m2.variables) by {
      forall i | 0 <= i < |m1.variables|
        ensures Columns(m1.variables)[i] == Columns(m2.variables)[i]
      {
        assert Declaration(m1.variables[i]) == Declaration(m2.variables[i]);
      }
    }
  }

  /** Building twice without changing the model gives the same model state and the same
      objective, bounds and constraints, because each build starts from the model. */
  lemma BuildTwiceSameAsOnce(m: Model)
    ensures BuildLpRelaxation(BuildLpRelaxation(m).0) == BuildLpRelaxation(m)
  {
    var m1 := BuildLpRelaxation(m).0;
    if ObjectiveSense(m.objectiveType).Some? {
      RelaxIgnoresSolverState(m1, m);
      assert Rebind(m1.variables) == m1.variables;
    }
  }

  // ---------------------------------------------------------------------------
  // The external LP solver
  // ---------------------------------------------------------------------------

  /** The labels PuLP reports for a solve. */
  datatype LpStatus = Optimal | NotSolved | Infeasible | Unbounded | Undefined

  /** What the solver answers for a relaxation: a status, the objective value, and one
      value per column (a column the answer does not reach keeps no value). */
  datatype LpAnswer = LpAnswer(status: LpStatus, objective: Option<real>, values: seq<Option<real>>)

  /** The variables hold the answer's values, position by position; a variable beyond
      the answer's values holds none. */
  predicate HoldsAnswer(vars: seq<Variable>, values: seq<Option<real>>) {
    forall i :: 0 <= i < |vars| ==> GetValue(vars[i]) == (if i < |values| then values[i] else None)
  }

  /** Store a solve's values on the variables, position by position. */
  function StoreValues(vars: seq<Variable>, values: seq<Option<real>>): (r: seq<Variable>)
    ensures SameDeclarations(r, vars)
    ensures forall i :: 0 <= i < |r| ==> GetValue(r[i]) == (if i < |values| then values[i] else None)
  {
    seq(|vars|, i requires 0 <= i < |vars| =>
      vars[i].(relax := Some(RelaxVar(if i < |values| then values[i] else None))))
  }

  /** Solve a built relaxation with the given solver: every variable takes the value the
      solver gave its column; the declarations, objective and constraints are untouched,
      so the model's relaxation is still the one that was solved. */
  function SolveLpRelaxation(m: Model, lp: Relaxation, solver: Relaxation -> LpAnswer): (r: (Model, LpStatus, Option<real>))
    requires Relax(m) == Success(lp)
    ensures r.1 == solver(lp).status && r.2 == solver(lp).objective
    ensures SameDeclarations(r.0.variables, m.variables)
    ensures forall i :: 0 <= i < |r.0.variables| ==>
      GetValue(r.0.variables[i]) == (if i < |solver(lp).values| then solver(lp).values[i] else None)
    ensures r.0.objectiveType == m.objectiveType && r.0.objectiveCoeffs == m.objectiveCoeffs
    ensures r.0.constraints == m.constraints
    ensures Relax(r.0) == Success(lp)
  {
    var answer := solver(lp);
    var m' := m.(variables := StoreValues(m.variables, answer.values));
    RelaxIgnoresSolverState(m', m);
    (m', answer.status, answer.objective)
  }
}
