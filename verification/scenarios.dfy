/** Concrete runs of the model on small instances. */
module Scenarios {
  import opened Wrappers
  import opened Numbers
  import opened IlpModel
  import opened CuttingPlaneSolver
  import Text

  /** maximize x1 + x2 subject to x1 <= 2.5, both Integer, x1 in [0, unbounded) and x2 in
      [0, 0]. */
  function ExampleModel(): Model {
    Model(Some("Maximize"), [1.0, 1.0],
      [Variable("x1", "Integer", Some(0.0), None, None), Variable("x2", "Integer", Some(0.0), Some(0.0), None)],
      [Constraint([1.0, 0.0], "<=", 2.5)])
  }

  /** The example model is what the operations build from an empty model, with the
      objective type spelled in lower case. */
  lemma ExampleModelFromOperations()
    ensures AddConstraint(
              SetObjective(
                AddVariable(AddVariable(EmptyModel(), "x1", "Integer", Some(0.0), None), "x2", "Integer", Some(0.0), Some(0.0)),
                [1.0, 1.0], "maximize"),
              [1.0, 0.0], "<=", 2.5)
            == ExampleModel()
  {
    var vars := [Variable("x1", "Integer", Some(0.0), None, None), Variable("x2", "Integer", Some(0.0), Some(0.0), None)];
    var m1 := AddVariable(EmptyModel(), "x1", "Integer", Some(0.0), None);
    assert m1 == Model(None, [], vars[..1], []);
    var m2 := AddVariable(m1, "x2", "Integer", Some(0.0), Some(0.0));
    assert m2 == Model(None, [], vars, []);
    Text.CapitalizeUnique("maximize", "Maximize");
    assert SetObjective(m2, [1.0, 1.0], "maximize") == Model(Some("Maximize"), [1.0, 1.0], vars, []);
  }

  /** A solver for the example that answers with the optimum of each relaxation the loop
      builds: x1 = 2.5 before the cut and x1 = 2 after it (`FirstAnswerIsOptimal`,
      `SecondAnswerIsOptimal`). */
  function ExampleSolver(lp: Relaxation): LpAnswer {
    if |lp.rows| == 1 then LpAnswer(Optimal, Some(2.5), [Some(2.5), Some(0.0)])
    else LpAnswer(Optimal, Some(2.0), [Some(2.0), Some(0.0)])
  }

  /** x satisfies every bound and every row of the relaxation. */
  predicate Feasible(lp: Relaxation, x: seq<real>) {
    && |x| == |lp.columns|
    && (forall j :: 0 <= j < |x| ==> lp.columns[j].lowBound.Some? ==> lp.columns[j].lowBound.value <= x[j])
    && (forall j :: 0 <= j < |x| ==> lp.columns[j].upBound.Some? ==> x[j] <= lp.columns[j].upBound.value)
    && (forall i :: 0 <= i < |lp.rows| ==> |lp.rows[i].coeffs| <= |x| && RowHolds(lp.rows[i], x))
  }

  predicate RowHolds(row: Row, x: seq<real>)
    requires |row.coeffs| <= |x|
  {
    match row.sense
    case Le => Activity(row.coeffs, x) <= row.rhs
    case Ge => Activity(row.coeffs, x) >= row.rhs
    case Eq => Activity(row.coeffs, x) == row.rhs
  }

  /** lp maximizes and the answer is its optimum: its point is feasible, it reports that
      point's objective, and no feasible point does better (with the answer's point the
      only one reaching it). */
  ghost predicate AnswersMaximum(lp: Relaxation, answer: LpAnswer, x: seq<real>) {
    && lp.sense == Maximize
    && answer.status == Optimal
    && answer.values == seq(|x|, j requires 0 <= j < |x| => Some(x[j]))
    && Feasible(lp, x)
    && |lp.objective| <= |x|
    && answer.objective == Some(Activity(lp.objective, x))
    && (forall y :: Feasible(lp, y) && |lp.objective| <= |y| ==> Activity(lp.objective, y) <= Activity(lp.objective, x))
    && (forall y :: Feasible(lp, y) && |lp.objective| <= |y| && Activity(lp.objective, y) == Activity(lp.objective, x) ==> y == x)
  }

  lemma {:induction false} PairActivity(c: seq<real>, x: seq<real>)
    requires |c| == 2 && |x| == 2
    ensures Activity(c, x) == c[0] * x[0] + c[1] * x[1]
  {
    assert c[1..][1..] == [];
    assert Activity(c[1..][1..], x[1..][1..]) == 0.0;
  }

  /** The objective x1 + x2 over x1 <= bound, x1 >= 0 and x2 in [0, 0] is at most `bound`,
      reached only at (bound, 0). */
  lemma ExampleBound(lp: Relaxation, bound: real, y: seq<real>)
    requires Feasible(lp, y)
    requires lp.objective == [1.0, 1.0]
    requires |lp.columns| == 2 && lp.columns[1].lowBound == Some(0.0) && lp.columns[1].upBound == Some(0.0)
    requires 1 <= |lp.rows| && lp.rows[|lp.rows| - 1] == Row([1.0, 0.0], Le, bound)
    ensures Activity(lp.objective, y) <= bound
    ensures Activity(lp.objective, y) == bound ==> y == [bound, 0.0]
  {
    PairActivity(lp.objective, y);
    var row := lp.rows[|lp.rows| - 1];
    assert RowHolds(row, y);
    PairActivity(row.coeffs, y);
    assert y[1] == 0.0;
  }

  /** The columns of the example's relaxation. */
  function ExampleColumns(): seq<Column> {
    [Column("x1", Some(0.0), None), Column("x2", Some(0.0), Some(0.0))]
  }

  /** A relaxation shaped like the example: maximize x1 + x2 over the example's columns,
      where every row is x1 <= r with r >= bound and the last row is x1 <= bound. */
  predicate ExampleShape(lp: Relaxation, bound: real) {
    && lp.sense == Maximize
    && lp.objective == [1.0, 1.0] && lp.columns == ExampleColumns()
    && 0.0 <= bound
    && 1 <= |lp.rows| && lp.rows[|lp.rows| - 1] == Row([1.0, 0.0], Le, bound)
    && forall i :: 0 <= i < |lp.rows| ==>
         lp.rows[i].coeffs == [1.0, 0.0] && lp.rows[i].sense == Le && bound <= lp.rows[i].rhs
  }

  lemma ExampleShapePointFeasible(lp: Relaxation, bound: real)
    requires ExampleShape(lp, bound)
    ensures Feasible(lp, [bound, 0.0])
  {
    var x := [bound, 0.0];
    forall i | 0 <= i < |lp.rows|
      ensures RowHolds(lp.rows[i], x)
    {
      PairActivity(lp.rows[i].coeffs, x);
    }
  }

  lemma ExampleShapeNoBetterPoint(lp: Relaxation, bound: real)
    requires ExampleShape(lp, bound)
    ensures forall y :: Feasible(lp, y) && |lp.objective| <= |y| ==> Activity(lp.objective, y) <= bound
    ensures forall y :: Feasible(lp, y) && |lp.objective| <= |y| && Activity(lp.objective, y) == bound ==> y == [bound, 0.0]
  {
    forall y | Feasible(lp, y) && |lp.objective| <= |y|
      ensures Activity(lp.objective, y) <= bound
      ensures Activity(lp.objective, y) == bound ==> y == [bound, 0.0]
    {
      ExampleBound(lp, bound, y);
    }
  }

  /** Maximizing x1 + x2 over a relaxation shaped like the example: the optimum is
      (bound, 0). */
  lemma ExampleShapeOptimum(lp: Relaxation, bound: real)
    requires ExampleShape(lp, bound)
    ensures AnswersMaximum(lp, LpAnswer(Optimal, Some(bound), [Some(bound), Some(0.0)]), [bound, 0.0])
  {
    var x := [bound, 0.0];
    PairActivity(lp.objective, x);
    ExampleShapePointFeasible(lp, bound);
    ExampleShapeNoBetterPoint(lp, bound);
    assert [Some(bound), Some(0.0)] == seq(|x|, j requires 0 <= j < |x| => Some(x[j]));
  }

  lemma RelaxExampleModel()
    ensures Relax(ExampleModel()) == Success(Relaxation(Maximize, ExampleColumns(), [1.0, 1.0], [Row([1.0, 0.0], Le, 2.5)]))
  {
    var m := ExampleModel();
    assert WellFormedConstraint(m.constraints[0], 2);
    var lp := Relax(m).value;
    assert lp.columns == ExampleColumns();
    assert lp.rows == [Row([1.0, 0.0], Le, 2.5)];
  }

  lemma RelaxAfterCut()
    ensures Relax(AfterCut())
      == Success(Relaxation(Maximize, ExampleColumns(), [1.0, 1.0], [Row([1.0, 0.0], Le, 2.5), Row([1.0, 0.0], Le, 2.0)]))
  {
    var m := AfterCut();
    assert WellFormedConstraint(m.constraints[0], 2) && WellFormedConstraint(m.constraints[1], 2);
    var lp := Relax(m).value;
    assert lp.columns == ExampleColumns();
    assert lp.rows == [Row([1.0, 0.0], Le, 2.5), Row([1.0, 0.0], Le, 2.0)];
  }

  /** The first answer is the optimum of the example's relaxation: (2.5, 0) is its unique
      best point. */
  lemma FirstAnswerIsOptimal()
    ensures Relax(ExampleModel()).Success?
    ensures AnswersMaximum(Relax(ExampleModel()).value, ExampleSolver(Relax(ExampleModel()).value), [2.5, 0.0])
  {
    RelaxExampleModel();
    var lp := Relaxation(Maximize, ExampleColumns(), [1.0, 1.0], [Row([1.0, 0.0], Le, 2.5)]);
    ExampleShapeOptimum(lp, 2.5);
  }

  /** The second answer is the optimum of the relaxation after the cut: (2, 0) is its unique
      best point. */
  lemma SecondAnswerIsOptimal()
    ensures Relax(AfterCut()).Success?
    ensures AnswersMaximum(Relax(AfterCut()).value, ExampleSolver(Relax(AfterCut()).value), [2.0, 0.0])
  {
    RelaxAfterCut();
    var lp := Relaxation(Maximize, ExampleColumns(), [1.0, 1.0], [Row([1.0, 0.0], Le, 2.5), Row([1.0, 0.0], Le, 2.0)]);
    ExampleShapeOptimum(lp, 2.0);
  }

  /** The model with the solver's values stored on its variables. */
  function Solved(m: Model, values: seq<Option<real>>): Model {
    m.(variables := StoreValues(m.variables, values))
  }

  /** When the relaxation builds, a pass is the decision on the solved model. */
  lemma PassIsDecideAfterSolve(m: Model, tol: real, solver: Relaxation -> LpAnswer)
    requires Relax(m).Success?
    ensures var answer := solver(Relax(m).value);
      Pass(m, tol, solver) == Decide(Solved(m, answer.values), answer.status, answer.objective, tol)
  {
    var m1 := BuildLpRelaxation(m).0;
    var answer := solver(Relax(m).value);
    assert StoreValues(m1.variables, answer.values) == StoreValues(m.variables, answer.values);
  }

  /** An Integer variable of the example with a solved value. */
  function IntegerVar(name: string, upBound: Option<real>, value: real): Variable {
    Variable(name, "Integer", Some(0.0), upBound, Some(RelaxVar(Some(value))))
  }

  lemma ExampleValues()
    ensures DistanceToInteger(2.5) == 0.5
    ensures DistanceToInteger(2.0) == 0.0 && DistanceToInteger(0.0) == 0.0
    ensures (2.5).Floor == 2
  {
    assert (2.5).Floor == 2;
    assert (2.0).Floor == 2;
    assert (0.0).Floor == 0;
  }

  /** The example after the first solve: x1 = 2.5, x2 = 0. */
  function FirstSolved(): Model {
    ExampleModel().(variables := [IntegerVar("x1", None, 2.5), IntegerVar("x2", Some(0.0), 0.0)])
  }

  /** The example after the first cut, x1 <= 2. */
  function AfterCut(): Model {
    FirstSolved().(constraints := ExampleModel().constraints + [Constraint([1.0, 0.0], "<=", 2.0)])
  }

  /** The example after the second solve: x1 = 2, x2 = 0. */
  function SecondSolved(): Model {
    AfterCut().(variables := [IntegerVar("x1", None, 2.0), IntegerVar("x2", Some(0.0), 0.0)])
  }

  lemma FirstSolveStoresValues()
    ensures Solved(ExampleModel(), [Some(2.5), Some(0.0)]) == FirstSolved()
  {
  }

  lemma SecondSolveStoresValues()
    ensures Solved(AfterCut(), [Some(2.0), Some(0.0)]) == SecondSolved()
  {
  }

  lemma FirstCutIsOnX1()
    ensures GenerateCut(FirstSolved(), DefaultTolerance) == Some(Constraint([1.0, 0.0], "<=", 2.0))
  {
    var m := FirstSolved();
    ExampleValues();
    assert NeedsCut(m.variables[0], DefaultTolerance);
    assert UnitVector(2, 0) == [1.0, 0.0];
  }

  lemma SecondSolveIsIntegral()
    ensures IsIntegerSolution(SecondSolved(), DefaultTolerance)
  {
    var m := SecondSolved();
    ExampleValues();
    assert !NeedsCut(m.variables[0], DefaultTolerance);
    assert !NeedsCut(m.variables[1], DefaultTolerance);
  }

  lemma SecondSolution()
    ensures CurrentSolution(SecondSolved().variables) == map["x1" := Some(2.0), "x2" := Some(0.0)]
  {
    var vars := SecondSolved().variables;
    assert vars[..1] == [IntegerVar("x1", None, 2.0)];
    assert vars[..1][..0] == [];
  }

  /** The first pass finds x1 = 2.5 fractional and adds the cut x1 <= 2. */
  lemma ExampleFirstPass()
    ensures Pass(ExampleModel(), DefaultTolerance, ExampleSolver) == Continue(AfterCut())
  {
    var m := ExampleModel();
    assert Relax(m).Success?;
    PassIsDecideAfterSolve(m, DefaultTolerance, ExampleSolver);
    FirstSolveStoresValues();
    FirstCutIsOnX1();
  }

  /** The second pass finds x1 = 2, x2 = 0 integral and stops with objective 2. */
  lemma ExampleSecondPass()
    ensures Pass(AfterCut(), DefaultTolerance, ExampleSolver)
      == Stop(Integral(map["x1" := Some(2.0), "x2" := Some(0.0)], Some(2.0)), SecondSolved())
  {
    var m := AfterCut();
    assert WellFormedConstraint(m.constraints[0], 2) && WellFormedConstraint(m.constraints[1], 2);
    assert Relax(m).Success?;
    PassIsDecideAfterSolve(m, DefaultTolerance, ExampleSolver);
    SecondSolveStoresValues();
    SecondSolveIsIntegral();
    SecondSolution();
  }

  /** A Binary variable declared with bounds [-10, 10] keeps those bounds in the relaxation;
      only the typed PuLP variable forces [0, 1]. */
  lemma BinaryBoundsOnlyForcedWhenTyped()
    ensures var m := SetObjective(AddVariable(EmptyModel(), "b", "Binary", Some(-10.0), Some(10.0)), [1.0], "Maximize");
      && Relax(m).Success?
      && Relax(m).value.columns == [Column("b", Some(-10.0), Some(10.0))]
      && CreatePulpVar(m.variables[0]) == Success(TypedVar("b", Some(0.0), Some(1.0), LpBinary))
  {
    var m := SetObjective(AddVariable(EmptyModel(), "b", "Binary", Some(-10.0), Some(10.0)), [1.0], "Maximize");
    SetObjectiveAcceptedSpellings(AddVariable(EmptyModel(), "b", "Binary", Some(-10.0), Some(10.0)), [1.0], "Maximize");
  }
}
