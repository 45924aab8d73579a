/** The cutting-plane loop: solve the relaxation, check integrality, and either stop or
    add a rounding cut on the first fractional integer-required variable and solve again.
    The cut is a bound x_k <= floor(x_k*), not a Gomory cut. */
module CuttingPlaneSolver {
  import opened Wrappers
  import opened Numbers
  import opened IlpModel

  /** The tolerance a solver gets when none is given. */
  const DefaultTolerance: real := 0.000001

  /** A variable the integrality check rejects. */
  predicate NeedsCut(v: Variable, tol: real) {
    IsIntegerRequired(v) && IsFractional(v, tol)
  }

  // ---------------------------------------------------------------------------
  // Integrality check
  // ---------------------------------------------------------------------------

  /** The scan over vars[i..] for a variable that is integer-required and fractional. */
  function IntegralFrom(vars: seq<Variable>, tol: real, i: nat): (r: bool)
    requires i <= |vars|
    decreases |vars| - i
    ensures r <==> forall j :: i <= j < |vars| ==> !NeedsCut(vars[j], tol)
  {
    if i == |vars| then true
    else if IsIntegerRequired(vars[i]) && IsFractional(vars[i], tol) then false
    else IntegralFrom(vars, tol, i + 1)
  }

  /** Whether the current relaxed point is integral: every integer-required variable that
      holds a value lies within `tol` of an integer. */
  function IsIntegerSolution(m: Model, tol: real): (r: bool)
    ensures r <==> forall j :: 0 <= j < |m.variables| ==> !NeedsCut(m.variables[j], tol)
    ensures r <==> forall j :: 0 <= j < |m.variables| && IsIntegerRequired(m.variables[j]) && GetValue(m.variables[j]).Some? ==>
      DistanceToInteger(GetValue(m.variables[j]).value) <= tol
  {
    IntegralFrom(m.variables, tol, 0)
  }

  // ---------------------------------------------------------------------------
  // Cut generation
  // ---------------------------------------------------------------------------

  /** The scan over vars[i..] for the variable to cut on: the first that is
      integer-required, fractional and has a value. */
  function SelectFrom(vars: seq<Variable>, tol: real, i: nat): (r: Option<nat>)
    requires i <= |vars|
    decreases |vars| - i
    ensures r.Some? ==> i <= r.value < |vars| && NeedsCut(vars[r.value], tol)
    ensures r.Some? ==> forall j :: i <= j < r.value ==> !NeedsCut(vars[j], tol)
    ensures r.None? <==> forall j :: i <= j < |vars| ==> !NeedsCut(vars[j], tol)
  {
    if i == |vars| then None
    else if IsIntegerRequired(vars[i]) && IsFractional(vars[i], tol) && GetValue(vars[i]).Some? then Some(i)
    else SelectFrom(vars, tol, i + 1)
  }

  /** The position of the variable the cut is generated for: the first, in registration
      order, that the integrality check rejects. There is one exactly when the check
      fails. */
  function SelectCutVariable(m: Model, tol: real): (r: Option<nat>)
    ensures r.None? <==> IsIntegerSolution(m, tol)
    ensures r.Some? ==> r.value < |m.variables| && NeedsCut(m.variables[r.value], tol)
    ensures r.Some? ==> forall j :: 0 <= j < r.value ==> !NeedsCut(m.variables[j], tol)
  {
    SelectFrom(m.variables, tol, 0)
  }

  /** n coefficients, 1 at position k and 0 elsewhere. */
  function UnitVector(n: nat, k: nat): (r: seq<real>)
    requires k < n
    ensures |r| == n
    ensures r[k] == 1.0 && forall j :: 0 <= j < n && j != k ==> r[j] == 0.0
  {
    seq(n, j requires 0 <= j < n => if j == k then 1.0 else 0.0)
  }

  /** The rounding cut x_k <= floor(value of x_k) on the selected variable k, or nothing
      when the relaxed point is integral. */
  function GenerateCut(m: Model, tol: real): (r: Option<Constraint>)
    ensures r.None? <==> IsIntegerSolution(m, tol)
    ensures r.Some? ==>
      var k := SelectCutVariable(m, tol).value;
      && |r.value.coeffs| == |m.variables|
      && r.value.coeffs[k] == 1.0
      && (forall j :: 0 <= j < |m.variables| && j != k ==> r.value.coeffs[j] == 0.0)
      && r.value.comparison == "<="
      && r.value.rhs == GetValue(m.variables[k]).value.Floor as real
  {
    match SelectFrom(m.variables, tol, 0)
    case None => None
    case Some(k) =>
      var floorVal := GetValue(m.variables[k]).value.Floor;
      Some(Constraint(UnitVector(|m.variables|, k), "<=", floorVal as real))
  }

  /** The left-hand side of a row at the point x: the sum of coeffs[j] * x[j] over the
      coefficients the row has. */
  function Activity(coeffs: seq<real>, x: seq<real>): real
    requires |coeffs| <= |x|
    decreases |coeffs|
  {
    if |coeffs| == 0 then 0.0 else coeffs[0] * x[0] + Activity(coeffs[1..], x[1..])
  }

  lemma {:induction false} ZeroActivity(c: seq<real>, x: seq<real>)
    requires |c| <= |x|
    requires forall j :: 0 <= j < |c| ==> c[j] == 0.0
    ensures Activity(c, x) == 0.0
    decreases |c|
  {
    if |c| > 0 {
      ZeroActivity(c[1..], x[1..]);
    }
  }

  /** A row that is 1 at k and 0 elsewhere measures x[k] alone. */
  lemma {:induction false} UnitActivity(c: seq<real>, x: seq<real>, k: nat)
    requires |c| <= |x| && k < |c|
    requires c[k] == 1.0
    requires forall j :: 0 <= j < |c| && j != k ==> c[j] == 0.0
    ensures Activity(c, x) == x[k]
    decreases |c|
  {
    if k == 0 {
      ZeroActivity(c[1..], x[1..]);
    } else {
      UnitActivity(c[1..], x[1..], k - 1);
    }
  }

  /** The point the last solve produced, x, violates the new cut: its activity exceeds the
      cut's right-hand side, since a fractional value lies above its floor. */
  lemma CutSeparatesRelaxedPoint(m: Model, tol: real, x: seq<real>)
    requires 0.0 <= tol
    requires GenerateCut(m, tol).Some?
    requires |x| == |m.variables|
    requires forall j :: 0 <= j < |x| && GetValue(m.variables[j]).Some? ==> x[j] == GetValue(m.variables[j]).value
    ensures Activity(GenerateCut(m, tol).value.coeffs, x) > GenerateCut(m, tol).value.rhs
  {
    var cut := GenerateCut(m, tol).value;
    var k := SelectCutVariable(m, tol).value;
    UnitActivity(cut.coeffs, x, k);
    FractionalValueIsNotIntegral(m.variables[k], tol);
  }

  /** The cut only ever tightens from above: every point whose selected coordinate is the
      next integer above the fractional value violates it too, so an integer optimum that
      needs rounding up is cut off. */
  lemma CutExcludesRoundedUpValue(m: Model, tol: real, x: seq<real>)
    requires GenerateCut(m, tol).Some?
    requires |x| == |m.variables|
    requires var k := SelectCutVariable(m, tol).value; x[k] == GetValue(m.variables[k]).value.Floor as real + 1.0
    ensures Activity(GenerateCut(m, tol).value.coeffs, x) > GenerateCut(m, tol).value.rhs
  {
    UnitActivity(GenerateCut(m, tol).value.coeffs, x, SelectCutVariable(m, tol).value);
  }

  // ---------------------------------------------------------------------------
  // The loop
  // ---------------------------------------------------------------------------

  /** The solution reported to the caller: each variable's name mapped to its value,
      written in registration order, so a later variable overwrites an earlier one of
      the same name. */
  function CurrentSolution(vars: seq<Variable>): (r: map<string, Option<real>>)
    decreases |vars|
    ensures |r| <= |vars|
    ensures |r| == 0 <==> |vars| == 0
  {
    if |vars| == 0 then map[]
    else CurrentSolution(vars[..|vars| - 1])[vars[|vars| - 1].name := GetValue(vars[|vars| - 1])]
  }

  /** Every registered name is a key of the reported solution. */
  lemma {:induction false} CurrentSolutionHasEveryName(vars: seq<Variable>)
    decreases |vars|
    ensures forall j :: 0 <= j < |vars| ==> vars[j].name in CurrentSolution(vars)
  {
    if |vars| > 0 {
      var n := |vars| - 1;
      var prefix := vars[..n];
      CurrentSolutionHasEveryName(prefix);
      forall j | 0 <= j < n
        ensures vars[j].name in CurrentSolution(vars)
      {
        assert prefix[j] == vars[j];
      }
    }
  }

  /** Every key of the reported solution is a registered name. */
  lemma {:induction false} CurrentSolutionHasOnlyNames(vars: seq<Variable>)
    decreases |vars|
    ensures forall name :: name in CurrentSolution(vars) ==> exists j :: 0 <= j < |vars| && vars[j].name == name
  {
    if |vars| > 0 {
      var n := |vars| - 1;
      var prefix := vars[..n];
      CurrentSolutionHasOnlyNames(prefix);
      forall name | name in CurrentSolution(vars)
        ensures exists j :: 0 <= j < |vars| && vars[j].name == name
      {
        if name != vars[n].name {
          assert CurrentSolution(vars) == CurrentSolution(prefix)[vars[n].name := GetValue(vars[n])];
          assert name in CurrentSolution(prefix);
          var j :| 0 <= j < n && prefix[j].name == name;
          assert vars[j].name == name;
        } else {
          assert vars[n].name == name;
        }
      }
    }
  }

  /** Each name reports the value of the last variable registered under it. */
  lemma {:induction false} CurrentSolutionReportsLastValue(vars: seq<Variable>)
    decreases |vars|
    ensures forall j :: 0 <= j < |vars| && LastWithName(vars, j) ==>
      vars[j].name in CurrentSolution(vars) && CurrentSolution(vars)[vars[j].name] == GetValue(vars[j])
  {
    if |vars| > 0 {
      var n := |vars| - 1;
      var prefix := vars[..n];
      CurrentSolutionReportsLastValue(prefix);
      CurrentSolutionHasEveryName(prefix);
      CurrentSolutionHasEveryName(vars);
      forall j | 0 <= j < |vars| && LastWithName(vars, j)
        ensures CurrentSolution(vars)[vars[j].name] == GetValue(vars[j])
      {
        if j < n {
          assert prefix[j] == vars[j];
          assert vars[n].name != vars[j].name;
          assert LastWithName(prefix, j);
        }
      }
    }
  }

  /** No later variable carries the name of variable j. */
  predicate LastWithName(vars: seq<Variable>, j: nat)
    requires j < |vars|
  {
    forall k :: j < k < |vars| ==> vars[k].name != vars[j].name
  }

  /** How the loop ends. The source returns the solution and objective for Integral and
      Stalled, and (None, None) for NoSolution; Raised is an exception escaping the loop,
      and IterationLimit the bound this model adds. */
  datatype Outcome =
    | Integral(solution: map<string, Option<real>>, objective: Option<real>)
    | Stalled(solution: map<string, Option<real>>, objective: Option<real>)
    | NoSolution(status: LpStatus)
    | Raised(error: ModelError)
    | IterationLimit

  /** One pass of the loop either goes round again with the cut added, or stops. */
  datatype PassResult = Continue(next: Model) | Stop(outcome: Outcome, final: Model)

  /** A cut as the loop adds it for a model with n variables. */
  predicate IsRoundingCut(c: Constraint, n: nat) {
    |c.coeffs| == n && c.comparison == "<="
  }

  /** A relaxable model stays relaxable when a rounding cut is appended: the cut has one
      coefficient per variable and a known comparison. */
  lemma CutKeepsRelaxable(m: Model, c: Constraint)
    requires Relax(m).Success?
    requires IsRoundingCut(c, |m.variables|)
    ensures Relax(AddConstraint(m, c.coeffs, c.comparison, c.rhs)).Success?
  {
    var next := AddConstraint(m, c.coeffs, c.comparison, c.rhs);
    forall j | 0 <= j < |next.constraints|
      ensures WellFormedConstraint(next.constraints[j], |next.variables|)
    {
      if j < |m.constraints| {
        assert next.constraints[j] == m.constraints[j];
      }
    }
  }

  /** The decision after an optimal or failed solve of m's relaxation: stop on a
      non-optimal status or an integral point, otherwise add the cut; when no cut can be
      generated, stop with the fractional point. */
  function Decide(m: Model, status: LpStatus, objective: Option<real>, tol: real): (r: PassResult)
    requires Relax(m).Success?
    ensures r.Stop? ==> !r.outcome.Stalled? && !r.outcome.IterationLimit? && !r.outcome.Raised?
    ensures r.Stop? ==> r.final == m
    ensures r.Stop? && r.outcome.Integral? ==> IsIntegerSolution(m, tol)
    ensures (r.Stop? && r.outcome.NoSolution?) <==> status != Optimal
    ensures r.Stop? && r.outcome.NoSolution? ==> r.outcome.status == status
    ensures r.Stop? && r.outcome.Integral? ==> r.outcome == Integral(CurrentSolution(m.variables), objective)
    ensures r.Continue? <==> status == Optimal && !IsIntegerSolution(m, tol)
    ensures r.Continue? ==>
      && Relax(r.next).Success?
      && |r.next.constraints| == |m.constraints| + 1
      && r.next.constraints[..|m.constraints|] == m.constraints
      && IsRoundingCut(r.next.constraints[|m.constraints|], |m.variables|)
      && r.next.variables == m.variables
      && r.next.objectiveType == m.objectiveType && r.next.objectiveCoeffs == m.objectiveCoeffs
    ensures r.Continue? ==> GenerateCut(m, tol).Some? && r.next.constraints[|m.constraints|] == GenerateCut(m, tol).value
  {
    var solution := CurrentSolution(m.variables);
    if status == Optimal then
      if IsIntegerSolution(m, tol) then Stop(Integral(solution, objective), m)
      else match GenerateCut(m, tol)
        case Some(cut) =>
          CutKeepsRelaxable(m, cut);
          Continue(AddConstraint(m, cut.coeffs, cut.comparison, cut.rhs))
        case None => Stop(Stalled(solution, objective), m)
    else Stop(NoSolution(status), m)
  }

  /** One pass: build the relaxation (a build error stops the loop), solve it, and
      decide. */
  function Pass(m: Model, tol: real, solver: Relaxation -> LpAnswer): (r: PassResult)
    ensures r.Stop? ==> !r.outcome.Stalled? && !r.outcome.IterationLimit?
    ensures (r.Stop? && r.outcome.Raised?) <==> Relax(m).Failure?
    ensures r.Stop? && r.outcome.Integral? ==> IsIntegerSolution(r.final, tol)
    ensures (r.Stop? && r.outcome.NoSolution?) <==> Relax(m).Success? && solver(Relax(m).value).status != Optimal
    ensures r.Stop? && r.outcome.NoSolution? ==> r.outcome.status == solver(Relax(m).value).status
    ensures r.Stop? && r.outcome.Integral? ==>
      r.outcome == Integral(CurrentSolution(r.final.variables), solver(Relax(m).value).objective)
    ensures r.Stop? ==> r.final.constraints == m.constraints
    ensures r.Stop? ==> SameDeclarations(r.final.variables, m.variables)
    ensures r.Stop? && r.outcome.Raised? ==> r.outcome.error == Relax(m).error
    ensures r.Stop? && Relax(m).Success? ==>
      && Relax(r.final) == Relax(m)
      && HoldsAnswer(r.final.variables, solver(Relax(m).value).values)
    ensures r.Stop? && (r.outcome.NoSolution? || r.outcome.Integral?) ==> SolverExit(r.outcome, r.final, tol, solver)
    ensures r.Continue? ==>
      && Relax(m).Success? && Relax(r.next).Success?
      && solver(Relax(m).value).status == Optimal
      && !IsIntegerSolution(r.next, tol)
      && |r.next.constraints| == |m.constraints| + 1
      && r.next.constraints[..|m.constraints|] == m.constraints
      && IsRoundingCut(r.next.constraints[|m.constraints|], |m.variables|)
      && SameDeclarations(r.next.variables, m.variables)
      && r.next.objectiveType == m.objectiveType && r.next.objectiveCoeffs == m.objectiveCoeffs
    ensures r.Continue? ==>
      && HoldsAnswer(r.next.variables, solver(Relax(m).value).values)
      && GenerateCut(r.next, tol).Some?
      && r.next.constraints[|m.constraints|] == GenerateCut(r.next, tol).value
  {
    var (m1, built) := BuildLpRelaxation(m);
    match built
    case Failure(e) => Stop(Raised(e), m1)
    case Success(lp) =>
      var (m2, status, objective) := SolveLpRelaxation(m1, lp, solver);
      Decide(m2, status, objective, tol)
  }

  /** A stop that came from the solver's answer on `final`'s relaxation: the model holds
      the answer's values, a non-optimal status is reported as NoSolution, and an integral
      point is reported with its solution and the answer's objective. */
  predicate SolverExit(o: Outcome, final: Model, tol: real, solver: Relaxation -> LpAnswer) {
    && Relax(final).Success?
    && HoldsAnswer(final.variables, solver(Relax(final).value).values)
    && (o.NoSolution? ==> o.status == solver(Relax(final).value).status && o.status != Optimal)
    && (o.Integral? ==>
          && IsIntegerSolution(final, tol)
          && o == Integral(CurrentSolution(final.variables), solver(Relax(final).value).objective))
  }

  /** The cut a pass appends is violated by the point the solver just returned: any x that
      agrees with the answer wherever the answer gave a value lies beyond the new row. */
  lemma PassCutSeparatesAnswer(m: Model, tol: real, solver: Relaxation -> LpAnswer, x: seq<real>)
    requires 0.0 <= tol
    requires Pass(m, tol, solver).Continue?
    requires |x| == |m.variables|
    requires var values := solver(Relax(m).value).values;
      forall j :: 0 <= j < |x| && j < |values| && values[j].Some? ==> x[j] == values[j].value
    ensures var cut := Pass(m, tol, solver).next.constraints[|m.constraints|];
      Activity(cut.coeffs, x) > cut.rhs
  {
    var next := Pass(m, tol, solver).next;
    var values := solver(Relax(m).value).values;
    forall j | 0 <= j < |x| && GetValue(next.variables[j]).Some?
      ensures x[j] == GetValue(next.variables[j]).value
    {
      assert GetValue(next.variables[j]) == (if j < |values| then values[j] else None);
    }
    CutSeparatesRelaxedPoint(next, tol, x);
  }

  /** `after` is `before` with rounding cuts for n variables appended. */
  predicate GrowsByCuts(before: seq<Constraint>, after: seq<Constraint>, n: nat) {
    && |before| <= |after|
    && after[..|before|] == before
    && forall i :: |before| <= i < |after| ==> IsRoundingCut(after[i], n)
  }

  lemma GrowsByOneMoreCut(a: seq<Constraint>, b: seq<Constraint>, c: seq<Constraint>, n: nat)
    requires GrowsByCuts(a, b, n)
    requires |c| == |b| + 1 && c[..|b|] == b && IsRoundingCut(c[|b|], n)
    ensures GrowsByCuts(a, c, n)
  {
    assert c[..|a|] == b[..|a|];
    forall i | |a| <= i < |c|
      ensures IsRoundingCut(c[i], n)
    {
      if i < |b| {
        assert c[i] == b[i];
      }
    }
  }

  /** One pass, as a function of the model alone. */
  function PassStep(tol: real, solver: Relaxation -> LpAnswer): Model -> PassResult {
    m => Pass(m, tol, solver)
  }

  /** Each model in the list is what `step` over the one before it continued with. */
  predicate ContinuesThrough(models: seq<Model>, step: Model -> PassResult)
    decreases |models|
  {
    |models| <= 1 ||
      (&& ContinuesThrough(models[..|models| - 1], step)
       && step(models[|models| - 2]) == Continue(models[|models| - 1]))
  }

  /** The step over any model of such a list but the last continued with the next one. */
  lemma {:induction false} ContinuesThroughAt(models: seq<Model>, step: Model -> PassResult, i: nat)
    requires ContinuesThrough(models, step)
    requires i + 1 < |models|
    ensures step(models[i]) == Continue(models[i + 1])
    decreases |models|
  {
    if i + 2 < |models| {
      var prefix := models[..|models| - 1];
      ContinuesThroughAt(prefix, step, i);
      assert prefix[i] == models[i] && prefix[i + 1] == models[i + 1];
    }
  }

  lemma ContinuesThroughOneMore(models: seq<Model>, next: Model, step: Model -> PassResult)
    requires ContinuesThrough(models, step)
    requires 0 < |models| && step(models[|models| - 1]) == Continue(next)
    ensures ContinuesThrough(models + [next], step)
  {
    assert (models + [next])[..|models|] == models;
  }

  /** `last` is `first` after k continued passes: k more constraints, all of them cuts,
      after the original ones; the same declarations; and, once a pass has run, a model
      that builds. */
  predicate Reached(first: Model, last: Model, k: nat) {
    && |last.constraints| == |first.constraints| + k
    && GrowsByCuts(first.constraints, last.constraints, |first.variables|)
    && SameDeclarations(last.variables, first.variables)
    && (0 < k ==> Relax(last).Success?)
  }

  /** One more continued pass keeps `Reached`, with one more cut. */
  lemma ReachedOneMore(first: Model, prev: Model, last: Model, k: nat, tol: real, solver: Relaxation -> LpAnswer)
    requires Reached(first, prev, k)
    requires PassStep(tol, solver)(prev) == Continue(last)
    ensures Reached(first, last, k + 1)
  {
    assert Pass(prev, tol, solver) == Continue(last);
    GrowsByOneMoreCut(first.constraints, prev.constraints, last.constraints, |first.variables|);
  }

  /** Along a list of continued passes the constraint list grows by one cut per pass and
      keeps its earlier constraints, the declarations stay the same, and every model after
      the first was built successfully. */
  lemma {:induction false} ChainFacts(models: seq<Model>, tol: real, solver: Relaxation -> LpAnswer)
    requires 0 < |models|
    requires ContinuesThrough(models, PassStep(tol, solver))
    ensures Reached(models[0], models[|models| - 1], |models| - 1)
    decreases |models|
  {
    if 1 < |models| {
      var prefix := models[..|models| - 1];
      var prev, last := models[|models| - 2], models[|models| - 1];
      assert ContinuesThrough(prefix, PassStep(tol, solver));
      assert PassStep(tol, solver)(prev) == Continue(last);
      ChainFacts(prefix, tol, solver);
      assert prefix[0] == models[0] && prefix[|prefix| - 1] == prev;
      ReachedOneMore(models[0], prev, last, |models| - 2, tol, solver);
    }
  }

  /** The loop, bounded to maxIterations steps. `iteration` counts the steps run, and the
      ghost `models` lists the model each of them started from: the first is m0, each
      later one is what the step before continued with, and the loop ends either with the
      last step's stop or, after maxIterations steps that all continued, with the model
      the last of them produced. */
  method Iterate(m0: Model, step: Model -> PassResult, maxIterations: nat)
    returns (stopped: bool, outcome: Outcome, m: Model, iteration: nat, ghost models: seq<Model>)
    ensures 0 < |models| && models[0] == m0
    ensures |models| == (if stopped then iteration else iteration + 1)
    ensures ContinuesThrough(models, step)
    ensures !stopped ==> iteration == maxIterations && outcome == IterationLimit
    ensures !stopped ==> models[|models| - 1] == m
    ensures stopped ==> 1 <= iteration <= maxIterations
    ensures stopped ==> step(models[|models| - 1]) == Stop(outcome, m)
    ensures 0 < maxIterations && step(m0).Stop? ==>
      stopped && iteration == 1 && outcome == step(m0).outcome && m == step(m0).final
  {
    m := m0;
    iteration := 0;
    models := [m0];
    while iteration < maxIterations
      invariant iteration <= maxIterations
      invariant |models| == iteration + 1 && models[0] == m0 && models[iteration] == m
      invariant ContinuesThrough(models, step)
      invariant 0 < iteration ==> step(m0).Continue?
    {
      iteration := iteration + 1;
      var p := step(m);
      if p.Stop? {
        return true, p.outcome, p.final, iteration, models;
      }
      ContinuesThroughOneMore(models, p.next, step);
      models := models + [p.next];
      m := p.next;
    }
    stopped, outcome := false, IterationLimit;
  }

  /** The cutting-plane loop with what it guarantees: the trace of `Iterate`, plus the
      constraint list growing by one cut per continued pass and keeping its earlier
      constraints, the stalled exit never taken, a build error only from the first pass,
      and the solver-derived meaning of each exit. */
  method Solve(m0: Model, tol: real, solver: Relaxation -> LpAnswer, maxIterations: nat)
    returns (outcome: Outcome, m: Model, iteration: nat, ghost models: seq<Model>)
    ensures 0 < |models| && models[0] == m0
    ensures |models| == (if outcome.IterationLimit? then iteration + 1 else iteration)
    ensures ContinuesThrough(models, PassStep(tol, solver))
    ensures outcome.IterationLimit? ==> models[|models| - 1] == m
    ensures !outcome.IterationLimit? ==> Pass(models[|models| - 1], tol, solver) == Stop(outcome, m)
    ensures 0 < maxIterations && Pass(m0, tol, solver).Stop? ==>
      iteration == 1 && outcome == Pass(m0, tol, solver).outcome && m == Pass(m0, tol, solver).final
    ensures iteration <= maxIterations
    ensures outcome.IterationLimit? ==> iteration == maxIterations
    ensures !outcome.IterationLimit? ==> 1 <= iteration
    ensures !outcome.Stalled?
    ensures outcome.Raised? <==> 0 < maxIterations && Relax(m0).Failure?
    ensures outcome.Raised? ==> iteration == 1
    ensures outcome.Raised? ==> outcome.error == Relax(m0).error
    ensures outcome.NoSolution? || outcome.Integral? ==> SolverExit(outcome, m, tol, solver)
    ensures |m.constraints| == |m0.constraints| + (if outcome.IterationLimit? then iteration else iteration - 1)
    ensures GrowsByCuts(m0.constraints, m.constraints, |m0.variables|)
    ensures SameDeclarations(m.variables, m0.variables)
  {
    var stopped;
    stopped, outcome, m, iteration, models := Iterate(m0, PassStep(tol, solver), maxIterations);
    if stopped {
      assert Pass(models[|models| - 1], tol, solver) == Stop(outcome, m);
    }
    ChainFacts(models, tol, solver);
    if 1 < |models| {
      ContinuesThroughAt(models, PassStep(tol, solver), 0);
      assert Pass(m0, tol, solver).Continue?;
    }
  }

  /** When the first solve is optimal and already integral, the loop stops after that one
      pass with the solver's point, and adds no constraint. */
  lemma IntegralFirstSolveStops(m: Model, tol: real, solver: Relaxation -> LpAnswer)
    requires Relax(m).Success?
    requires solver(Relax(m).value).status == Optimal
    requires forall j :: 0 <= j < |solver(Relax(m).value).values| ==>
      (j < |m.variables| && IsIntegerRequired(m.variables[j]) && solver(Relax(m).value).values[j].Some?) ==>
      DistanceToInteger(solver(Relax(m).value).values[j].value) <= tol
    ensures Pass(m, tol, solver).Stop?
    ensures Pass(m, tol, solver).outcome == Integral(CurrentSolution(Pass(m, tol, solver).final.variables), solver(Relax(m).value).objective)
    ensures Pass(m, tol, solver).final.constraints == m.constraints
  {
    var m1 := BuildLpRelaxation(m).0;
    var lp := Relax(m).value;
    var m2 := SolveLpRelaxation(m1, lp, solver).0;
    forall j | 0 <= j < |m2.variables|
      ensures !NeedsCut(m2.variables[j], tol)
    {
      SameDeclarationsKeepIntegerRequired(m2.variables, m.variables, j);
    }
  }
}
