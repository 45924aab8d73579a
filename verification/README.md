# Cutting-plane ILP solver: a Dafny model

This project models the core of a small integer-linear-programming solver that works by
cutting planes. An `ILPModel` holds decision variables in registration order, an objective
and a list of constraints. The list only grows. On every pass, `CuttingPlaneSolver.solve`
rebuilds the LP relaxation from the model, which drops all integrality, and hands it to an
LP solver (PuLP). It then checks whether every integer-required variable came back
integral, within a tolerance. If one did not, it adds a rounding cut `x_k <= floor(x_k*)`
on the first such variable and goes round again. The cut is a simple bound, not a Gomory
cut.

Layout:

- `wrappers.dfy` (`Wrappers`): `Option` (Python's `None`) and `Result` (a value or the
  exception the source raises).
- `numbers.dfy` (`Numbers`): `Abs`, the distance to the nearest integer, and Python's
  `round`, which rounds half to even.
- `text.dfy` (`Text`): Python's `str.capitalize`.
- `ilp_model.dfy` (`IlpModel`): `Variable`, `Constraint`, `Model` and their operations.
  Also the relaxation, and the interface to the LP solver.
- `cutting_plane_solver.dfy` (`CuttingPlaneSolver`): the integrality check, cut
  generation, one pass of the loop (`Pass`), and the bounded loop. `Iterate` runs the
  loop and records a ghost trace of the models each pass started from; `Solve` runs it
  and derives what the loop guarantees from that trace.
- `scenarios.dfy` (`Scenarios`): a worked two-pass run, plus the binary-bounds behaviour
  on concrete inputs. The example maximizes x1 + x2 subject to x1 <= 2.5, with x1 >= 0
  and x2 in [0, 0], both Integer. Its solver answers (2.5, 0) and then (2, 0), and
  `FirstAnswerIsOptimal` and `SecondAnswerIsOptimal` prove that each answer is the unique
  optimum of the relaxation it is given.

The LP solver is a parameter `solver: Relaxation -> LpAnswer`. An answer carries one of
PuLP's five status labels, an optional objective value, and one optional value per column.
A column the answer does not reach keeps no value, just as a PuLP variable left out of the
solved problem keeps `varValue = None`. Python floats are modelled as `real`.

Some behaviour of the code is easy to misread, and the model follows the code:

- `build_lp_relaxation` creates every variable as continuous with its stored bounds, and
  that includes Binary variables. Only `create_pulp_var` forces a Binary variable to
  [0, 1], and the loop never calls it. So a Binary variable declared with no upper bound
  is relaxed to [0, unbounded). `Scenarios.BinaryBoundsOnlyForcedWhenTyped` shows this for
  declared bounds [-10, 10].
- Coefficient lengths are never checked when the objective or a constraint is added.
  Building fails only when a vector is longer than the variable list, with Python's
  IndexError. A shorter vector is summed over the variables it covers. The objective type
  is checked first, then the objective's length, then the constraints in order. For each
  constraint, the length error comes before the comparison error.
- An Optimal, integral point and the "no cut" exit return the same shape of result, and
  every other status returns `(None, None)`. The model keeps these exits apart
  (`Integral`, `Stalled`, `NoSolution`) and proves that `Stalled` is never reached.
- Duplicate variable names are accepted. The reported solution is a dict keyed by name,
  so a repeated name shows the value of its last variable.
- `get_value` tests `if self.pulp_var`. A PuLP variable is always truthy, so this is read
  as "is not None": a variable reports a value only when it has a relaxation variable that
  holds one.
- `variables.index(var)` compares by identity, and every variable is a distinct object,
  so the index found is the scan position. The model uses that position directly.

## Model

| member | source | states |
|---|---|---|
| Numbers.PyRound | ilp_model.py:49 | `round(v)` lies at the nearest-integer distance from v; when v is halfway, the even neighbour is chosen; so `abs(v - round(v))` is the distance to the nearest integer |
| Text.Capitalize | ilp_model.py:84 | `capitalize` keeps the letters of its input up to case, makes the first one not lower case and every later one not upper case |
| Text.CapitalizeUnique | ilp_model.py:84 | those three properties determine the capitalized string completely |
| Text.CapitalizeAgreesIffEqualIgnoringCase | ilp_model.py:84 | two objective spellings normalise to the same type exactly when they agree up to letter case |
| Text.CapitalizeIdempotent | ilp_model.py:84 | normalising a normalised type changes nothing |
| IlpModel.EmptyModel | ilp_model.py:67-75 | a new model has no objective type, no objective coefficients, no variables and no constraints |
| IlpModel.EmptyModelNeedsObjective | ilp_model.py:110-115 | building a new model raises the unknown-objective error and leaves the model unchanged |
| IlpModel.GetValue | ilp_model.py:29-31 | a value is reported exactly when the variable has a relaxation variable holding one, and it is that value |
| IlpModel.IsIntegerRequired | ilp_model.py:33-35 | a variable is integer-required exactly when its type is "Integer" or "Binary"; "Continuous" and any unknown spelling are not |
| IlpModel.IsFractional | ilp_model.py:37-49 | fractional exactly when integer-required, a value is present, and that value is more than `tol` from every integer; false without a relaxation variable or without a value |
| IlpModel.FractionalValueIsNotIntegral | ilp_model.py:37-49 | with a non-negative tolerance, a fractional value lies strictly between its floor and the next integer |
| IlpModel.CreatePulpVar | ilp_model.py:18-27 | "Continuous" gives a continuous variable and "Integer" an integer one, both with the stored bounds; "Binary" gives a binary variable with bounds [0, 1]; any other type raises the unknown-type error |
| IlpModel.SameDeclarationsKeepIntegerRequired | ilp_model.py:33-35 | integer-requirement and name depend on the declaration alone, so solving or rebuilding cannot change them |
| IlpModel.SetObjective | ilp_model.py:77-84 | coefficients are stored verbatim; the type is stored capitalized; variables and constraints are untouched |
| IlpModel.SetObjectiveAcceptedSpellings | ilp_model.py:110-115 | after `set_objective`, the build accepts the type as Maximize exactly for a case variant of "Maximize", and likewise for Minimize |
| IlpModel.AddVariable | ilp_model.py:86-94 | exactly one variable is appended, with no relaxation state; earlier variables keep their positions; nothing else changes |
| IlpModel.AddConstraint | ilp_model.py:96-103 | exactly one constraint is appended, unvalidated; earlier constraints, variables and the objective are unchanged |
| IlpModel.ObjectiveSense | ilp_model.py:110-115 | only "Maximize" and "Minimize" name a direction |
| IlpModel.ComparisonSense | ilp_model.py:131-138 | only "<=", ">=" and "=" name a row sense; "<=" gives an upper-bound row, ">=" a lower-bound row, "=" an equality row |
| IlpModel.Columns | ilp_model.py:118-120 | one continuous column per variable, in order, with the variable's name and stored bounds |
| IlpModel.RowsFrom | ilp_model.py:128-138 | rows succeed exactly when every constraint fits the variable count and has a known comparison; otherwise the first bad constraint's error is raised; rows keep order and content |
| IlpModel.Relax | ilp_model.py:105-138 | the build succeeds exactly when the objective type is known, the objective fits and every constraint is well formed; errors come in the code's order; on success the relaxation carries the direction, one column per variable with stored bounds (Binary included), the objective verbatim, and one row per constraint in order |
| IlpModel.Rebind | ilp_model.py:118-120 | every variable gets a fresh relaxation variable with no value; declarations are unchanged |
| IlpModel.BuildLpRelaxation | ilp_model.py:105-138 | an unknown objective type fails with the model untouched; otherwise the values are cleared, the declarations, objective and constraints are kept, and the result is the model's relaxation |
| IlpModel.RelaxIgnoresSolverState | ilp_model.py:105-138 | the relaxation depends only on declarations, objective and constraints, not on stored values |
| IlpModel.BuildTwiceSameAsOnce | ilp_model.py:105-138 | building twice without changing the model gives the same model state and the same relaxation as building once |
| IlpModel.StoreValues | ilp_model.py:148-153 | each variable takes the value the solver gave its column; declarations are unchanged |
| IlpModel.SolveLpRelaxation | ilp_model.py:140-155 | returns the solver's status and objective; stores its values; leaves declarations, objective and constraints, and hence the relaxation, unchanged |
| CuttingPlaneSolver.IntegralFrom | cutting_plane_solver.py:21-24 | the scan reports integral exactly when no variable in the range is integer-required and fractional |
| CuttingPlaneSolver.IsIntegerSolution | cutting_plane_solver.py:16-24 | true exactly when no variable is integer-required and fractional, that is, when every integer-required variable with a value is within `tol` of an integer |
| CuttingPlaneSolver.SelectFrom | cutting_plane_solver.py:44-61 | the scan returns the first variable in the range that is integer-required, fractional and has a value, or nothing exactly when there is none |
| CuttingPlaneSolver.SelectCutVariable | cutting_plane_solver.py:44-61 | the selected variable is the first rejected by the integrality check in registration order; there is one exactly when the check fails |
| CuttingPlaneSolver.UnitVector | cutting_plane_solver.py:73-75 | n coefficients, 1.0 at the selected index and 0.0 everywhere else |
| CuttingPlaneSolver.GenerateCut | cutting_plane_solver.py:44-79 | no cut exactly when the point is integral; otherwise the cut has one coefficient per variable, 1.0 at the first fractional one and 0.0 elsewhere, with comparison "<=" and right-hand side the floor of that variable's value |
| CuttingPlaneSolver.UnitActivity | ilp_model.py:129-130 | a row with 1 at k and 0 elsewhere evaluates to the k-th coordinate of any point |
| CuttingPlaneSolver.ZeroActivity | ilp_model.py:129-130 | an all-zero row evaluates to 0 at every point |
| CuttingPlaneSolver.CutSeparatesRelaxedPoint | cutting_plane_solver.py:60-78 | with a non-negative tolerance, the current relaxed point violates the new cut: its left-hand side exceeds the floor |
| CuttingPlaneSolver.CutExcludesRoundedUpValue | cutting_plane_solver.py:64-71 | the cut also excludes every point whose selected coordinate is the next integer up; the branch upwards is never explored |
| CuttingPlaneSolver.CurrentSolution | cutting_plane_solver.py:99 | the reported dict has at most one entry per variable, and is empty exactly when no variable is registered |
| CuttingPlaneSolver.CurrentSolutionHasEveryName | cutting_plane_solver.py:99 | every registered name appears in the reported solution |
| CuttingPlaneSolver.CurrentSolutionHasOnlyNames | cutting_plane_solver.py:99 | every key of the reported solution is a registered name |
| CuttingPlaneSolver.CurrentSolutionReportsLastValue | cutting_plane_solver.py:99 | each name reports the value of the last variable registered under it |
| CuttingPlaneSolver.CutKeepsRelaxable | cutting_plane_solver.py:113-115 | appending a cut with one coefficient per variable and "<=" keeps the model buildable |
| CuttingPlaneSolver.Decide | cutting_plane_solver.py:102-131 | a non-Optimal status stops with that status; Optimal and integral stops with the solution and objective; otherwise exactly the cut generated for the model is appended, after the existing constraints; the no-cut exit is never reached |
| CuttingPlaneSolver.Pass | cutting_plane_solver.py:88-131 | a pass raises exactly when the relaxation cannot be built, with the build's error; it stops with NoSolution exactly when the solver's status is not Optimal, reporting that status; an integral stop reports the solution and the solver's objective; it continues only on an Optimal, non-integral point, and then the model holds the solver's values and gains exactly the cut generated from them, after the earlier constraints; a stop leaves the constraints and the relaxation unchanged, with the solver's values stored, and is never the no-cut exit |
| CuttingPlaneSolver.GrowsByOneMoreCut | cutting_plane_solver.py:113-115 | one more appended cut keeps the list as the original constraints followed by cuts only |
| CuttingPlaneSolver.PassCutSeparatesAnswer | cutting_plane_solver.py:93-115 | when a pass continues, the point the solver just returned violates the cut the pass appended, for any tolerance of at least 0 |
| CuttingPlaneSolver.ContinuesThroughAt | cutting_plane_solver.py:88-116 | in a trace of continued passes, the pass over each model but the last continued with the next model |
| CuttingPlaneSolver.ChainFacts | cutting_plane_solver.py:109-116 | along a trace of continued passes, the constraints grow by one cut per pass after the original ones, the declarations stay, and the last model builds once a pass has run |
| CuttingPlaneSolver.Iterate | cutting_plane_solver.py:86-94 | the loop runs at most maxIterations passes; it stops on the first pass that stops and returns that stop, or ends with IterationLimit after maxIterations passes that all continued; when the first pass stops, the loop stops after exactly one pass with that pass's outcome and model; the ghost trace records every model a pass started from |
| CuttingPlaneSolver.Solve | cutting_plane_solver.py:81-131 | the ghost trace starts at the input model, and each pass in it continued with the next model; the loop ends with the last pass's own stop, or with IterationLimit after exactly maxIterations passes that all continued; if the first pass stops, the loop stops there with its outcome; constraints grow by one cut per continued pass and earlier ones stay; the no-cut exit is unreachable; a build error can only end the first pass and carries the build's error; NoSolution and integral exits report the solver's status, or its solution and objective, for the final model |
| CuttingPlaneSolver.IntegralFirstSolveStops | cutting_plane_solver.py:102-108 | when the first solve is Optimal and integral, the pass stops with that solution and objective and adds nothing |
| Scenarios.PassIsDecideAfterSolve | cutting_plane_solver.py:93-94 | when the relaxation builds, a pass is the decision on the model holding the solver's values |
| Scenarios.ExampleModelFromOperations | ilp_model.py:77-103 | adding x1, x2 as Integer, setting the objective with the spelling "maximize" and adding x1 <= 2.5 gives the example model |
| Scenarios.FirstCutIsOnX1 | cutting_plane_solver.py:44-79 | with x1 = 2.5, x2 = 0 the cut is x1 <= 2 |
| Scenarios.RelaxExampleModel | ilp_model.py:105-138 | the example's relaxation maximizes x1 + x2 over x1 in [0, unbounded), x2 in [0, 0] and the row x1 <= 2.5 |
| Scenarios.RelaxAfterCut | ilp_model.py:105-138 | after the cut, the relaxation has the rows x1 <= 2.5 and x1 <= 2, in that order |
| Scenarios.FirstAnswerIsOptimal | cutting_plane_solver.py:93-94 | the first answer, (2.5, 0) with objective 2.5, is feasible and the unique maximum of the example's relaxation |
| Scenarios.SecondAnswerIsOptimal | cutting_plane_solver.py:93-94 | the second answer, (2, 0) with objective 2, is feasible and the unique maximum of the relaxation after the cut |
| Scenarios.ExampleFirstPass | cutting_plane_solver.py:109-116 | on the example, given the optimum of its relaxation, the first pass adds the cut x1 <= 2 and goes round again |
| Scenarios.ExampleSecondPass | cutting_plane_solver.py:102-108 | on the example, given the optimum of the relaxation after the cut, the second pass stops integral with x1 = 2, x2 = 0 and objective 2 |
| Scenarios.BinaryBoundsOnlyForcedWhenTyped | ilp_model.py:118-120 | a Binary variable declared with [-10, 10] keeps those bounds in the relaxation; only `create_pulp_var` gives [0, 1] |

## Left out

- The LP solve itself (`pulp.LpProblem`, `solve()`, `pulp.value`, `LpStatus`) is a foreign library. It is the `solver` parameter, so the model makes no claim about optimality of the values.
- Console output in `solve` and `_generate_gomory_cut` is not modelled. This includes formatting a possibly-None objective with `:.4f`, which would raise in Python.
- The no-op value reassignment loop in `solve_lp_relaxation` (ilp_model.py:151-153) is not modelled.
- The lazy build in `solve_lp_relaxation` when no problem exists yet is not modelled. The loop always builds first, so `SolveLpRelaxation` takes the relaxation just built.
- The problem, objective and row names given to PuLP are not modelled. Nor are PuLP's name sanitising and its duplicate-name errors: they live inside the library.
- The loop has no iteration bound in the source. `Solve` takes `maxIterations`, and its `IterationLimit` exit has no counterpart in the source.
- Floating-point rounding, NaN and infinities are not modelled; values are exact reals.
- `Text.Capitalize`: case mapping covers ASCII letters only, not the rest of Unicode.
- Default arguments (`low_bound=0`, `up_bound=None`) are not modelled: `AddVariable` takes both bounds explicitly. The solver's default tolerance is `CuttingPlaneSolver.DefaultTolerance`.
- Python lists are stored by reference, so a caller could later mutate a stored coefficient list. The model stores values, so that aliasing is not modelled.
- `main.py` (interactive input and reporting) is not part of this model.
