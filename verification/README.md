# Constrained surface grid — Dafny model

This project models the computational core of a small visualiser for
two-variable optimisation problems. A `Surface` holds an objective
expression in `x` and `y` and two lists of constraint expressions:
inequality constraints, which are feasible where the expression is `<= 0`,
and equality constraints, which are feasible where the expression is close to
zero. `populate` samples the objective on an `n x n` grid over a rectangle.
It overwrites every infeasible cell with NaN so that the plot shows a gap
there. `plot` then draws the height field. When inequality constraints exist
it also overlays the feasible region.

The model is functional. A surface is an immutable datatype, and each
operation returns the updated value:

- `Axes.Linspace` builds the evenly spaced sample axes, over exact reals.
- `Meshgrid.MeshX` and `Meshgrid.MeshY` build the coordinate meshes. The row
  index follows `y` and the column index follows `x`.
- `Masking` holds the per-cell masking. `MaskInequalities` and
  `MaskEqualities` follow the source's loops: they overwrite the cell with the
  sentinel in registration order. Each is proved equal to a closed form:
  "masked exactly when some constraint is violated".
- `Surfaces` holds the surface value. `AddConstraint` registers a constraint,
  and `Populate` returns either the updated surface or the error the source
  raises. Lemmas in this module cover permutation, monotonicity, idempotence
  and the tolerance.
- `PopulateLoop` repeats `populate` as nested loops over rows, columns and
  constraints. It is proved to compute exactly what `Populate` computes.
- `Overlay` builds the relations that `plot` conjoins for the implicit-region
  overlay, and states the region they describe.
- `Scenarios` holds concrete surfaces worked through the model.

Expressions are opaque. Every operation takes a parameter
`eval: (E, real, real) -> real`, which gives the value of expression `e` at
the point `(x, y)`. NaN is `None` in `Option<real>`.

Decisions where the model departs from a literal reading:

- The equality tolerance is `x_axis[2] - x_axis[0]`. When there are only one
  or two samples and at least one equality constraint, reading it raises an
  index error. The model makes this an error result,
  `Err(ToleranceIndexOutOfRange)`, not a precondition. The model also
  reproduces that the tolerance is never read when there are no cells or no
  equality constraints.
- A negative sample count makes `numpy.linspace` raise, so it is modelled
  as `Err(NegativeSampleCount)`.
- The overlay conjoins the strict relation `c < 0` for inequality
  constraints, as `surface.py:69` writes it, although the surface itself
  keeps points where `c == 0`. A design that conjoins `c <= 0` would match
  the masking; the model follows the code, so boundary points of an
  inequality constraint lie outside the overlay region.

## Model

| member | source | states |
|---|---|---|
| `Axes.Linspace` | surface.py:43-44 | an axis of `n` samples starts at the lower bound, ends at the upper bound when `n >= 2`, and has a constant gap of `(hi - lo)/(n - 1)`; one sample gives `[lo]` and zero samples give `[]` |
| `Axes.EvenlySpacedIsLinspace` | surface.py:43-44 | any sequence of at least two samples that runs from `lo` to `hi` with a constant gap is the linspace axis, so the axis is uniquely determined by its endpoints, length and even spacing |
| `Axes.LinspaceIsEvenlySpaced` | surface.py:43-44 | conversely, every linspace axis of two or more samples is evenly spaced between its bounds |
| `Meshgrid.MeshX` | surface.py:45 | the x mesh has one row per y sample, each row as long as the x axis, and `x_vals[i][j]` is `x_axis[j]` |
| `Meshgrid.MeshY` | surface.py:45 | the y mesh has the same shape and `y_vals[i][j]` is `y_axis[i]` |
| `Masking.IsClose` | surface.py:58-59 | `isclose(v, 0, atol=t)` holds exactly when `abs(v) <= t`, because the relative tolerance is scaled by `abs(0)`; and any two values within `atol` of each other are close |
| `Masking.ExactMatchClauseIsRedundant` | surface.py:58-59 | when the absolute tolerance is not negative, also accepting `a == b` (as newer numpy releases do) changes no `isclose` answer |
| `Masking.MaskInequalities` | surface.py:53-55 | running the inequality loop over a cell leaves it masked exactly when some inequality constraint is `> 0` there, and leaves it unchanged otherwise |
| `Masking.MaskEqualities` | surface.py:57-60 | running the equality loop leaves a cell masked exactly when some equality constraint is farther than the tolerance from zero, and leaves it unchanged otherwise |
| `Masking.CellValue` | surface.py:50-60 | a cell keeps a value exactly when its point is feasible for both constraint kinds, and that value is the objective at the point |
| `Masking.SameMembersSameViolations` | surface.py:53-60 | whether a constraint list masks a point depends only on which expressions it contains, not on their order or repetition |
| `Masking.ExtendingKeepsViolations` | surface.py:53-60 | appending one constraint masks a point exactly when the old list did or the new constraint is violated there |
| `Surfaces.NewSurface` | surface.py:25-33 | a new surface has the given objective, no constraints of either kind and no grid |
| `Surfaces.AddConstraint` | surface.py:35-39 | the tag "inequality" appends to the inequality list only, "equality" to the equality list only, and any other tag changes nothing; the objective and the grid are untouched |
| `Surfaces.HeightField` | surface.py:47-60 | the height field is `n x n`; a cell holds a value exactly when its mesh point violates no inequality constraint (`> 0`) and no equality constraint (`abs > tol`), and that value is the objective at the point |
| `Surfaces.Populate` | surface.py:42-60 | populate raises exactly for a negative count, or for one or two samples with an equality constraint. Otherwise it keeps the constraint lists and builds evenly spaced axes of length `n` from bound to bound. It builds `n x n` meshes indexed `[y][x]`. Each cell holds the objective at its point, or NaN exactly when an inequality constraint is `> 0` or an equality constraint exceeds `x_axis[2] - x_axis[0]` in absolute value |
| `Surfaces.PopulateWithoutConstraints` | surface.py:47-52 | with no constraints registered, populate succeeds for every non-negative sample count, and every cell equals the objective at its mesh point |
| `Surfaces.ToleranceIsTwoSteps` | surface.py:59 | with three or more samples the equality tolerance is two grid steps, `2 (hi - lo)/(n - 1)` |
| `Surfaces.PopulateIgnoresConstraintOrder` | surface.py:53-60 | permuting either constraint list changes neither whether populate succeeds nor the grid it produces |
| `Surfaces.AddConstraintOnlyMasksMore` | surface.py:53-60 | after one more constraint of either kind is registered, each cell either keeps its value or becomes masked, so no masked cell becomes unmasked |
| `Surfaces.AddInequalityMasksWherePositive` | surface.py:53-55 | registering one more inequality constraint never makes populate fail, and it masks a cell exactly when that cell was already masked or the new constraint is positive there |
| `Surfaces.PopulateIsIdempotent` | surface.py:42-47 | populate does not depend on the grid of an earlier call, so populating a populated surface again with the same arguments gives the same result |
| `PopulateLoop.EvaluateCell` | surface.py:50-60 | the statement-level cell loop raises exactly when it reaches an equality constraint with fewer than three x samples; otherwise it yields the masked cell value |
| `PopulateLoop.EvaluateRow` | surface.py:49-60 | a row of cells raises exactly when it is non-empty and the tolerance cannot be read; otherwise it holds each cell's masked value |
| `PopulateLoop.PopulateByLoops` | surface.py:42-60 | the nested-loop populate yields exactly the result of the functional `Populate`, including its errors |
| `Overlay.OverlayRelations` | surface.py:68-71 | the overlay exists exactly when there is an inequality constraint; it is `c < 0` for each inequality constraint in order, followed by `c == 0` for each equality constraint |
| `Overlay.OverlayRegion` | surface.py:68-72 | the conjunction handed to the implicit plotter holds exactly where every inequality constraint is negative and every equality constraint is zero |
| `Overlay.ZeroAndNegativeIsFeasible` | surface.py:53-60 | a point where every inequality constraint is negative and every equality constraint is zero is feasible for any non-negative tolerance |
| `Overlay.ToleranceNotNegative` | surface.py:59 | on an x axis running upwards the equality tolerance is not negative |
| `Overlay.OverlayRegionIsUnmasked` | surface.py:68-71 | on an x axis running upwards, a grid point inside the overlay region is never masked on the surface |
| `Scenarios.BowlScenario` | surface.py:42-52 | `x**2 + y**2` on `[-1, 1]` squared with three samples has axes `[-1, 0, 1]`, centre 0 and corners 2 |
| `Scenarios.HalfPlaneScenario` | surface.py:53-55 | `x + y` under `x + y - 1` on `[0, 2]` squared with three samples masks `(2, 2)` and keeps 0 at the origin |
| `Scenarios.EqualityBandScenario` | surface.py:57-60 | `x - y == 0` on `[0, 8]` squared with five samples has tolerance 4, keeping `(4, 0)` and masking `(8, 0)` |
| `Scenarios.ShortAxisScenario` | surface.py:35-59 | an equality constraint with two samples raises, zero samples succeed, a negative count raises, and an unknown tag registers nothing |

## Left out

- Parsing and substitution of expressions (`parse_expr`, `.subs`, `float(...)`) are not modelled. Each expression is opaque and is evaluated through the `eval` parameter.
- Evaluation errors are not modelled. These include division by zero, non-real results, and comparing a symbolic result with zero. In the source they propagate out of `populate`.
- Masking.IsClose: follows numpy 1.x, where `isclose(v, 0, atol=t)` is exactly `abs(v) <= t`. numpy 2.0 and later also accept `v == 0` outright. The two differ only when `t` is negative.
- Surfaces.Populate: the "masked exactly when" clause follows numpy 1.x. When the x bounds are given high to low, the tolerance `x_axis[2] - x_axis[0]` is negative, so every cell with an equality constraint is masked. Under numpy 2.0 and later, cells where every equality constraint is exactly 0 would keep their value. For ascending x bounds both versions agree (`Masking.ExactMatchClauseIsRedundant`).
- IEEE floating point is not modelled. Axes, tolerances and comparisons are over exact reals, and NaN is `None`. For `n >= 2`, `numpy.linspace` sets the last sample to the upper bound, and so does the model. Rounding in the other samples is not modelled.
- On error the model returns no surface. In the source, `populate` has already replaced the axes and meshes and partly written `z_vals` by the time the tolerance read raises.
- `Surfaces.NewSurface` takes an objective. The source constructor defaults it to `None`, and then `populate` fails on the first cell.
- `Surfaces.Populate`: the sample count is an integer. A non-integer count, which `numpy.linspace` rejects, is not modelled.
- Rendering is not modelled. This covers `plot_surface`, the z-axis tick locator and formatter, the `plot_implicit` drawing and `pyplot.show`. Only the construction of the overlay's conjunction is modelled. The overlay's plotting range comes from the module-level limit strings, not from the bounds given to `populate`; that range is not modelled.
- The module-level configuration strings and the script that splits them and builds one surface (surface.py lines 6-12 and 80-99) are configuration glue. The warning printed for equality constraints is left out for the same reason.
