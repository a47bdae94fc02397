/** The `Surface` object: an objective, the registered inequality and equality
    constraints, and the sample grid that `populate` fills in. The object is
    modelled as an immutable value; each operation returns the updated value.
    Evaluating an expression at a point is the parameter `eval`, standing for
    symbolic substitution followed by conversion to a number. */
module Surfaces {
  import opened Wrappers
  import opened Axes
  import opened Meshgrid
  import opened Masking

  /** The two ways `populate` can raise: `numpy.linspace` refuses a negative
      sample count, and the equality tolerance reads the third x sample, which
      does not exist when there are only one or two samples. */
  datatype PopulateError = NegativeSampleCount | ToleranceIndexOutOfRange

  /** The arrays `populate` stores on the object: the two axes, the two
      coordinate meshes and the height field with `None` for masked cells. */
  datatype Grid = Grid(
    xAxis: seq<real>,
    yAxis: seq<real>,
    xVals: seq<seq<real>>,
    yVals: seq<seq<real>>,
    zVals: seq<seq<Option<real>>>)

  /** `grid` is `None` until the first successful `populate`. */
  datatype Surface<E> = Surface(
    objective: E,
    inequalities: seq<E>,
    equalities: seq<E>,
    grid: Option<Grid>)

  /** Every matrix of the grid has `n` rows of `n` entries. */
  ghost predicate Square<T>(m: seq<seq<T>>, n: nat)
  {
    |m| == n && forall i :: 0 <= i < n ==> |m[i]| == n
  }

  /** A freshly constructed surface: no constraints and nothing sampled yet. */
  function NewSurface<E>(objective: E): (s: Surface<E>)
    ensures s.objective == objective && s.grid.None?
    ensures |s.inequalities| == 0 && |s.equalities| == 0
  {
    Surface(objective, [], [], None)
  }

  /** Registers a constraint under the list its tag names. The tag defaults to
      "inequality"; any tag other than the two known ones is ignored. */
  function AddConstraint<E>(s: Surface<E>, c: E, kind: string := "inequality"): (r: Surface<E>)
    ensures r.objective == s.objective && r.grid == s.grid
    ensures kind == "inequality" ==> r.inequalities == s.inequalities + [c] && r.equalities == s.equalities
    ensures kind == "equality" ==> r.equalities == s.equalities + [c] && r.inequalities == s.inequalities
    ensures kind != "inequality" && kind != "equality" ==> r == s
  {
    if kind == "inequality" then s.(inequalities := s.inequalities + [c])
    else if kind == "equality" then s.(equalities := s.equalities + [c])
    else s
  }

  /** The absolute tolerance for equality constraints: the distance from the
      first to the third x sample. It only exists when there are three samples;
      `Populate` never reads it otherwise. */
  function EqualityTolerance(xAxis: seq<real>): real
    requires |xAxis| >= 3
  {
    xAxis[2] - xAxis[0]
  }

  /** The height field: cell `(i, j)` holds the objective at the mesh point
      `(xVals[i][j], yVals[i][j])` when that point is feasible, and the
      sentinel otherwise. */
  function HeightField<E>(eval: (E, real, real) -> real, objective: E, ineqs: seq<E>, eqs: seq<E>, tol: real,
                          xVals: seq<seq<real>>, yVals: seq<seq<real>>, n: nat): (z: seq<seq<Option<real>>>)
    requires Square(xVals, n) && Square(yVals, n)
    ensures Square(z, n)
    ensures forall i, j :: 0 <= i < n && 0 <= j < n ==>
      && (z[i][j].Some? <==> Feasible(eval, ineqs, eqs, tol, xVals[i][j], yVals[i][j]))
      && (z[i][j].Some? ==> z[i][j].value == eval(objective, xVals[i][j], yVals[i][j]))
  {
    seq(n, i requires 0 <= i < n =>
      seq(n, j requires 0 <= j < n =>
        CellValue(eval, objective, ineqs, eqs, tol, xVals[i][j], yVals[i][j])))
  }

  /** `populate(xlim, ylim, n_points)`: rebuilds the axes, the meshes and the
      height field from scratch. Any grid from an earlier call is discarded. */
  function Populate<E>(eval: (E, real, real) -> real, s: Surface<E>, xlim: (real, real), ylim: (real, real), n: int)
    : (r: Result<Surface<E>, PopulateError>)
    ensures r.Err? <==> n < 0 || (1 <= n < 3 && |s.equalities| > 0)
    ensures r.Err? ==> (r.error == NegativeSampleCount <==> n < 0)
    ensures r.Ok? ==>
      && r.value.objective == s.objective
      && r.value.inequalities == s.inequalities
      && r.value.equalities == s.equalities
      && r.value.grid.Some?
    // The axes are evenly spaced from the lower to the upper bound.
    ensures r.Ok? ==>
      var g := r.value.grid.value;
      && g.xAxis == Linspace(xlim.0, xlim.1, n) && g.yAxis == Linspace(ylim.0, ylim.1, n)
      && |g.xAxis| == n && |g.yAxis| == n
      && (n >= 1 ==> g.xAxis[0] == xlim.0 && g.yAxis[0] == ylim.0)
      && (n >= 2 ==> g.xAxis[n - 1] == xlim.1 && g.yAxis[n - 1] == ylim.1)
      && (n >= 2 ==> forall k :: 0 <= k < n - 1 ==>
            g.xAxis[k + 1] - g.xAxis[k] == Step(xlim.0, xlim.1, n) &&
            g.yAxis[k + 1] - g.yAxis[k] == Step(ylim.0, ylim.1, n))
    // The meshes follow the y axis down the rows and the x axis across.
    ensures r.Ok? ==>
      var g := r.value.grid.value;
      && Square(g.xVals, n) && Square(g.yVals, n) && Square(g.zVals, n)
      && forall i, j :: 0 <= i < n && 0 <= j < n ==> g.xVals[i][j] == g.xAxis[j] && g.yVals[i][j] == g.yAxis[i]
    // A cell holds the objective at its point, or the sentinel exactly when a
    // constraint is violated there.
    ensures r.Ok? ==>
      var g := r.value.grid.value;
      forall i, j :: 0 <= i < n && 0 <= j < n ==>
        && (g.zVals[i][j].Some? ==> g.zVals[i][j].value == eval(s.objective, g.xVals[i][j], g.yVals[i][j]))
        && (g.zVals[i][j].None? <==>
              || InequalityViolated(eval, s.inequalities, g.xVals[i][j], g.yVals[i][j])
              || (|s.equalities| > 0 &&
                  EqualityViolated(eval, s.equalities, EqualityTolerance(g.xAxis), g.xVals[i][j], g.yVals[i][j])))
  {
    if n < 0 then Err(NegativeSampleCount)
    else
      var xAxis := Linspace(xlim.0, xlim.1, n);
      var yAxis := Linspace(ylim.0, ylim.1, n);
      var xVals := MeshX(xAxis, yAxis);
      var yVals := MeshY(xAxis, yAxis);
      if n >= 1 && |s.equalities| > 0 && n < 3 then Err(ToleranceIndexOutOfRange)
      else
        // Without equality constraints, or without cells, the tolerance is never read.
        var tol := if n >= 3 then EqualityTolerance(xAxis) else 0.0;
        var zVals := HeightField(eval, s.objective, s.inequalities, s.equalities, tol, xVals, yVals, n);
        Ok(s.(grid := Some(Grid(xAxis, yAxis, xVals, yVals, zVals))))
  }

  /** With no constraints registered nothing is masked: every cell holds the
      objective at its mesh point. */
  lemma PopulateWithoutConstraints<E>(eval: (E, real, real) -> real, s: Surface<E>, xlim: (real, real), ylim: (real, real), n: nat)
    requires |s.inequalities| == 0 && |s.equalities| == 0
    ensures Populate(eval, s, xlim, ylim, n).Ok?
    ensures var g := Populate(eval, s, xlim, ylim, n).value.grid.value;
      forall i, j :: 0 <= i < n && 0 <= j < n ==> g.zVals[i][j] == Some(eval(s.objective, g.xVals[i][j], g.yVals[i][j]))
  {
  }

  /** For three or more samples the equality tolerance is two grid steps. */
  lemma ToleranceIsTwoSteps(lo: real, hi: real, n: nat)
    requires n >= 3
    ensures EqualityTolerance(Linspace(lo, hi, n)) == 2.0 * Step(lo, hi, n)
  {
  }

  /** Reordering, or otherwise permuting, either constraint list changes
      neither whether `populate` succeeds nor anything it computes. */
  lemma {:induction false} PopulateIgnoresConstraintOrder<E>(eval: (E, real, real) -> real, s: Surface<E>, t: Surface<E>,
                                                            xlim: (real, real), ylim: (real, real), n: int)
    requires s.objective == t.objective
    requires multiset(s.inequalities) == multiset(t.inequalities)
    requires multiset(s.equalities) == multiset(t.equalities)
    ensures Populate(eval, s, xlim, ylim, n).Ok? <==> Populate(eval, t, xlim, ylim, n).Ok?
    ensures Populate(eval, s, xlim, ylim, n).Ok? ==>
      Populate(eval, s, xlim, ylim, n).value.grid == Populate(eval, t, xlim, ylim, n).value.grid
  {
    assert |s.equalities| == |multiset(s.equalities)| == |t.equalities|;
    var rs := Populate(eval, s, xlim, ylim, n);
    var rt := Populate(eval, t, xlim, ylim, n);
    if rs.Ok? {
      var gs := rs.value.grid.value;
      var gt := rt.value.grid.value;
      forall i, j | 0 <= i < n && 0 <= j < n
        ensures gs.zVals[i][j] == gt.zVals[i][j]
      {
        var x, y := gs.xVals[i][j], gs.yVals[i][j];
        assert forall c :: c in s.inequalities <==> c in t.inequalities by {
          forall c ensures c in s.inequalities <==> c in t.inequalities {
            assert c in s.inequalities <==> c in multiset(s.inequalities);
            assert c in t.inequalities <==> c in multiset(t.inequalities);
          }
        }
        assert forall c :: c in s.equalities <==> c in t.equalities by {
          forall c ensures c in s.equalities <==> c in t.equalities {
            assert c in s.equalities <==> c in multiset(s.equalities);
            assert c in t.equalities <==> c in multiset(t.equalities);
          }
        }
        var tol := if n >= 3 then EqualityTolerance(gs.xAxis) else 0.0;
        SameMembersSameViolations(eval, s.inequalities, t.inequalities, tol, x, y);
        SameMembersSameViolations(eval, s.equalities, t.equalities, tol, x, y);
      }
      assert forall i :: 0 <= i < n ==> gs.zVals[i] == gt.zVals[i];
      assert gs.zVals == gt.zVals;
      assert gs.xVals == gt.xVals;
      assert gs.yVals == gt.yVals;
    }
  }

  /** Registering one more constraint never brings a masked cell back: each
      cell either keeps its value or becomes masked. */
  lemma {:induction false} AddConstraintOnlyMasksMore<E>(eval: (E, real, real) -> real, s: Surface<E>, c: E, kind: string,
                                                        xlim: (real, real), ylim: (real, real), n: int, i: nat, j: nat)
    requires Populate(eval, s, xlim, ylim, n).Ok?
    requires Populate(eval, AddConstraint(s, c, kind), xlim, ylim, n).Ok?
    requires i < n && j < n
    ensures var g := Populate(eval, s, xlim, ylim, n).value.grid.value;
      var g' := Populate(eval, AddConstraint(s, c, kind), xlim, ylim, n).value.grid.value;
      g'.zVals[i][j] == g.zVals[i][j] || g'.zVals[i][j] == None
  {
    var g := Populate(eval, s, xlim, ylim, n).value.grid.value;
    var x, y := g.xVals[i][j], g.yVals[i][j];
    var tol := if n >= 3 then EqualityTolerance(g.xAxis) else 0.0;
    ExtendingKeepsViolations(eval, s.inequalities, c, tol, x, y);
    ExtendingKeepsViolations(eval, s.equalities, c, tol, x, y);
  }

  /** A newly registered inequality constraint masks exactly the cells where
      it is positive, on top of those already masked. */
  lemma {:induction false} AddInequalityMasksWherePositive<E>(eval: (E, real, real) -> real, s: Surface<E>, c: E,
                                                             xlim: (real, real), ylim: (real, real), n: int, i: nat, j: nat)
    requires Populate(eval, s, xlim, ylim, n).Ok?
    requires i < n && j < n
    ensures Populate(eval, AddConstraint(s, c), xlim, ylim, n).Ok?
    ensures var g := Populate(eval, s, xlim, ylim, n).value.grid.value;
      var g' := Populate(eval, AddConstraint(s, c), xlim, ylim, n).value.grid.value;
      g'.zVals[i][j] == if eval(c, g.xVals[i][j], g.yVals[i][j]) > 0.0 then None else g.zVals[i][j]
  {
    var g := Populate(eval, s, xlim, ylim, n).value.grid.value;
    ExtendingKeepsViolations(eval, s.inequalities, c, 0.0, g.xVals[i][j], g.yVals[i][j]);
  }

  /** `populate` does not read the grid of an earlier call, so calling it
      again with the same arguments changes nothing. */
  lemma PopulateIsIdempotent<E>(eval: (E, real, real) -> real, s: Surface<E>, xlim: (real, real), ylim: (real, real), n: int)
    ensures forall g :: Populate(eval, s.(grid := g), xlim, ylim, n) == Populate(eval, s, xlim, ylim, n)
    ensures Populate(eval, s, xlim, ylim, n).Ok? ==>
      Populate(eval, Populate(eval, s, xlim, ylim, n).value, xlim, ylim, n) == Populate(eval, s, xlim, ylim, n)
  {
  }
}
