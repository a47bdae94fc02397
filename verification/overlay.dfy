/** The feasible-region overlay that `plot` hands to the implicit plotter: the
    conjunction of strict `c < 0` over the inequality constraints and `c == 0`
    over the equality constraints, formed only when there is at least one
    inequality constraint. The drawing itself is not modelled. */
module Overlay {
  import opened Wrappers
  import opened Axes
  import opened Masking
  import opened Surfaces

  /** One relation of the conjunction. */
  datatype Relation<E> = Negative(expr: E) | Zero(expr: E)

  predicate Satisfied<E>(eval: (E, real, real) -> real, rel: Relation<E>, x: real, y: real)
  {
    match rel
    case Negative(c) => eval(c, x, y) < 0.0
    case Zero(c) => eval(c, x, y) == 0.0
  }

  /** The conjunction of a list of relations; the empty conjunction holds. */
  predicate AllSatisfied<E>(eval: (E, real, real) -> real, rels: seq<Relation<E>>, x: real, y: real)
  {
    forall k :: 0 <= k < |rels| ==> Satisfied(eval, rels[k], x, y)
  }

  /** The relations of the overlay, or `None` when no overlay is drawn. The
      equality constraints are only ever appended after inequality ones, so
      with no inequality constraint they are dropped too. */
  function OverlayRelations<E>(s: Surface<E>): (r: Option<seq<Relation<E>>>)
    ensures r.None? <==> |s.inequalities| == 0
    ensures r.Some? ==>
      && |r.value| == |s.inequalities| + |s.equalities|
      && (forall k :: 0 <= k < |s.inequalities| ==> r.value[k] == Negative(s.inequalities[k]))
      && (forall k :: 0 <= k < |s.equalities| ==> r.value[|s.inequalities| + k] == Zero(s.equalities[k]))
  {
    if |s.inequalities| == 0 then None
    else
      var strict := seq(|s.inequalities|, k requires 0 <= k < |s.inequalities| => Negative(s.inequalities[k]));
      if |s.equalities| > 0 then
        Some(strict + seq(|s.equalities|, k requires 0 <= k < |s.equalities| => Zero(s.equalities[k])))
      else
        Some(strict)
  }

  /** The overlay region is the set of points where every inequality
      constraint is strictly negative and every equality constraint is zero. */
  lemma OverlayRegion<E>(eval: (E, real, real) -> real, s: Surface<E>, x: real, y: real)
    requires |s.inequalities| > 0
    ensures AllSatisfied(eval, OverlayRelations(s).value, x, y) <==>
      && (forall k :: 0 <= k < |s.inequalities| ==> eval(s.inequalities[k], x, y) < 0.0)
      && (forall k :: 0 <= k < |s.equalities| ==> eval(s.equalities[k], x, y) == 0.0)
  {
  }

  /** A point where every inequality constraint is strictly negative and every
      equality constraint is zero is feasible for any tolerance that is not
      negative. */
  lemma ZeroAndNegativeIsFeasible<E>(eval: (E, real, real) -> real, ineqs: seq<E>, eqs: seq<E>, tol: real, x: real, y: real)
    requires tol >= 0.0
    requires forall k :: 0 <= k < |ineqs| ==> eval(ineqs[k], x, y) < 0.0
    requires forall k :: 0 <= k < |eqs| ==> eval(eqs[k], x, y) == 0.0
    ensures Feasible(eval, ineqs, eqs, tol, x, y)
  {
  }

  /** On an x axis running upwards the equality tolerance is not negative. */
  lemma ToleranceNotNegative(lo: real, hi: real, n: nat)
    requires lo <= hi && n >= 3
    ensures EqualityTolerance(Linspace(lo, hi, n)) >= 0.0
  {
  }

  /** Hence, with the x axis running upwards, a grid point inside the overlay
      region is never masked on the surface. */
  lemma {:induction false} OverlayRegionIsUnmasked<E>(eval: (E, real, real) -> real, s: Surface<E>,
                                                     xlim: (real, real), ylim: (real, real), n: int, i: nat, j: nat)
    requires xlim.0 <= xlim.1 && i < n && j < n
    ensures var r := Populate(eval, s, xlim, ylim, n);
      r.Ok? && OverlayRelations(s).Some? &&
      AllSatisfied(eval, OverlayRelations(s).value, r.value.grid.value.xVals[i][j], r.value.grid.value.yVals[i][j])
      ==> r.value.grid.value.zVals[i][j] == Some(eval(s.objective, r.value.grid.value.xVals[i][j], r.value.grid.value.yVals[i][j]))
  {
    var r := Populate(eval, s, xlim, ylim, n);
    if !(r.Ok? && OverlayRelations(s).Some?) {
      return;
    }
    var g := r.value.grid.value;
    var x, y := g.xVals[i][j], g.yVals[i][j];
    if !AllSatisfied(eval, OverlayRelations(s).value, x, y) {
      return;
    }
    OverlayRegion(eval, s, x, y);
    if |s.equalities| > 0 {
      ToleranceNotNegative(xlim.0, xlim.1, n);
      ZeroAndNegativeIsFeasible(eval, s.inequalities, s.equalities, EqualityTolerance(g.xAxis), x, y);
    } else {
      ZeroAndNegativeIsFeasible(eval, s.inequalities, s.equalities, 0.0, x, y);
    }
  }
}
