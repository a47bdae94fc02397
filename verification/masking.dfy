/** The per-cell constraint masking of the surface: the objective value of a
    cell is replaced by the not-a-number sentinel (`None`) when an inequality
    constraint is positive there or an equality constraint is not close to
    zero. Expressions are opaque: `eval(e, x, y)` is the value of expression
    `e` at the point `(x, y)`. */
module Masking {
  import opened Wrappers

  function Abs(v: real): real {
    if v < 0.0 then -v else v
  }

  /** The relative tolerance `numpy.isclose` uses when none is given. */
  const DefaultRtol: real := 0.00001

  /** `numpy.isclose(a, b, rtol, atol)` over exact reals. The relative term is
      scaled by `|b|`, so against zero only the absolute tolerance matters. */
  function IsClose(a: real, b: real, atol: real, rtol: real := DefaultRtol): (r: bool)
    ensures b == 0.0 ==> (r <==> Abs(a) <= atol)
    ensures rtol >= 0.0 && Abs(a - b) <= atol ==> r
  {
    Abs(a - b) <= atol + rtol * Abs(b)
  }

  /** Later numpy releases also accept `a == b` outright. With a tolerance that
      is not negative that extra clause changes nothing, so both readings of
      `isclose` agree on every grid whose x axis runs upwards. */
  lemma ExactMatchClauseIsRedundant(a: real, b: real, atol: real, rtol: real)
    requires atol >= 0.0 && rtol >= 0.0
    ensures (a == b || IsClose(a, b, atol, rtol)) <==> IsClose(a, b, atol, rtol)
  {
  }

  /** Some inequality constraint is positive at `(x, y)`. */
  predicate InequalityViolated<E>(eval: (E, real, real) -> real, cs: seq<E>, x: real, y: real)
  {
    exists k :: 0 <= k < |cs| && eval(cs[k], x, y) > 0.0
  }

  /** Some equality constraint is farther than `tol` from zero at `(x, y)`. */
  predicate EqualityViolated<E>(eval: (E, real, real) -> real, cs: seq<E>, tol: real, x: real, y: real)
  {
    exists k :: 0 <= k < |cs| && Abs(eval(cs[k], x, y)) > tol
  }

  /** A point is feasible when it violates no constraint of either kind. */
  predicate Feasible<E>(eval: (E, real, real) -> real, ineqs: seq<E>, eqs: seq<E>, tol: real, x: real, y: real)
  {
    !InequalityViolated(eval, ineqs, x, y) && !EqualityViolated(eval, eqs, tol, x, y)
  }

  /** Runs through the inequality constraints in registration order, overwriting
      the cell with the sentinel whenever one is positive. A cell that has been
      overwritten stays overwritten. */
  function MaskInequalities<E>(eval: (E, real, real) -> real, cs: seq<E>, x: real, y: real, z: Option<real>): (r: Option<real>)
    ensures r == if InequalityViolated(eval, cs, x, y) then None else z
    decreases |cs|
  {
    if |cs| == 0 then z
    else
      var z' := if eval(cs[0], x, y) > 0.0 then None else z;
      var r := MaskInequalities(eval, cs[1..], x, y, z');
      assert InequalityViolated(eval, cs[1..], x, y) ==> InequalityViolated(eval, cs, x, y) by {
        if InequalityViolated(eval, cs[1..], x, y) {
          var k :| 0 <= k < |cs[1..]| && eval(cs[1..][k], x, y) > 0.0;
          assert cs[k + 1] == cs[1..][k];
        }
      }
      r
  }

  /** Runs through the equality constraints in registration order, overwriting
      the cell with the sentinel whenever one is not close to zero within the
      absolute tolerance `tol`. */
  function MaskEqualities<E>(eval: (E, real, real) -> real, cs: seq<E>, tol: real, x: real, y: real, z: Option<real>): (r: Option<real>)
    ensures r == if EqualityViolated(eval, cs, tol, x, y) then None else z
    decreases |cs|
  {
    if |cs| == 0 then z
    else
      var z' := if !IsClose(eval(cs[0], x, y), 0.0, tol) then None else z;
      var r := MaskEqualities(eval, cs[1..], tol, x, y, z');
      assert EqualityViolated(eval, cs[1..], tol, x, y) ==> EqualityViolated(eval, cs, tol, x, y) by {
        if EqualityViolated(eval, cs[1..], tol, x, y) {
          var k :| 0 <= k < |cs[1..]| && Abs(eval(cs[1..][k], x, y)) > tol;
          assert cs[k + 1] == cs[1..][k];
        }
      }
      r
  }

  /** The value of one grid cell: the objective at the cell's point, then masked
      by every inequality constraint and after them every equality constraint.
      The cell keeps the objective value exactly when the point is feasible. */
  function CellValue<E>(eval: (E, real, real) -> real, objective: E, ineqs: seq<E>, eqs: seq<E>, tol: real, x: real, y: real): (r: Option<real>)
    ensures r.Some? <==> Feasible(eval, ineqs, eqs, tol, x, y)
    ensures r.Some? ==> r.value == eval(objective, x, y)
  {
    MaskEqualities(eval, eqs, tol, x, y, MaskInequalities(eval, ineqs, x, y, Some(eval(objective, x, y))))
  }

  /** Whether a constraint list is violated depends only on which expressions
      it holds, not on their order or repetition. */
  lemma {:induction false} SameMembersSameViolations<E>(eval: (E, real, real) -> real, cs: seq<E>, ds: seq<E>, tol: real, x: real, y: real)
    requires forall c :: c in cs <==> c in ds
    ensures InequalityViolated(eval, cs, x, y) <==> InequalityViolated(eval, ds, x, y)
    ensures EqualityViolated(eval, cs, tol, x, y) <==> EqualityViolated(eval, ds, tol, x, y)
  {
    forall a, b | (a, b) == (cs, ds) || (a, b) == (ds, cs)
      ensures InequalityViolated(eval, a, x, y) ==> InequalityViolated(eval, b, x, y)
      ensures EqualityViolated(eval, a, tol, x, y) ==> EqualityViolated(eval, b, tol, x, y)
    {
      if InequalityViolated(eval, a, x, y) {
        var k :| 0 <= k < |a| && eval(a[k], x, y) > 0.0;
        assert a[k] in b;
      }
      if EqualityViolated(eval, a, tol, x, y) {
        var k :| 0 <= k < |a| && Abs(eval(a[k], x, y)) > tol;
        assert a[k] in b;
      }
    }
  }

  /** One more constraint of either kind can only add violations. */
  lemma ExtendingKeepsViolations<E>(eval: (E, real, real) -> real, cs: seq<E>, c: E, tol: real, x: real, y: real)
    ensures InequalityViolated(eval, cs + [c], x, y) <==> InequalityViolated(eval, cs, x, y) || eval(c, x, y) > 0.0
    ensures EqualityViolated(eval, cs + [c], tol, x, y) <==> EqualityViolated(eval, cs, tol, x, y) || Abs(eval(c, x, y)) > tol
  {
    var ds := cs + [c];
    assert ds[|cs|] == c;
    if InequalityViolated(eval, ds, x, y) {
      var k :| 0 <= k < |ds| && eval(ds[k], x, y) > 0.0;
      if k < |cs| { assert ds[k] == cs[k]; }
    }
    if EqualityViolated(eval, ds, tol, x, y) {
      var k :| 0 <= k < |ds| && Abs(eval(ds[k], x, y)) > tol;
      if k < |cs| { assert ds[k] == cs[k]; }
    }
    if InequalityViolated(eval, cs, x, y) {
      var k :| 0 <= k < |cs| && eval(cs[k], x, y) > 0.0;
      assert ds[k] == cs[k];
    }
    if EqualityViolated(eval, cs, tol, x, y) {
      var k :| 0 <= k < |cs| && Abs(eval(cs[k], x, y)) > tol;
      assert ds[k] == cs[k];
    }
  }
}
