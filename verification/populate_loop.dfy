/** The nested loops of `populate` written out as statements: each cell starts
    at the objective value and is overwritten with the sentinel by every
    violated constraint, inequality constraints first, in registration order.
    The tolerance is read from the x axis each time an equality constraint is
    checked, which is where the computation stops when that axis is too short. */
module PopulateLoop {
  import opened Wrappers
  import opened Axes
  import opened Meshgrid
  import opened Masking
  import opened Surfaces

  /** One cell: the objective at `(x, y)`, then the inequality loop, then the
      equality loop. */
  method EvaluateCell<E>(eval: (E, real, real) -> real, s: Surface<E>, xAxis: seq<real>, x: real, y: real)
    returns (r: Result<Option<real>, PopulateError>)
    ensures r.Err? <==> |s.equalities| > 0 && |xAxis| < 3
    ensures r.Err? ==> r.error == ToleranceIndexOutOfRange
    ensures r.Ok? ==> r.value == CellValue(eval, s.objective, s.inequalities, s.equalities,
                                           if |xAxis| >= 3 then EqualityTolerance(xAxis) else 0.0, x, y)
  {
    var v := eval(s.objective, x, y);
    var z: Option<real> := Some(v);
    var k := 0;
    while k < |s.inequalities|
      invariant 0 <= k <= |s.inequalities|
      invariant z == if InequalityViolated(eval, s.inequalities[..k], x, y) then None else Some(v)
    {
      var c := s.inequalities[k];
      ExtendingKeepsViolations(eval, s.inequalities[..k], c, 0.0, x, y);
      assert s.inequalities[..k + 1] == s.inequalities[..k] + [c];
      if eval(c, x, y) > 0.0 {
        z := None;
      }
      k := k + 1;
    }
    assert s.inequalities[..k] == s.inequalities;
    ghost var tol := if |xAxis| >= 3 then EqualityTolerance(xAxis) else 0.0;
    ghost var masked := InequalityViolated(eval, s.inequalities, x, y);
    k := 0;
    while k < |s.equalities|
      invariant 0 <= k <= |s.equalities|
      invariant k > 0 ==> |xAxis| >= 3
      invariant z == if masked || EqualityViolated(eval, s.equalities[..k], tol, x, y) then None else Some(v)
    {
      var c := s.equalities[k];
      if |xAxis| < 3 {
        return Err(ToleranceIndexOutOfRange);
      }
      ExtendingKeepsViolations(eval, s.equalities[..k], c, tol, x, y);
      assert s.equalities[..k + 1] == s.equalities[..k] + [c];
      if !IsClose(eval(c, x, y), 0.0, xAxis[2] - xAxis[0]) {
        z := None;
      }
      k := k + 1;
    }
    assert s.equalities[..k] == s.equalities;
    return Ok(z);
  }

  /** One row of the height field, column by column. */
  method EvaluateRow<E>(eval: (E, real, real) -> real, s: Surface<E>, xAxis: seq<real>, xs: seq<real>, ys: seq<real>)
    returns (r: Result<seq<Option<real>>, PopulateError>)
    requires |xs| == |ys|
    ensures r.Err? <==> |xs| > 0 && |s.equalities| > 0 && |xAxis| < 3
    ensures r.Err? ==> r.error == ToleranceIndexOutOfRange
    ensures r.Ok? ==> |r.value| == |xs| && forall b :: 0 <= b < |xs| ==>
      r.value[b] == CellValue(eval, s.objective, s.inequalities, s.equalities,
                              if |xAxis| >= 3 then EqualityTolerance(xAxis) else 0.0, xs[b], ys[b])
  {
    var row: seq<Option<real>> := [];
    var j := 0;
    while j < |xs|
      invariant 0 <= j <= |xs|
      invariant j > 0 ==> !(|s.equalities| > 0 && |xAxis| < 3)
      invariant |row| == j
      invariant forall b :: 0 <= b < j ==>
        row[b] == CellValue(eval, s.objective, s.inequalities, s.equalities,
                            if |xAxis| >= 3 then EqualityTolerance(xAxis) else 0.0, xs[b], ys[b])
    {
      var cell := EvaluateCell(eval, s, xAxis, xs[j], ys[j]);
      if cell.Err? {
        return Err(cell.error);
      }
      row := row + [cell.value];
      j := j + 1;
    }
    return Ok(row);
  }

  /** `populate` as nested loops over rows and columns. It computes exactly
      what the functional `Populate` describes, including where it raises. */
  method PopulateByLoops<E>(eval: (E, real, real) -> real, s: Surface<E>, xlim: (real, real), ylim: (real, real), n: int)
    returns (r: Result<Surface<E>, PopulateError>)
    ensures r == Populate(eval, s, xlim, ylim, n)
  {
    if n < 0 {
      return Err(NegativeSampleCount);
    }
    var xAxis := Linspace(xlim.0, xlim.1, n);
    var yAxis := Linspace(ylim.0, ylim.1, n);
    var xVals := MeshX(xAxis, yAxis);
    var yVals := MeshY(xAxis, yAxis);
    ghost var tol := if n >= 3 then EqualityTolerance(xAxis) else 0.0;
    var zVals: seq<seq<Option<real>>> := [];
    var i := 0;
    while i < n
      invariant 0 <= i <= n
      invariant i > 0 ==> !(|s.equalities| > 0 && n < 3)
      invariant |zVals| == i
      invariant forall a :: 0 <= a < i ==> |zVals[a]| == n
      invariant forall a, b :: 0 <= a < i && 0 <= b < n ==>
        zVals[a][b] == CellValue(eval, s.objective, s.inequalities, s.equalities, tol, xVals[a][b], yVals[a][b])
    {
      var row := EvaluateRow(eval, s, xAxis, xVals[i], yVals[i]);
      if row.Err? {
        return Err(row.error);
      }
      zVals := zVals + [row.value];
      i := i + 1;
    }
    var heights := HeightField(eval, s.objective, s.inequalities, s.equalities, tol, xVals, yVals, n);
    forall a | 0 <= a < n
      ensures zVals[a] == heights[a]
    {
    }
    assert zVals == heights;
    return Ok(s.(grid := Some(Grid(xAxis, yAxis, xVals, yVals, zVals))));
  }
}
