/** Concrete surfaces worked through the model, with a small closed set of
    formulas standing in for parsed expressions. */
module Scenarios {
  import opened Wrappers
  import opened Surfaces

  datatype Formula = SumOfSquares | Sum | SumMinusOne | Difference

  function Evaluate(f: Formula, x: real, y: real): real
  {
    match f
    case SumOfSquares => x * x + y * y
    case Sum => x + y
    case SumMinusOne => x + y - 1.0
    case Difference => x - y
  }

  /** `x**2 + y**2` on `[-1, 1] x [-1, 1]` with three samples: the axes are
      `[-1, 0, 1]`, the centre is 0 and the corners are 2. */
  lemma BowlScenario()
    ensures var r := Populate(Evaluate, NewSurface(SumOfSquares), (-1.0, 1.0), (-1.0, 1.0), 3);
      && r.Ok?
      && r.value.grid.value.xAxis == [-1.0, 0.0, 1.0]
      && r.value.grid.value.yAxis == [-1.0, 0.0, 1.0]
      && r.value.grid.value.zVals[1][1] == Some(0.0)
      && r.value.grid.value.zVals[0][0] == Some(2.0)
      && r.value.grid.value.zVals[0][2] == Some(2.0)
      && r.value.grid.value.zVals[2][0] == Some(2.0)
      && r.value.grid.value.zVals[2][2] == Some(2.0)
  {
  }

  /** `x + y` under `x + y - 1 <= 0` on `[0, 2] x [0, 2]` with three samples:
      the corner `(2, 2)` is masked and the origin keeps the value 0. */
  lemma HalfPlaneScenario()
    ensures var s := AddConstraint(NewSurface(Sum), SumMinusOne);
      var r := Populate(Evaluate, s, (0.0, 2.0), (0.0, 2.0), 3);
      && r.Ok?
      && r.value.grid.value.zVals[2][2] == None
      && r.value.grid.value.zVals[0][0] == Some(0.0)
  {
  }

  /** `x - y == 0` on `[0, 8] x [0, 8]` with five samples: the grid step is 2
      and the tolerance 4, so `(4, 0)` is kept while `(8, 0)` is masked. */
  lemma EqualityBandScenario()
    ensures var s := AddConstraint(NewSurface(Sum), Difference, "equality");
      var r := Populate(Evaluate, s, (0.0, 8.0), (0.0, 8.0), 5);
      && r.Ok?
      && r.value.grid.value.zVals[0][2] == Some(4.0)
      && r.value.grid.value.zVals[0][4] == None
  {
  }

  /** An equality constraint with two samples per axis raises, while an empty
      grid never reads the tolerance, and an unknown tag registers nothing. */
  lemma ShortAxisScenario()
    ensures var s := AddConstraint(NewSurface(Sum), Difference, "equality");
      && Populate(Evaluate, s, (0.0, 1.0), (0.0, 1.0), 2) == Err(ToleranceIndexOutOfRange)
      && Populate(Evaluate, s, (0.0, 1.0), (0.0, 1.0), 0).Ok?
      && Populate(Evaluate, s, (0.0, 1.0), (0.0, 1.0), -1) == Err(NegativeSampleCount)
    ensures AddConstraint(NewSurface(Sum), Difference, "equal") == NewSurface(Sum)
  {
  }
}
