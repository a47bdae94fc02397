/** Coordinate matrices in the default `numpy.meshgrid(xs, ys)` layout: the row
    index follows the y axis and the column index follows the x axis. */
module Meshgrid {

  /** Every row is a copy of `xs`; there is one row per y sample. */
  function MeshX(xs: seq<real>, ys: seq<real>): (m: seq<seq<real>>)
    ensures |m| == |ys|
    ensures forall i :: 0 <= i < |m| ==> |m[i]| == |xs|
    ensures forall i, j :: 0 <= i < |ys| && 0 <= j < |xs| ==> m[i][j] == xs[j]
  {
    seq(|ys|, _ => xs)
  }

  /** Row `i` repeats `ys[i]` once per x sample. */
  function MeshY(xs: seq<real>, ys: seq<real>): (m: seq<seq<real>>)
    ensures |m| == |ys|
    ensures forall i :: 0 <= i < |m| ==> |m[i]| == |xs|
    ensures forall i, j :: 0 <= i < |ys| && 0 <= j < |xs| ==> m[i][j] == ys[i]
  {
    seq(|ys|, i requires 0 <= i < |ys| => seq(|xs|, _ => ys[i]))
  }
}
