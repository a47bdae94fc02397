/** Evenly spaced sample axes, as `numpy.linspace(start, stop, num)` builds
    them with its default `endpoint=True`, over exact reals. */
module Axes {

  /** The distance between neighbouring samples of an axis of `n >= 2` points. */
  function Step(lo: real, hi: real, n: nat): real
    requires n >= 2
  {
    (hi - lo) / (n - 1) as real
  }

  /** `n` samples from `lo` to `hi` inclusive. With one sample the axis is just
      `[lo]`; with none it is empty. For `n >= 2` the last sample is set to `hi`
      itself rather than computed, as the library does. */
  function Linspace(lo: real, hi: real, n: nat): (r: seq<real>)
    ensures |r| == n
    ensures n >= 1 ==> r[0] == lo
    ensures n >= 2 ==> r[n - 1] == hi
    ensures n >= 2 ==> forall k :: 0 <= k < n - 1 ==> r[k + 1] - r[k] == Step(lo, hi, n)
  {
    var step := if n >= 2 then Step(lo, hi, n) else 0.0;
    var r := seq(n, k => if n >= 2 && k == n - 1 then hi else lo + k as real * step);
    assert n >= 2 ==> (n - 1) as real * step == hi - lo;
    assert n >= 2 ==> r[n - 1] - r[n - 2] == step by {
      if n >= 2 {
        assert r[n - 2] == lo + (n - 2) as real * step;
      }
    }
    r
  }

  /** An axis that starts at `lo`, ends at `hi` and keeps a constant gap. */
  ghost predicate EvenlySpaced(s: seq<real>, lo: real, hi: real)
    requires |s| >= 2
  {
    && s[0] == lo
    && s[|s| - 1] == hi
    && forall k :: 0 <= k < |s| - 1 ==> s[k + 1] - s[k] == s[1] - s[0]
  }

  /** Sample `k` of an evenly spaced axis lies `k` gaps past the start. */
  lemma {:induction false} EvenlySpacedOffset(s: seq<real>, lo: real, hi: real, k: nat)
    requires |s| >= 2 && EvenlySpaced(s, lo, hi)
    requires k < |s|
    ensures s[k] == lo + k as real * (s[1] - s[0])
  {
    if k > 0 {
      EvenlySpacedOffset(s, lo, hi, k - 1);
    }
  }

  /** There is only one evenly spaced axis with given endpoints and length,
      and `Linspace` builds it. */
  lemma EvenlySpacedIsLinspace(s: seq<real>, lo: real, hi: real)
    requires |s| >= 2 && EvenlySpaced(s, lo, hi)
    ensures s == Linspace(lo, hi, |s|)
  {
    var n := |s|;
    var g := s[1] - s[0];
    EvenlySpacedOffset(s, lo, hi, n - 1);
    assert (n - 1) as real * g == hi - lo;
    assert g == Step(lo, hi, n);
    var r := Linspace(lo, hi, n);
    forall k | 0 <= k < n
      ensures s[k] == r[k]
    {
      EvenlySpacedOffset(s, lo, hi, k);
    }
  }

  /** Conversely, every `Linspace` axis of two or more samples is evenly spaced
      between its endpoints. */
  lemma LinspaceIsEvenlySpaced(lo: real, hi: real, n: nat)
    requires n >= 2
    ensures EvenlySpaced(Linspace(lo, hi, n), lo, hi)
  {
  }
}
