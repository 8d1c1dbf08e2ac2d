/** The straight-line fit of Python/reconstruct_muon_tracks.py: for each event
    the least-squares slope of the three hit coordinates against the three
    plane depths, in exact real arithmetic. */
module TrackFit {
  import opened Common

  /** The depths of the three planes (`--z_positions`, default 0, 10, 20). */
  datatype Depths = Depths(z1: real, z2: real, z3: real)

  const DefaultDepths := Depths(0.0, 10.0, 20.0)

  /** The strip indices of one event, as read from the `muons` tree. */
  datatype Event = Event(a1: real, b1: real, a2: real, b2: real, a3: real, b3: real)

  function Mean3(x1: real, x2: real, x3: real): real {
    (x1 + x2 + x3) / 3.0
  }

  /** `denom = sum((z - z_mean)**2)`. */
  function Denom(z: Depths): real {
    var m := Mean3(z.z1, z.z2, z.z3);
    Sq(z.z1 - m) + Sq(z.z2 - m) + Sq(z.z3 - m)
  }

  function Sq(d: real): real {
    d * d
  }

  /** `sum((z - z_mean) * (x - x_mean))`. */
  function Cov(z: Depths, x1: real, x2: real, x3: real): real {
    var mz, mx := Mean3(z.z1, z.z2, z.z3), Mean3(x1, x2, x3);
    (z.z1 - mz) * (x1 - mx) + (z.z2 - mz) * (x2 - mx) + (z.z3 - mz) * (x3 - mx)
  }

  /** The fitted slope; `None` stands for the NaN that 0 / 0 gives when all
      depths coincide (the covariance is then 0 as well). */
  function Slope(z: Depths, x1: real, x2: real, x3: real): Option<real> {
    if Denom(z) == 0.0 then None else Some(Cov(z, x1, x2, x3) / Denom(z))
  }

  /** The denominator vanishes exactly when the three depths coincide, and is
      positive otherwise. */
  lemma DenomZeroIff(z: Depths)
    ensures Denom(z) >= 0.0
    ensures Denom(z) == 0.0 <==> z.z1 == z.z2 && z.z2 == z.z3
  {
    var m := Mean3(z.z1, z.z2, z.z3);
    SumOfSquares(z.z1 - m, z.z2 - m, z.z3 - m);
  }

  /** When every depth coincides the covariance vanishes too, so the source's
      division is 0 / 0 and the slope is undefined. */
  lemma DegenerateDepths(z: Depths, x1: real, x2: real, x3: real)
    requires Denom(z) == 0.0
    ensures Cov(z, x1, x2, x3) == 0.0
    ensures Slope(z, x1, x2, x3) == None
  {
    DenomZeroIff(z);
    assert Mean3(z.z1, z.z2, z.z3) == z.z1;
  }

  /** A sum of three squares is never negative, and is zero only when all
      three are. */
  lemma SumOfSquares(d1: real, d2: real, d3: real)
    ensures Sq(d1) + Sq(d2) + Sq(d3) >= 0.0
    ensures Sq(d1) + Sq(d2) + Sq(d3) == 0.0 <==> d1 == 0.0 && d2 == 0.0 && d3 == 0.0
  {
    SquareSign(d1);
    SquareSign(d2);
    SquareSign(d3);
  }

  lemma SquareSign(d: real)
    ensures Sq(d) >= 0.0
    ensures Sq(d) == 0.0 ==> d == 0.0
  {
    if Sq(d) == 0.0 {
      ZeroProduct(d, d);
    }
  }

  lemma ZeroProduct(x: real, y: real)
    requires x * y == 0.0
    ensures x == 0.0 || y == 0.0
  {
    if x != 0.0 {
      assert y == (x * y) / x;
    }
  }

  /** The default depths have mean 10 and denominator 200. */
  lemma DefaultDenom()
    ensures Mean3(DefaultDepths.z1, DefaultDepths.z2, DefaultDepths.z3) == 10.0
    ensures Denom(DefaultDepths) == 200.0
  {
  }

  /** The covariance is the depth deviations weighted by the coordinates: the
      coordinate mean drops out. */
  lemma CovExpanded(z: Depths, x1: real, x2: real, x3: real)
    ensures var mz := Mean3(z.z1, z.z2, z.z3);
      Cov(z, x1, x2, x3) == (z.z1 - mz) * x1 + (z.z2 - mz) * x2 + (z.z3 - mz) * x3
  {
    var mz, mx := Mean3(z.z1, z.z2, z.z3), Mean3(x1, x2, x3);
    var d1, d2, d3 := z.z1 - mz, z.z2 - mz, z.z3 - mz;
    assert d1 + d2 + d3 == 0.0;
    calc {
      Cov(z, x1, x2, x3);
      d1 * (x1 - mx) + d2 * (x2 - mx) + d3 * (x3 - mx);
      d1 * x1 + d2 * x2 + d3 * x3 - (d1 + d2 + d3) * mx;
      d1 * x1 + d2 * x2 + d3 * x3;
    }
  }

  /** Points exactly on a line x = c + s * z are fitted with slope s. */
  lemma ExactLine(z: Depths, c: real, s: real)
    requires Denom(z) != 0.0
    ensures Slope(z, c + s * z.z1, c + s * z.z2, c + s * z.z3) == Some(s)
  {
    var mz := Mean3(z.z1, z.z2, z.z3);
    var d1, d2, d3 := z.z1 - mz, z.z2 - mz, z.z3 - mz;
    CovExpanded(z, c + s * z.z1, c + s * z.z2, c + s * z.z3);
    assert d1 + d2 + d3 == 0.0;
    calc {
      Cov(z, c + s * z.z1, c + s * z.z2, c + s * z.z3);
      d1 * (c + s * z.z1) + d2 * (c + s * z.z2) + d3 * (c + s * z.z3);
      (d1 + d2 + d3) * c + s * (d1 * z.z1 + d2 * z.z2 + d3 * z.z3);
      s * (d1 * z.z1 + d2 * z.z2 + d3 * z.z3);
      { DenomExpanded(z); }
      s * Denom(z);
    }
    assert (s * Denom(z)) / Denom(z) == s;
  }

  /** The denominator is the depth deviations weighted by the depths. */
  lemma DenomExpanded(z: Depths)
    ensures var mz := Mean3(z.z1, z.z2, z.z3);
      Denom(z) == (z.z1 - mz) * z.z1 + (z.z2 - mz) * z.z2 + (z.z3 - mz) * z.z3
  {
    CovExpanded(z, z.z1, z.z2, z.z3);
  }

  /** z = 0, 10, 20 and x = 0, 1, 2 give slope 0.1. */
  lemma ExampleSlope()
    ensures Slope(DefaultDepths, 0.0, 1.0, 2.0) == Some(0.1)
  {
    DefaultDenom();
    ExactLine(DefaultDepths, 0.0, 0.1);
  }

  /** Adding the same constant to the three coordinates leaves the slope alone. */
  lemma ShiftInvariant(z: Depths, x1: real, x2: real, x3: real, c: real)
    ensures Slope(z, x1 + c, x2 + c, x3 + c) == Slope(z, x1, x2, x3)
  {
    var mz := Mean3(z.z1, z.z2, z.z3);
    var d1, d2, d3 := z.z1 - mz, z.z2 - mz, z.z3 - mz;
    assert d1 + d2 + d3 == 0.0;
    calc {
      Cov(z, x1 + c, x2 + c, x3 + c);
      { CovExpanded(z, x1 + c, x2 + c, x3 + c); }
      d1 * (x1 + c) + d2 * (x2 + c) + d3 * (x3 + c);
      d1 * x1 + d2 * x2 + d3 * x3 + (d1 + d2 + d3) * c;
      d1 * x1 + d2 * x2 + d3 * x3;
      { CovExpanded(z, x1, x2, x3); }
      Cov(z, x1, x2, x3);
    }
  }

  /** Three equal coordinates give slope 0 whenever the fit is defined. */
  lemma ConstantSlope(z: Depths, c: real)
    requires Denom(z) != 0.0
    ensures Slope(z, c, c, c) == Some(0.0)
  {
    ExactLine(z, c, 0.0);
    assert c + 0.0 * z.z1 == c && c + 0.0 * z.z2 == c && c + 0.0 * z.z3 == c;
  }

  /** A -1 sentinel is an ordinary coordinate to the fit: B = -1, 0, 1 on the
      default planes gives slope 0.1. */
  lemma SentinelIsFitted()
    ensures Slope(DefaultDepths, -1.0, 0.0, 1.0) == Some(0.1)
  {
    ExampleSlope();
    ShiftInvariant(DefaultDepths, 0.0, 1.0, 2.0, -1.0);
  }

  /** The event loop of `main`: `slopes_x[i]` is fitted to B1..B3 and
      `slopes_y[i]` to A1..A3 of event i. */
  method FitTracks(z: Depths, events: seq<Event>) returns (slopesX: array<Option<real>>, slopesY: array<Option<real>>)
    ensures fresh(slopesX) && fresh(slopesY)
    ensures slopesX.Length == |events| && slopesY.Length == |events|
    ensures forall i :: 0 <= i < |events| ==>
      slopesX[i] == Slope(z, events[i].b1, events[i].b2, events[i].b3) &&
      slopesY[i] == Slope(z, events[i].a1, events[i].a2, events[i].a3)
  {
    var n := |events|;
    slopesX := new Option<real>[n];
    slopesY := new Option<real>[n];
    var i := 0;
    while i < n
      invariant 0 <= i <= n
      invariant forall k :: 0 <= k < i ==>
        slopesX[k] == Slope(z, events[k].b1, events[k].b2, events[k].b3) &&
        slopesY[k] == Slope(z, events[k].a1, events[k].a2, events[k].a3)
    {
      var e := events[i];
      slopesX[i] := Slope(z, e.b1, e.b2, e.b3);
      slopesY[i] := Slope(z, e.a1, e.a2, e.a3);
      i := i + 1;
    }
  }
}
