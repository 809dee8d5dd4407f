/**
 Charges drawn from a distribution given by points: the trapezoid integral of the
 density is the cumulative, which is inverted by linear interpolation. Doubles
 are modelled as reals; the random number is a parameter.
 */
module PmtCharge {
  import opened Wrappers

  // --------------------------------------------------------------- arithmetic

  lemma Signs(x: real, y: real, p: real)
    requires p == x * y
    ensures x >= 0.0 && y >= 0.0 ==> p >= 0.0
    ensures x > 0.0 && y > 0.0 ==> p > 0.0
  {
  }

  /** A quotient by what it is. */
  lemma QuotientIs(x: real, d: real, q: real)
    requires d != 0.0
    ensures q == x / d <==> q * d == x
  {
  }

  // ------------------------------------------------------------- the cumulative

  /** One trapezoid. */
  function Area(charge: seq<real>, prob: seq<real>, i: nat): real
    requires i + 1 < |charge| == |prob|
  {
    (charge[i + 1] - charge[i]) * (prob[i] + prob[i + 1]) / 2.0
  }

  /** The integral up to point i. */
  function Integral(charge: seq<real>, prob: seq<real>, i: nat): real
    requires i < |charge| == |prob|
  {
    if i == 0 then 0.0 else Integral(charge, prob, i - 1) + Area(charge, prob, i - 1)
  }

  predicate Ascending(charge: seq<real>) {
    forall i, j :: 0 <= i < j < |charge| ==> charge[i] < charge[j]
  }

  /** What the points of a distribution must be. */
  predicate Density(charge: seq<real>, prob: seq<real>) {
    && 2 <= |charge| == |prob|
    && Ascending(charge)
    && (forall i :: 0 <= i < |prob| ==> prob[i] >= 0.0)
    && Integral(charge, prob, |charge| - 1) > 0.0
  }

  /** A cumulative over ascending charges. */
  ghost predicate Curve(charge: seq<real>, cumu: seq<real>) {
    && 2 <= |charge| == |cumu|
    && Ascending(charge)
    && (forall i, j :: 0 <= i < j < |cumu| ==> cumu[i] <= cumu[j])
    && cumu[0] == 0.0 && cumu[|cumu| - 1] == 1.0
  }

  lemma {:induction false} IntegralGrows(charge: seq<real>, prob: seq<real>, i: nat, j: nat)
    requires Density(charge, prob) && i <= j < |charge|
    ensures Integral(charge, prob, i) <= Integral(charge, prob, j)
    decreases j
  {
    hide Density, Area;
    if i < j {
      IntegralGrows(charge, prob, i, j - 1);
      AreaNonNegative(charge, prob, j - 1);
    }
  }

  lemma AreaNonNegative(charge: seq<real>, prob: seq<real>, i: nat)
    requires Density(charge, prob) && i + 1 < |charge|
    ensures Area(charge, prob, i) >= 0.0
  {
    var w, h := charge[i + 1] - charge[i], prob[i] + prob[i + 1];
    Signs(w, h, w * h);
  }

  ghost predicate Normalised(charge: seq<real>, prob: seq<real>, cumu: seq<real>) {
    && 2 <= |charge| == |prob| == |cumu|
    && Integral(charge, prob, |charge| - 1) != 0.0
    && forall i :: 0 <= i < |cumu| ==> cumu[i] == Integral(charge, prob, i) / Integral(charge, prob, |charge| - 1)
  }

  lemma Divided(x: real, y: real, d: real)
    requires d > 0.0 && x <= y
    ensures x / d <= y / d
  {
  }

  /** A normalised integral of a density is a cumulative. */
  lemma DensityCurve(charge: seq<real>, prob: seq<real>, cumu: seq<real>)
    requires Density(charge, prob) && Normalised(charge, prob, cumu)
    ensures Curve(charge, cumu)
  {
    hide Integral;
    var n := |charge|;
    var total := Integral(charge, prob, n - 1);
    assert Integral(charge, prob, 0) == 0.0 by { NoArea(charge, prob); }
    forall i, j | 0 <= i < j < n
      ensures cumu[i] <= cumu[j]
    {
      IntegralGrows(charge, prob, i, j);
      Divided(Integral(charge, prob, i), Integral(charge, prob, j), total);
    }
    Ends(total);
  }

  lemma Ends(d: real)
    requires d != 0.0
    ensures 0.0 / d == 0.0 && d / d == 1.0
  {
  }

  lemma MoreArea(charge: seq<real>, prob: seq<real>, i: nat, q0: real, q1: real, p0: real, p1: real)
    requires i + 1 < |charge| == |prob|
    requires q0 == charge[i] && q1 == charge[i + 1] && p0 == prob[i] && p1 == prob[i + 1]
    ensures Integral(charge, prob, i + 1) == Integral(charge, prob, i) + (q1 - q0) * (p0 + p1) / 2.0
  {
  }

  lemma NoArea(charge: seq<real>, prob: seq<real>)
    requires 0 < |charge| == |prob|
    ensures Integral(charge, prob, 0) == 0.0
  {
  }

  // --------------------------------------------------------------- picking

  /** The first point at or behind i whose cumulative reaches r. */
  function Segment(cumu: seq<real>, r: real, i: nat): (k: nat)
    requires i < |cumu| && r <= cumu[|cumu| - 1]
    ensures i <= k < |cumu| && r <= cumu[k]
    ensures forall j :: i <= j < k ==> cumu[j] < r
    decreases |cumu| - i
  {
    if r <= cumu[i] then i else Segment(cumu, r, i + 1)
  }

  /** The straight line from (x0, y0) to (x1, y1), at x. */
  function Line(x0: real, y0: real, x1: real, y1: real, x: real): real
    requires x0 != x1
  {
    (x - x0) * (y1 - y0) / (x1 - x0) + y0
  }

  /** The charge picked for r. */
  function Picked(charge: seq<real>, cumu: seq<real>, r: real): real
    requires Curve(charge, cumu) && 0.0 < r <= 1.0
  {
    var i := Segment(cumu, r, 1);
    assert cumu[i - 1] < cumu[i];
    Line(cumu[i - 1], charge[i - 1], cumu[i], charge[i], r)
  }

  /** The cumulative at q, between points i - 1 and i. */
  function CumulativeAt(charge: seq<real>, cumu: seq<real>, i: nat, q: real): real
    requires Ascending(charge) && 0 < i < |charge| == |cumu|
  {
    Line(charge[i - 1], cumu[i - 1], charge[i], cumu[i], q)
  }

  /** A line and its inverse, both rising. */
  lemma Inverse(x0: real, y0: real, x1: real, y1: real, x: real)
    requires x0 < x1 && y0 < y1
    ensures Line(y0, x0, y1, x1, Line(x0, y0, x1, y1, x)) == x
    ensures x0 < x <= x1 <==> y0 < Line(x0, y0, x1, y1, x) <= y1
  {
    var dx, dy, u := x1 - x0, y1 - y0, x - x0;
    var v := u * dy / dx;
    assert v * dx == u * dy;
    assert Line(x0, y0, x1, y1, x) == v + y0;
    QuotientIs(v * dx, dy, u);
    Compare(u, v, dx, dy);
    Compare(dx - u, dy - v, dx, dy);
    assert (dy - v) * dx == (dx - u) * dy;
  }

  lemma Compare(u: real, v: real, dx: real, dy: real)
    requires dx > 0.0 && dy > 0.0 && v * dx == u * dy
    ensures u > 0.0 <==> v > 0.0
    ensures u >= 0.0 <==> v >= 0.0
  {
  }

  lemma PickedIn(charge: seq<real>, cumu: seq<real>, r: real, i: nat)
    requires Curve(charge, cumu) && 0.0 < r <= 1.0
    requires 1 <= i < |charge| && r <= cumu[i] && forall j :: 0 <= j < i ==> cumu[j] < r
    ensures Picked(charge, cumu, r) == Line(cumu[i - 1], charge[i - 1], cumu[i], charge[i], r)
    ensures Segment(cumu, r, 1) == i
  {
  }

  lemma LineIs(x0: real, y0: real, x1: real, y1: real, x: real)
    requires x0 != x1
    ensures Line(x0, y0, x1, y1, x) == (x - x0) * (y1 - y0) / (x1 - x0) + y0
  {
  }

  /** A picked charge lies in its segment, and the cumulative there is r. */
  lemma PickedInverts(charge: seq<real>, cumu: seq<real>, r: real)
    requires Curve(charge, cumu) && 0.0 < r <= 1.0
    ensures var i, q := Segment(cumu, r, 1), Picked(charge, cumu, r);
            && charge[i - 1] < q <= charge[i]
            && CumulativeAt(charge, cumu, i, q) == r
  {
    var i := Segment(cumu, r, 1);
    Inverse(cumu[i - 1], charge[i - 1], cumu[i], charge[i], r);
  }

  /** Every charge in a segment where the cumulative rises is picked for its cumulative. */
  lemma EveryChargePicked(charge: seq<real>, cumu: seq<real>, i: nat, q: real)
    requires Curve(charge, cumu) && 0 < i < |charge| && charge[i - 1] < q <= charge[i] && cumu[i - 1] < cumu[i]
    ensures 0.0 < CumulativeAt(charge, cumu, i, q) <= 1.0
    ensures Picked(charge, cumu, CumulativeAt(charge, cumu, i, q)) == q
  {
    Inverse(charge[i - 1], cumu[i - 1], charge[i], cumu[i], q);
    var r := CumulativeAt(charge, cumu, i, q);
    assert cumu[0] <= cumu[i - 1] && cumu[i] <= cumu[|cumu| - 1];
    var k := Segment(cumu, r, 1);
    assert k <= i;
    if k < i {
      assert false;
    }
  }

  /** More is picked for more. */
  lemma PickedIncreases(charge: seq<real>, cumu: seq<real>, r: real, s: real)
    requires Curve(charge, cumu) && 0.0 < r < s <= 1.0
    ensures Picked(charge, cumu, r) < Picked(charge, cumu, s)
  {
    PickedInverts(charge, cumu, r);
    PickedInverts(charge, cumu, s);
    var i, k := Segment(cumu, r, 1), Segment(cumu, s, 1);
    if i == k {
      SameLine(charge, cumu, i, Picked(charge, cumu, r), Picked(charge, cumu, s));
    } else if i < k {
      assert charge[i] <= charge[k - 1];
    }
  }

  lemma SameLine(charge: seq<real>, cumu: seq<real>, i: nat, p: real, q: real)
    requires Curve(charge, cumu) && 0 < i < |charge|
    requires CumulativeAt(charge, cumu, i, p) < CumulativeAt(charge, cumu, i, q)
    ensures p < q
  {
  }

  // ------------------------------------------------------------------- the class

  class PDFPMTCharge {
    const fCharge: array<real>
    const fChargeProb: array<real>
    const fChargeProbCumu: array<real>
    ghost const given: seq<real>

    /** The arrays hold the normalised density and its cumulative. */
    ghost predicate Valid()
      reads this, fCharge, fChargeProb, fChargeProbCumu
    {
      && Normalised(fCharge[..], given, fChargeProbCumu[..])
      && fChargeProb.Length == |given|
      && forall i :: 0 <= i < |given| ==>
           fChargeProb[i] == given[i] / Integral(fCharge[..], given, |given| - 1)
    }

    constructor (charge: seq<real>, prob: seq<real>)
      requires 2 <= |charge| == |prob| && Integral(charge, prob, |charge| - 1) != 0.0
      ensures Valid() && fCharge[..] == charge && given == prob
      ensures Density(charge, prob) ==> Curve(fCharge[..], fChargeProbCumu[..])
    {
      var n := |charge|;
      fCharge := new real[n](i requires 0 <= i < n => charge[i]);
      fChargeProb := new real[n](i requires 0 <= i < n => prob[i]);
      fChargeProbCumu := new real[n](_ => 0.0);
      given := prob;
      new;
      assert fCharge[..] == charge && fChargeProb[..] == prob;
      Integrate(charge, prob);
      if Density(charge, prob) {
        DensityCurve(charge, prob, fChargeProbCumu[..]);
      }
    }

    /** Trapezoid integration, and division by the whole integral. */
    method Integrate(ghost charge: seq<real>, ghost prob: seq<real>)
      requires 2 <= |charge| == |prob| && Integral(charge, prob, |charge| - 1) != 0.0
      requires fCharge[..] == charge && fChargeProb[..] == prob && fChargeProbCumu.Length == |prob| && given == prob
      requires fCharge != fChargeProb && fChargeProb != fChargeProbCumu && fChargeProbCumu != fCharge
      modifies fChargeProb, fChargeProbCumu
      ensures Valid()
    {
      hide Integral, Area;
      var integral := 0.0;
      var i := 0;
      NoArea(charge, prob);
      fChargeProbCumu[0] := 0.0;
      while i < fCharge.Length - 1
        invariant 0 <= i <= |charge| - 1 && integral == Integral(charge, prob, i)
        invariant fCharge[..] == charge && fChargeProb[..] == prob
        invariant forall j :: 0 <= j <= i ==> fChargeProbCumu[j] == Integral(charge, prob, j)
        modifies fChargeProbCumu
      {
        var q0, q1, p0, p1 := fCharge[i], fCharge[i + 1], fChargeProb[i], fChargeProb[i + 1];
        MoreArea(charge, prob, i, q0, q1, p0, p1);
        integral := integral + (q1 - q0) * (p0 + p1) / 2.0;
        fChargeProbCumu[i + 1] := integral;
        i := i + 1;
      }
      Normalise(charge, prob, integral);
    }

    method Normalise(ghost charge: seq<real>, ghost prob: seq<real>, integral: real)
      requires 2 <= |charge| == |prob| && integral == Integral(charge, prob, |charge| - 1) != 0.0
      requires fCharge[..] == charge && fChargeProb[..] == prob && fChargeProbCumu.Length == |prob| && given == prob
      requires fCharge != fChargeProb && fChargeProb != fChargeProbCumu && fChargeProbCumu != fCharge
      requires forall j :: 0 <= j < |charge| ==> fChargeProbCumu[j] == Integral(charge, prob, j)
      modifies fChargeProb, fChargeProbCumu
      ensures Valid()
    {
      hide Integral, Area;
      var i := 0;
      while i < fCharge.Length
        invariant 0 <= i <= |charge| && fCharge[..] == charge
        invariant forall j :: i <= j < |charge| ==>
                    fChargeProb[j] == prob[j] && fChargeProbCumu[j] == Integral(charge, prob, j)
        invariant forall j :: 0 <= j < i ==> fChargeProb[j] == prob[j] / integral
        invariant forall j :: 0 <= j < i ==> fChargeProbCumu[j] == Integral(charge, prob, j) / integral
        modifies fChargeProb, fChargeProbCumu
      {
        fChargeProb[i] := fChargeProb[i] / integral;
        fChargeProbCumu[i] := fChargeProbCumu[i] / integral;
        i := i + 1;
      }
    }

    /** The charge for a random number. */
    method PickCharge(rval: real) returns (q: real)
      requires Curve(fCharge[..], fChargeProbCumu[..]) && 0.0 < rval <= 1.0
      ensures q == Picked(fCharge[..], fChargeProbCumu[..], rval)
      ensures fCharge[0] < q <= fCharge[fCharge.Length - 1]
    {
      hide Picked, Segment, Line;
      ghost var cs, us := fCharge[..], fChargeProbCumu[..];
      var i := 1;
      while i < fCharge.Length
        invariant 1 <= i <= fCharge.Length
        invariant forall j :: 0 <= j < i ==> fChargeProbCumu[j] < rval
      {
        if rval <= fChargeProbCumu[i] {
          PickedInverts(cs, us, rval);
          PickedIn(cs, us, rval, i);
          var x0, y0, x1, y1 := fChargeProbCumu[i - 1], fCharge[i - 1], fChargeProbCumu[i], fCharge[i];
          LineIs(x0, y0, x1, y1, rval);
          q := (rval - x0) * (y1 - y0) / (x1 - x0) + y0;
          return;
        }
        i := i + 1;
      }
      assert false;
    }
  }

  /** What the program makes of the points of a table; it ends if they do not match. */
  method Load(charge: seq<real>, prob: seq<real>) returns (r: Option<PDFPMTCharge>)
    requires 2 <= |charge| == |prob| ==> Integral(charge, prob, |charge| - 1) != 0.0
    ensures r.Some? <==> 2 <= |charge| == |prob|
    ensures r.Some? ==> fresh(r.value) && r.value.Valid() && r.value.fCharge[..] == charge && r.value.given == prob
  {
    if |charge| != |prob| {
      return None;
    }
    if |charge| < 2 {
      return None;
    }
    var model := new PDFPMTCharge(charge, prob);
    return Some(model);
  }

  // ------------------------------------------------------- what it amounts to

  /** The integral of a + b x between p and q. */
  function Below(a: real, b: real, p: real, q: real): real {
    a * (q - p) + b * (q * q - p * p) / 2.0
  }

  predicate Straight(charge: seq<real>, prob: seq<real>, a: real, b: real) {
    |charge| == |prob| && forall j :: 0 <= j < |charge| ==> prob[j] == a + b * charge[j]
  }

  /** Trapezoids are exact for a density on a straight line. */
  lemma {:induction false} StraightDensity(charge: seq<real>, prob: seq<real>, a: real, b: real, i: nat)
    requires Straight(charge, prob, a, b) && i < |charge|
    ensures Integral(charge, prob, i) == Below(a, b, charge[0], charge[i])
  {
    hide Straight, Area, Below;
    if i == 0 {
      Joined(charge[0], charge[0], charge[0], a, b);
    } else {
      StraightDensity(charge, prob, a, b, i - 1);
      AreaBelow(charge, prob, a, b, i - 1, charge[i]);
      Joined(charge[0], charge[i - 1], charge[i], a, b);
    }
  }

  lemma AreaBelow(charge: seq<real>, prob: seq<real>, a: real, b: real, i: nat, q: real)
    requires Straight(charge, prob, a, b) && i + 1 < |charge| && q == charge[i + 1]
    ensures Area(charge, prob, i) == Below(a, b, charge[i], q)
  {
    Trapezoid(charge[i], q, a, b);
  }

  lemma Joined(o: real, p: real, q: real, a: real, b: real)
    ensures Below(a, b, o, p) + Below(a, b, p, q) == Below(a, b, o, q) && Below(a, b, o, o) == 0.0
  {
    assert b * (p * p - o * o) + b * (q * q - p * p) == b * (q * q - o * o);
  }

  lemma Trapezoid(p: real, q: real, a: real, b: real)
    ensures (q - p) * ((a + b * p) + (a + b * q)) / 2.0 == a * (q - p) + b * (q * q - p * p) / 2.0
  {
    assert (q - p) * (b * (p + q)) == b * (q * q - p * p);
    assert (q - p) * (2.0 * a + b * (p + q)) == 2.0 * a * (q - p) + (q - p) * (b * (p + q));
  }

  /** A line goes through its points, and evenly between them. */
  lemma LineThrough(x0: real, y0: real, x1: real, y1: real, u: real)
    requires x0 != x1
    ensures Line(x0, y0, x1, y1, x0 + (x1 - x0) * u) == y0 + (y1 - y0) * u
  {
    var d, e := x1 - x0, y1 - y0;
    assert ((x0 + d * u) - x0) * e == (e * u) * d;
    QuotientIs((e * u) * d, d, e * u);
  }

  /** A tent of area 4: a quarter of it lies before its top. */
  lemma Tent()
    ensures var charge, prob, cumu := [0.0, 1.0, 3.0], [0.0, 2.0, 1.0], [0.0, 0.25, 1.0];
            && Normalised(charge, prob, cumu) && Curve(charge, cumu)
            && Picked(charge, cumu, 0.125) == 0.5 && Picked(charge, cumu, 0.625) == 2.0
  {
    var charge, prob, cumu := [0.0, 1.0, 3.0], [0.0, 2.0, 1.0], [0.0, 0.25, 1.0];
    assert Integral(charge, prob, 0) == 0.0 && Integral(charge, prob, 1) == 1.0 && Integral(charge, prob, 2) == 4.0;
    assert Curve(charge, cumu);
    PickedIn(charge, cumu, 0.125, 1);
    PickedIn(charge, cumu, 0.625, 2);
  }
}
