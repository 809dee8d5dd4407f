/**
 Mean and RMS of weighted points from three running moments. Doubles are modelled
 as reals; the square root is a parameter.
 */
module Centroid {
  import opened Sequences

  datatype Vector3 = Vector3(x: real, y: real, z: real)

  datatype Weighted = Weighted(point: Vector3, weight: real)

  // ------------------------------------------------- one coordinate of the points

  datatype Sample = Sample(x: real, w: real)

  datatype Axis = X | Y | Z

  function Coordinate(v: Vector3, a: Axis): real {
    match a case X => v.x case Y => v.y case Z => v.z
  }

  function Along(ps: seq<Weighted>, a: Axis): seq<Sample> {
    seq(|ps|, i requires 0 <= i < |ps| => Sample(Coordinate(ps[i].point, a), ps[i].weight))
  }

  /** The sum of the weighted k-th powers, for k = 0, 1, 2. */
  function Moment(s: seq<Sample>, k: nat): real
    requires k <= 2
  {
    if s == [] then 0.0 else Term(s[0], k) + Moment(s[1..], k)
  }

  function Term(p: Sample, k: nat): real
    requires k <= 2
  {
    if k == 0 then p.w else if k == 1 then p.w * p.x else p.w * (p.x * p.x)
  }

  /** The sum of the weighted squared distances from x0. */
  function Scatter(s: seq<Sample>, x0: real): real {
    if s == [] then 0.0 else Share(s[0], x0) + Scatter(s[1..], x0)
  }

  /** A weighted squared distance. */
  function Share(p: Sample, x0: real): real {
    p.w * ((p.x - x0) * (p.x - x0))
  }

  predicate NonNegative(s: seq<Sample>) {
    forall i :: 0 <= i < |s| ==> s[i].w >= 0.0
  }

  lemma Product(w: real, x: real)
    requires w >= 0.0 && x >= 0.0
    ensures w * x >= 0.0
  {
  }

  lemma {:induction false} MomentConcat(s: seq<Sample>, t: seq<Sample>, k: nat)
    requires k <= 2
    ensures Moment(s + t, k) == Moment(s, k) + Moment(t, k)
  {
    if s == [] {
      assert s + t == t;
    } else {
      MomentConcat(s[1..], t, k);
      assert (s + t)[1..] == s[1..] + t;
    }
  }

  lemma MomentWithout(s: seq<Sample>, j: nat, k: nat)
    requires k <= 2 && j < |s|
    ensures Moment(s, k) == Moment([s[j]], k) + Moment(Without(s, j), k)
  {
    hide Moment;
    assert s == s[..j] + ([s[j]] + s[j + 1..]);
    MomentConcat(s[..j], [s[j]] + s[j + 1..], k);
    MomentConcat([s[j]], s[j + 1..], k);
    MomentConcat(s[..j], s[j + 1..], k);
  }

  /** The moments do not depend on the order of the points. */
  lemma {:induction false} MomentOfMultiset(s: seq<Sample>, t: seq<Sample>, k: nat)
    requires k <= 2 && multiset(s) == multiset(t)
    ensures Moment(s, k) == Moment(t, k)
    decreases |s|
  {
    if s == [] {
      assert |multiset(t)| == 0;
    } else {
      hide Moment;
      assert s[0] in multiset(t);
      var j: nat :| j < |t| && t[j] == s[0];
      MomentWithout(s, 0, k);
      MomentWithout(t, j, k);
      MultisetWithout(s, 0);
      MultisetWithout(t, j);
      MomentOfMultiset(Without(s, 0), Without(t, j), k);
    }
  }

  /** The scatter around x0, of moments. */
  function Mix(m0: real, m1: real, m2: real, x0: real): real {
    m2 - 2.0 * (x0 * m1) + x0 * x0 * m0
  }

  lemma MixSum(m0: real, m1: real, m2: real, n0: real, n1: real, n2: real, x0: real)
    ensures Mix(m0 + n0, m1 + n1, m2 + n2, x0) == Mix(m0, m1, m2, x0) + Mix(n0, n1, n2, x0)
  {
    assert x0 * (m1 + n1) == x0 * m1 + x0 * n1;
    assert x0 * x0 * (m0 + n0) == x0 * x0 * m0 + x0 * x0 * n0;
  }

  lemma MixOne(p: Sample, x0: real)
    ensures Mix(Term(p, 0), Term(p, 1), Term(p, 2), x0) == Share(p, x0)
  {
    var w, x := p.w, p.x;
    assert (x - x0) * (x - x0) == x * x - 2.0 * (x0 * x) + x0 * x0;
    assert w * (x * x - 2.0 * (x0 * x) + x0 * x0) == w * (x * x) - 2.0 * (w * (x0 * x)) + w * (x0 * x0);
    assert x0 * (w * x) == w * (x0 * x) && x0 * x0 * w == w * (x0 * x0);
  }

  /** The scatter around any point is a combination of the moments. */
  lemma {:induction false} ScatterIs(s: seq<Sample>, x0: real)
    ensures Scatter(s, x0) == Mix(Moment(s, 0), Moment(s, 1), Moment(s, 2), x0)
  {
    if s != [] {
      hide Mix, Share, Term;
      ScatterIs(s[1..], x0);
      var p := s[0];
      MixOne(p, x0);
      MixSum(Term(p, 0), Term(p, 1), Term(p, 2), Moment(s[1..], 0), Moment(s[1..], 1), Moment(s[1..], 2), x0);
    } else {
      assert Mix(0.0, 0.0, 0.0, x0) == 0.0;
    }
  }

  lemma {:induction false} ScatterNonNegative(s: seq<Sample>, x0: real)
    requires NonNegative(s)
    ensures Scatter(s, x0) >= 0.0
    ensures Scatter(s, x0) == 0.0 <==> forall i :: 0 <= i < |s| && s[i].w > 0.0 ==> s[i].x == x0
  {
    hide Share;
    if s != [] {
      ScatterNonNegative(s[1..], x0);
      ShareNonNegative(s[0], x0);
      assert forall i :: 1 <= i < |s| ==> s[i] == s[1..][i - 1];
      assert forall i :: 0 <= i < |s[1..]| ==> s[1..][i] == s[i + 1];
    }
  }

  lemma ShareNonNegative(p: Sample, x0: real)
    requires p.w >= 0.0
    ensures Share(p, x0) >= 0.0 && (Share(p, x0) == 0.0 <==> p.w == 0.0 || p.x == x0)
  {
    var d := p.x - x0;
    Positive(p.w, d, d * d, Share(p, x0));
  }

  lemma Positive(w: real, d: real, q: real, p: real)
    requires w >= 0.0 && q == d * d && p == w * q
    ensures p >= 0.0 && (p == 0.0 <==> w == 0.0 || d == 0.0)
  {
    SameSigns(d, d, q);
    SameSigns(w, q, p);
  }

  lemma SameSigns(x: real, y: real, p: real)
    requires p == x * y
    ensures (x > 0.0 && y > 0.0) || (x < 0.0 && y < 0.0) ==> p > 0.0
    ensures x == 0.0 || y == 0.0 ==> p == 0.0
  {
  }

  lemma StrictProduct(w: real, x: real)
    requires w > 0.0
    ensures x > 0.0 ==> w * x > 0.0
    ensures x < 0.0 ==> w * x < 0.0
  {
  }

  /** Without weight there is nothing. */
  lemma {:induction false} Weightless(s: seq<Sample>)
    requires NonNegative(s)
    ensures Moment(s, 0) >= 0.0
    ensures Moment(s, 0) == 0.0 ==> Moment(s, 1) == 0.0 && Moment(s, 2) == 0.0
    ensures Moment(s, 0) == 0.0 <==> forall i :: 0 <= i < |s| ==> s[i].w == 0.0
  {
    if s != [] {
      Weightless(s[1..]);
      assert forall i :: 1 <= i < |s| ==> s[i] == s[1..][i - 1];
      assert forall i :: 0 <= i < |s[1..]| ==> s[1..][i] == s[i + 1];
    }
  }

  function Mean(s: seq<Sample>): real
    requires Moment(s, 0) != 0.0
  {
    Moment(s, 1) * (1.0 / Moment(s, 0))
  }

  function Discriminant(s: seq<Sample>): real {
    Moment(s, 0) * Moment(s, 2) - Moment(s, 1) * Moment(s, 1)
  }

  lemma Undivide(m0: real, m1: real)
    requires m0 != 0.0
    ensures (m1 * (1.0 / m0)) * m0 == m1
  {
  }

  lemma AroundMean(m0: real, m1: real, m2: real, c: real)
    requires c * m0 == m1
    ensures m0 * m2 - m1 * m1 == m0 * Mix(m0, m1, m2, c)
  {
    assert c * c * m0 == c * m1 by { assert c * c * m0 == c * (c * m0); }
    assert m0 * (m2 - c * m1) == m0 * m2 - (c * m0) * m1;
  }

  /** What is under the root is the total weight times the scatter around the mean. */
  lemma DiscriminantIs(s: seq<Sample>)
    requires Moment(s, 0) > 0.0
    ensures Discriminant(s) == Moment(s, 0) * Scatter(s, Mean(s))
  {
    hide Moment, Scatter;
    Undivide(Moment(s, 0), Moment(s, 1));
    AroundMean(Moment(s, 0), Moment(s, 1), Moment(s, 2), Mean(s));
    ScatterIs(s, Mean(s));
  }

  /** What is under the root is never negative, and 0 only if all points with weight agree. */
  lemma RootDefined(s: seq<Sample>)
    requires NonNegative(s)
    ensures Discriminant(s) >= 0.0
    ensures Discriminant(s) == 0.0 <==> Agree(s)
  {
    hide Moment, Scatter, Mean;
    Weightless(s);
    if Moment(s, 0) > 0.0 {
      DiscriminantIs(s);
      ScatterNonNegative(s, Mean(s));
      Product(Moment(s, 0), Scatter(s, Mean(s)));
      StrictProduct(Moment(s, 0), Scatter(s, Mean(s)));
      if Agree(s) {
        var k: nat :| k < |s| && s[k].w != 0.0;
        MeanInside(s, s[k].x, s[k].x);
      }
    }
  }

  /** All points with weight are at one place. */
  predicate Agree(s: seq<Sample>) {
    forall i, j :: 0 <= i < |s| && 0 <= j < |s| && s[i].w > 0.0 && s[j].w > 0.0 ==> s[i].x == s[j].x
  }

  lemma {:induction false} MomentBounds(s: seq<Sample>, lo: real, hi: real)
    requires NonNegative(s) && Within(s, lo, hi)
    ensures lo * Moment(s, 0) <= Moment(s, 1) <= hi * Moment(s, 0)
  {
    if s != [] {
      MomentBounds(s[1..], lo, hi);
      var w, x, m := s[0].w, s[0].x, Moment(s[1..], 0);
      if w > 0.0 {
        Product(w, x - lo);
        Product(w, hi - x);
        assert w * (x - lo) == w * x - lo * w && w * (hi - x) == hi * w - w * x;
      }
      assert lo * (w + m) == lo * w + lo * m && hi * (w + m) == hi * w + hi * m;
    }
  }

  /** The mean lies between the bounds of the points that have weight. */
  lemma MeanInside(s: seq<Sample>, lo: real, hi: real)
    requires NonNegative(s) && Moment(s, 0) > 0.0 && Within(s, lo, hi)
    ensures lo <= Mean(s) <= hi
  {
    hide Moment;
    MomentBounds(s, lo, hi);
    Undivide(Moment(s, 0), Moment(s, 1));
    Between(Mean(s), Moment(s, 0), lo, hi);
  }

  lemma Between(c: real, m: real, lo: real, hi: real)
    requires m > 0.0 && lo * m <= c * m <= hi * m
    ensures lo <= c <= hi
  {
  }

  predicate Within(s: seq<Sample>, lo: real, hi: real) {
    forall i :: 0 <= i < |s| && s[i].w > 0.0 ==> lo <= s[i].x <= hi
  }

  // ---------------------------------------------------------------- the accumulator

  function Plus(u: Vector3, v: Vector3): Vector3 {
    Vector3(u.x + v.x, u.y + v.y, u.z + v.z)
  }

  function Times(c: real, v: Vector3): Vector3 {
    Vector3(c * v.x, c * v.y, c * v.z)
  }

  function SquareOf(v: Vector3): Vector3 {
    Vector3(v.x * v.x, v.y * v.y, v.z * v.z)
  }

  /** What a point adds to a moment. */
  function Powered(p: Weighted, a: Axis, k: nat): real
    requires k <= 2
  {
    Term(Sample(Coordinate(p.point, a), p.weight), k)
  }

  lemma FillMoment(ps: seq<Weighted>, p: Weighted, a: Axis, k: nat)
    requires k <= 2
    ensures Moment(Along(ps + [p], a), k) == Moment(Along(ps, a), k) + Powered(p, a, k)
  {
    assert Along(ps + [p], a) == Along(ps, a) + Along([p], a);
    assert Along([p], a) == [Sample(Coordinate(p.point, a), p.weight)];
    assert Along([p], a)[1..] == [];
    MomentConcat(Along(ps, a), Along([p], a), k);
  }

  lemma FillMoments(ps: seq<Weighted>, p: Weighted, a: Axis)
    ensures Moment(Along(ps + [p], a), 0) == Moment(Along(ps, a), 0) + p.weight
    ensures Moment(Along(ps + [p], a), 1) == Moment(Along(ps, a), 1) + Powered(p, a, 1)
    ensures Moment(Along(ps + [p], a), 2) == Moment(Along(ps, a), 2) + Powered(p, a, 2)
  {
    FillMoment(ps, p, a, 0);
    FillMoment(ps, p, a, 1);
    FillMoment(ps, p, a, 2);
  }

  lemma FillCoordinates(m1: Vector3, m2: Vector3, p: Weighted, a: Axis)
    ensures Coordinate(Plus(m1, Times(p.weight, p.point)), a) == Coordinate(m1, a) + Powered(p, a, 1)
    ensures Coordinate(Plus(m2, Times(p.weight, SquareOf(p.point))), a) == Coordinate(m2, a) + Powered(p, a, 2)
  {
  }

  lemma AddMoments(ps: seq<Weighted>, qs: seq<Weighted>, a: Axis)
    ensures forall k: nat :: k <= 2 ==>
              Moment(Along(ps + qs, a), k) == Moment(Along(ps, a), k) + Moment(Along(qs, a), k)
  {
    AlongConcat(ps, qs, a);
    forall k: nat | k <= 2
      ensures Moment(Along(ps + qs, a), k) == Moment(Along(ps, a), k) + Moment(Along(qs, a), k)
    {
      MomentConcat(Along(ps, a), Along(qs, a), k);
    }
  }

  lemma AddCoordinates(u: Vector3, v: Vector3, a: Axis)
    ensures Coordinate(Plus(u, v), a) == Coordinate(u, a) + Coordinate(v, a)
  {
  }

  class CentroidCalculator {
    var fMoment0: real
    var fMoment1: Vector3
    var fMoment2: Vector3
    ghost var points: seq<Weighted>

    /** The moments are those of the points. */
    ghost predicate Valid()
      reads this
    {
      forall a: Axis ::
        && fMoment0 == Moment(Along(points, a), 0)
        && Coordinate(fMoment1, a) == Moment(Along(points, a), 1)
        && Coordinate(fMoment2, a) == Moment(Along(points, a), 2)
    }

    constructor ()
      ensures Valid() && points == []
    {
      fMoment0, fMoment1, fMoment2, points := 0.0, Vector3(0.0, 0.0, 0.0), Vector3(0.0, 0.0, 0.0), [];
    }

    method Reset()
      modifies this
      ensures Valid() && points == []
    {
      fMoment0, fMoment1, fMoment2, points := 0.0, Vector3(0.0, 0.0, 0.0), Vector3(0.0, 0.0, 0.0), [];
    }

    method Fill(point: Vector3, weight: real)
      requires Valid()
      modifies this
      ensures Valid() && points == old(points) + [Weighted(point, weight)]
    {
      hide Moment, Plus, Times, SquareOf, Powered;
      ghost var before, p := points, Weighted(point, weight);
      ghost var m1, m2 := fMoment1, fMoment2;
      fMoment0 := fMoment0 + weight;
      fMoment1 := Plus(fMoment1, Times(weight, point));
      var square := SquareOf(point);
      fMoment2 := Plus(fMoment2, Times(weight, square));
      points := points + [p];
      forall a: Axis
        ensures fMoment0 == Moment(Along(points, a), 0) && Coordinate(fMoment1, a) == Moment(Along(points, a), 1)
                && Coordinate(fMoment2, a) == Moment(Along(points, a), 2)
      {
        FillMoments(before, p, a);
        FillCoordinates(m1, m2, p, a);
      }
    }

    /** As if the points of the other one had been filled in, too. */
    method Add(other: CentroidCalculator)
      requires Valid() && other.Valid()
      modifies this
      ensures Valid() && points == old(points) + old(other.points)
    {
      hide Moment, Plus;
      ghost var before, more := points, other.points;
      ghost var m1, m2, o1, o2 := fMoment1, fMoment2, other.fMoment1, other.fMoment2;
      fMoment0, fMoment1, fMoment2 :=
        fMoment0 + other.fMoment0, Plus(fMoment1, other.fMoment1), Plus(fMoment2, other.fMoment2);
      points := points + more;
      forall a: Axis
        ensures fMoment0 == Moment(Along(points, a), 0) && Coordinate(fMoment1, a) == Moment(Along(points, a), 1)
                && Coordinate(fMoment2, a) == Moment(Along(points, a), 2)
      {
        AddMoments(before, more, a);
        AddCoordinates(m1, o1, a);
        AddCoordinates(m2, o2, a);
      }
    }

    /** For weights that are not negative, the mean lies in every box around the points. */
    method GetMean() returns (mean: Vector3)
      requires Valid() && fMoment0 != 0.0
      ensures forall a: Axis ::
                Moment(Along(points, a), 0) != 0.0 && Coordinate(mean, a) == Mean(Along(points, a))
      ensures forall a: Axis, lo, hi ::
                NonNegative(Along(points, a)) && Within(Along(points, a), lo, hi) ==> lo <= Coordinate(mean, a) <= hi
    {
      hide Moment, NonNegative, Within;
      var c := 1.0 / fMoment0;
      mean := Vector3(fMoment1.x * c, fMoment1.y * c, fMoment1.z * c);
      forall a: Axis
        ensures Coordinate(mean, a) == Mean(Along(points, a))
      {
        assert Coordinate(mean, a) == Coordinate(fMoment1, a) * c;
      }
      forall a: Axis, lo, hi | NonNegative(Along(points, a)) && Within(Along(points, a), lo, hi)
        ensures lo <= Mean(Along(points, a)) <= hi
      {
        Weightless(Along(points, a));
        MeanInside(Along(points, a), lo, hi);
      }
    }

    /** The root is only taken of what has one; the result is the standard deviation. */
    method GetRMS(sqrt: real -> real) returns (rms: Vector3)
      requires Valid() && fMoment0 > 0.0
      requires forall i :: 0 <= i < |points| ==> points[i].weight >= 0.0
      requires IsRoot(sqrt)
      ensures forall a: Axis :: IsDeviation(Along(points, a), Coordinate(rms, a))
    {
      hide Moment, NonNegative, Discriminant, IsDeviation, IsRoot;
      var squareMoment1 := SquareOf(fMoment1);
      var temp := Plus(Times(fMoment0, fMoment2), Times(-1.0, squareMoment1));
      forall a: Axis
        ensures Coordinate(temp, a) == Discriminant(Along(points, a)) >= 0.0
      {
        DiscriminantOf(Along(points, a), fMoment0, fMoment1, fMoment2, a);
        WeightsAlong(points, a);
        RootDefined(Along(points, a));
      }
      assert Coordinate(temp, X) >= 0.0 && Coordinate(temp, Y) >= 0.0 && Coordinate(temp, Z) >= 0.0;
      var c := 1.0 / fMoment0;
      rms := Vector3(sqrt(temp.x) * c, sqrt(temp.y) * c, sqrt(temp.z) * c);
      forall a: Axis
        ensures IsDeviation(Along(points, a), Coordinate(rms, a))
      {
        assert Coordinate(rms, a) == sqrt(Coordinate(temp, a)) * c;
        RootAt(sqrt, Coordinate(temp, a));
        Deviation(Along(points, a), sqrt(Coordinate(temp, a)), Coordinate(rms, a));
      }
    }
  }

  /** What is asked of the square root. */
  ghost predicate IsRoot(sqrt: real -> real) {
    forall x :: x >= 0.0 ==> sqrt(x) >= 0.0 && sqrt(x) * sqrt(x) == x
  }

  lemma RootAt(sqrt: real -> real, x: real)
    requires IsRoot(sqrt) && x >= 0.0
    ensures sqrt(x) >= 0.0 && sqrt(x) * sqrt(x) == x
  {
  }

  lemma DiscriminantOf(s: seq<Sample>, m0: real, m1: Vector3, m2: Vector3, a: Axis)
    requires m0 == Moment(s, 0) && Coordinate(m1, a) == Moment(s, 1) && Coordinate(m2, a) == Moment(s, 2)
    ensures Coordinate(Plus(Times(m0, m2), Times(-1.0, SquareOf(m1))), a) == Discriminant(s)
  {
    hide Moment;
    var x := Coordinate(m1, a);
    assert Coordinate(SquareOf(m1), a) == x * x;
  }

  lemma WeightsAlong(ps: seq<Weighted>, a: Axis)
    requires forall i :: 0 <= i < |ps| ==> ps[i].weight >= 0.0
    ensures NonNegative(Along(ps, a))
  {
  }

  /** Not negative, and squared the mean squared distance from the mean. */
  ghost predicate IsDeviation(s: seq<Sample>, r: real) {
    && r >= 0.0
    && Moment(s, 0) > 0.0
    && r * r * Moment(s, 0) == Scatter(s, Mean(s))
  }

  lemma Deviation(s: seq<Sample>, root: real, r: real)
    requires Moment(s, 0) > 0.0 && root >= 0.0 && root * root == Discriminant(s)
    requires r == root * (1.0 / Moment(s, 0))
    ensures IsDeviation(s, r)
  {
    hide Moment, Scatter, Mean, Discriminant;
    DiscriminantIs(s);
    var m := Moment(s, 0);
    Undivide(m, root);
    Product(root, 1.0 / m);
    RootOf(root, root, m, Scatter(s, Mean(s)), r, r);
  }

  /** With r = a / m and s = b / m; a and b will be the same root. */
  lemma RootOf(a: real, b: real, m: real, d: real, r: real, s: real)
    requires m > 0.0 && a * b == m * d && r * m == a && s * m == b
    ensures r * s * m == d
  {
  }

  /** Accumulators that were given the same points, in any order and in any parts, hold the same. */
  lemma SamePoints(c: CentroidCalculator, d: CentroidCalculator)
    requires c.Valid() && d.Valid() && multiset(c.points) == multiset(d.points)
    ensures c.fMoment0 == d.fMoment0 && c.fMoment1 == d.fMoment1 && c.fMoment2 == d.fMoment2
  {
    forall a: Axis, k: nat | k <= 2
      ensures Moment(Along(c.points, a), k) == Moment(Along(d.points, a), k)
    {
      AlongMultiset(c.points, d.points, a);
      MomentOfMultiset(Along(c.points, a), Along(d.points, a), k);
    }
    assert Coordinate(c.fMoment1, X) == Coordinate(d.fMoment1, X);
    assert Coordinate(c.fMoment1, Y) == Coordinate(d.fMoment1, Y);
    assert Coordinate(c.fMoment1, Z) == Coordinate(d.fMoment1, Z);
    assert Coordinate(c.fMoment2, X) == Coordinate(d.fMoment2, X);
    assert Coordinate(c.fMoment2, Y) == Coordinate(d.fMoment2, Y);
    assert Coordinate(c.fMoment2, Z) == Coordinate(d.fMoment2, Z);
  }

  lemma {:induction false} AlongMultiset(ps: seq<Weighted>, qs: seq<Weighted>, a: Axis)
    requires multiset(ps) == multiset(qs)
    ensures multiset(Along(ps, a)) == multiset(Along(qs, a))
  {
    hide Along;
    if ps == [] {
      assert |multiset(qs)| == 0;
    } else {
      assert ps[0] in multiset(qs);
      var j: nat :| j < |qs| && qs[j] == ps[0];
      var rest := qs[..j] + qs[j + 1..];
      assert qs == qs[..j] + [qs[j]] + qs[j + 1..];
      assert ps == [] + [ps[0]] + ps[1..];
      SameRest(ps, qs, rest);
      AlongMultiset(ps[1..], rest, a);
      AlongWithout([], ps[0], ps[1..], a);
      AlongWithout(qs[..j], qs[j], qs[j + 1..], a);
    }
  }

  lemma SameRest(ps: seq<Weighted>, qs: seq<Weighted>, rest: seq<Weighted>)
    requires ps != [] && multiset(ps) == multiset(qs) && multiset(qs) == multiset(rest) + multiset{ps[0]}
    ensures multiset(ps[1..]) == multiset(rest)
  {
    assert ps == [ps[0]] + ps[1..];
    assert multiset(rest) == multiset(qs) - multiset{ps[0]};
    assert multiset(ps[1..]) == multiset(ps) - multiset{ps[0]};
  }

  lemma AlongConcat(ps: seq<Weighted>, qs: seq<Weighted>, a: Axis)
    ensures Along(ps + qs, a) == Along(ps, a) + Along(qs, a)
  {
  }

  lemma AlongWithout(front: seq<Weighted>, p: Weighted, back: seq<Weighted>, a: Axis)
    ensures [] + back == back
    ensures multiset(Along(front + [p] + back, a)) == multiset(Along(front + back, a)) + multiset(Along([p], a))
  {
    hide Along;
    AlongConcat(front + [p], back, a);
    AlongConcat(front, [p], a);
    AlongConcat(front, back, a);
  }

  // ------------------------------------------------------- what it amounts to

  /** The sum of the weighted distances from c, with their signs. */
  function Torque(s: seq<Sample>, c: real): real {
    if s == [] then 0.0 else s[0].w * (s[0].x - c) + Torque(s[1..], c)
  }

  lemma {:induction false} TorqueIs(s: seq<Sample>, c: real)
    ensures Torque(s, c) == Moment(s, 1) - c * Moment(s, 0)
  {
    if s != [] {
      TorqueIs(s[1..], c);
      var w, x, m := s[0].w, s[0].x, Moment(s[1..], 0);
      assert w * (x - c) == w * x - c * w && c * (w + m) == c * w + c * m;
    }
  }

  /** Around the mean the points are in balance. */
  lemma MeanBalances(s: seq<Sample>)
    requires Moment(s, 0) != 0.0
    ensures Torque(s, Mean(s)) == 0.0
  {
    hide Moment;
    TorqueIs(s, Mean(s));
    Undivide(Moment(s, 0), Moment(s, 1));
  }

  /** One at 0 and three at 4: the mean is 3 and the mean square deviation 3. */
  lemma FourPoints()
    ensures var s := [Sample(0.0, 1.0), Sample(4.0, 3.0)];
            Moment(s, 0) == 4.0 && Mean(s) == 3.0 && Scatter(s, 3.0) == 3.0 * Moment(s, 0)
  {
    var a, b := Sample(0.0, 1.0), Sample(4.0, 3.0);
    TwoSamples(a, b, 3.0);
    assert Term(a, 0) == 1.0 && Term(a, 1) == 0.0 && Term(b, 0) == 3.0 && Term(b, 1) == 12.0;
    assert Share(a, 3.0) == 9.0 && Share(b, 3.0) == 3.0;
    hide Moment, Scatter, Term, Share;
  }

  lemma TwoSamples(a: Sample, b: Sample, c: real)
    ensures Moment([a, b], 0) == Term(a, 0) + Term(b, 0) && Moment([a, b], 1) == Term(a, 1) + Term(b, 1)
    ensures Scatter([a, b], c) == Share(a, c) + Share(b, c)
  {
    hide Term, Share;
    assert [a, b][1..] == [b] && [b][1..] == [];
    assert Moment([], 0) == 0.0 == Moment([], 1) && Scatter([], c) == 0.0;
    assert Moment([b], 0) == Term(b, 0) && Moment([b], 1) == Term(b, 1) && Scatter([b], c) == Share(b, c);
  }
}
