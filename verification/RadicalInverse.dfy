/**
 The radical inverse of a number: its digits mirrored at the point. Doubles are
 modelled as reals.
 */
module RadicalInverse {
  import opened Digits

  /** The digits of n behind the point, the last one first. */
  function Inverse(n: nat, b: nat): real
    requires b >= 2
  {
    if n == 0 then 0.0 else (Mod(n, b) as real + Inverse(Div(n, b), b)) / b as real
  }

  method RadicalInverse(n0: int, base: int) returns (val: real)
    requires base >= 2
    ensures val == if n0 > 0 then Inverse(n0, base) else 0.0
  {
    hide Inverse, Rest;
    val := 0.0;
    var invBase := 1.0 / base as real;
    var invBi := invBase;
    var n := n0;
    if n0 > 0 {
      RestAtFirst(n0, base);
    }
    while n > 0
      invariant n0 > 0 ==> n >= 0 && val + Rest(n, base, invBi) == Inverse(n0, base)
      invariant n0 <= 0 ==> n == n0 && val == 0.0
    {
      var d, v := n % base, invBi;
      RestStep(n, base, v, invBase);
      Shrinks(n, base);
      val := val + d as real * v;
      n := n / base;
      invBi := v * invBase;
    }
    RestAtLast(base, invBi);
  }

  /** What the digits of n add when the first of them counts v. */
  ghost function Rest(n: nat, b: nat, v: real): real
    requires b >= 2
  {
    Inverse(n, b) * (b as real * v)
  }

  lemma RestAtFirst(n: nat, b: nat)
    requires b >= 2
    ensures Rest(n, b, 1.0 / b as real) == Inverse(n, b)
  {
  }

  lemma RestAtLast(b: nat, v: real)
    requires b >= 2
    ensures Rest(0, b, v) == 0.0
  {
  }

  lemma RestStep(n: nat, b: nat, v: real, inv: real)
    requires b >= 2 && n > 0 && inv == 1.0 / b as real
    ensures Rest(n, b, v) == (n % b) as real * v + Rest(n / b, b, v * inv)
  {
  }

  // ------------------------------------------------------------ mirrored digits

  /** The last k digits of n in the other order. */
  function Mirror(n: nat, b: nat, k: nat): nat
    requires b >= 2
    decreases k
  {
    if k == 0 then 0 else Behind(Mod(n, b), Mirror(Div(n, b), b, k - 1), b, k - 1)
  }

  lemma {:induction false} MirrorBound(n: nat, b: nat, k: nat)
    requires b >= 2
    ensures Mirror(n, b, k) < Pow(b, k)
    decreases k
  {
    if k > 0 {
      MirrorBound(Div(n, b), b, k - 1);
      Commute(b, Pow(b, k - 1));
      Below(Mod(n, b), Mirror(Div(n, b), b, k - 1), b, Pow(b, k - 1));
    }
  }

  lemma BehindAppend(v: nat, m: nat, b: nat, k: nat, d: nat)
    requires b > 0
    ensures m * b >= 0 && Behind(v, m * b + d, b, k + 1) == Behind(v, m, b, k) * b + d
  {
  }

  lemma MirrorNext(n: nat, b: nat, k: nat)
    requires b >= 2
    ensures Mirror(n, b, k + 1) == Behind(Mod(n, b), Mirror(Div(n, b), b, k), b, k)
    ensures Mirror(n, b, 0) == 0
  {
  }

  /** A digit more in front is a digit more behind. */
  lemma {:induction false} MirrorFront(n: nat, d: nat, b: nat, k: nat)
    requires b >= 2 && n < Pow(b, k) && d < b
    ensures Mirror(n, b, k) * b >= 0
    ensures Mirror(Behind(d, n, b, k), b, k + 1) == Mirror(n, b, k) * b + d
    decreases k
  {
    hide Mirror, Behind, Pow, Div, Mod;
    MulNonNegative(Mirror(n, b, k), b);
    var x := Behind(d, n, b, k);
    MirrorNext(x, b, k);
    MirrorNext(n, b, 0);
    if k == 0 {
      BehindNone(d, b);
      BehindNone(Mod(d, b), b);
      MirrorNext(Div(x, b), b, 0);
      SmallDigit(d, b);
    } else {
      BehindStep(d, n, b, k - 1);
      MirrorFront(Div(n, b), d, b, k - 1);
      MirrorNext(n, b, k - 1);
      BehindAppend(Mod(n, b), Mirror(Div(n, b), b, k - 1), b, k - 1, d);
    }
  }

  lemma SmallDigit(d: nat, b: nat)
    requires b >= 2 && d < b
    ensures Div(d, b) == 0 && Mod(d, b) == d
  {
    DivIs(d, b, 0, d);
  }

  lemma Halves(n: nat, b: nat, k: nat)
    requires b >= 2 && n < Pow(b, k + 1)
    ensures Div(n, b) < Pow(b, k) && n == (Div(n, b)) * b + Mod(n, b) && Mod(n, b) < b
  {
    Quotient(n, b);
    Below(Div(n, b), Mod(n, b), Pow(b, k), b);
  }

  /** Mirrored twice, a number is itself. */
  lemma {:induction false} MirrorTwice(n: nat, b: nat, k: nat)
    requires b >= 2 && n < Pow(b, k)
    ensures Mirror(Mirror(n, b, k), b, k) == n
    decreases k
  {
    if k > 0 {
      hide Mirror, Behind, Pow, Div, Mod;
      Halves(n, b, k - 1);
      MirrorTwice(Div(n, b), b, k - 1);
      MirrorBound(Div(n, b), b, k - 1);
      MirrorNext(n, b, k - 1);
      MirrorFront(Mirror(Div(n, b), b, k - 1), Mod(n, b), b, k - 1);
    }
  }

  ghost function Fraction(m: nat, b: nat, k: nat): real
    requires b >= 2
  {
    m as real / Pow(b, k) as real
  }

  lemma FractionStep(d: nat, m: nat, b: nat, k: nat)
    requires b >= 2
    ensures Fraction(Behind(d, m, b, k), b, k + 1) == (d as real + Fraction(m, b, k)) / b as real
  {
  }

  /** The radical inverse as a fraction. */
  lemma {:induction false} InverseIsMirror(n: nat, b: nat, k: nat)
    requires b >= 2 && n < Pow(b, k)
    ensures Inverse(n, b) == Fraction(Mirror(n, b, k), b, k)
    decreases k
  {
    hide Mirror, Behind, Fraction, Inverse, Pow, Div, Mod;
    if k > 0 {
      Halves(n, b, k - 1);
      InverseIsMirror(Div(n, b), b, k - 1);
      MirrorNext(n, b, k - 1);
      FractionStep(Mod(n, b), Mirror(Div(n, b), b, k - 1), b, k - 1);
      InverseStep(n, b);
    } else {
      NothingInverse(n, b);
    }
  }

  lemma NothingInverse(n: nat, b: nat)
    requires b >= 2 && n < Pow(b, 0)
    ensures Inverse(n, b) == 0.0 == Fraction(Mirror(n, b, 0), b, 0)
  {
  }

  lemma InverseStep(n: nat, b: nat)
    requires b >= 2
    ensures Inverse(n, b) == ((Mod(n, b)) as real + Inverse(Div(n, b), b)) / b as real
  {
    hide Div, Mod;
    if n == 0 {
      SmallDigit(0, b);
      assert Inverse(0, b) == 0.0;
    }
  }

  // ----------------------------------------------------- the values it takes

  lemma {:induction false} PowAbove(n: nat, b: nat)
    requires b >= 2
    ensures n < Pow(b, n)
  {
    if n > 0 {
      PowAbove(n - 1, b);
      var p := Pow(b, n - 1);
      MulNonNegative(p, b - 2);
      Commute(p, b - 2);
      Distribute(b - 2, 2, p);
      Commute(p, b);
    }
  }

  lemma FractionSame(i: nat, j: nat, b: nat, k: nat)
    requires b >= 2 && Fraction(i, b, k) == Fraction(j, b, k)
    ensures i == j
  {
  }

  lemma FractionBelowOne(m: nat, b: nat, k: nat)
    requires b >= 2 && m < Pow(b, k)
    ensures 0.0 <= Fraction(m, b, k) < 1.0
  {
  }

  /** Among the numbers below b^k, the fraction j / b^k is the radical inverse of exactly one. */
  lemma HitOnce(j: nat, b: nat, k: nat) returns (n: nat)
    requires b >= 2 && j < Pow(b, k)
    ensures n < Pow(b, k) && Inverse(n, b) == Fraction(j, b, k)
    ensures forall m: nat :: m < Pow(b, k) && Inverse(m, b) == Fraction(j, b, k) ==> m == n
  {
    hide Mirror, Inverse, Fraction, Pow;
    n := Mirror(j, b, k);
    MirrorBound(j, b, k);
    MirrorTwice(j, b, k);
    InverseIsMirror(n, b, k);
    forall m: nat | m < Pow(b, k) && Inverse(m, b) == Fraction(j, b, k)
      ensures m == n
    {
      InverseIsMirror(m, b, k);
      FractionSame(Mirror(m, b, k), j, b, k);
      MirrorTwice(m, b, k);
    }
  }

  /** And every number below b^k has such a fraction. */
  lemma OnTheGrid(n: nat, b: nat, k: nat) returns (j: nat)
    requires b >= 2 && n < Pow(b, k)
    ensures j < Pow(b, k) && Inverse(n, b) == Fraction(j, b, k)
  {
    j := Mirror(n, b, k);
    MirrorBound(n, b, k);
    InverseIsMirror(n, b, k);
  }

  lemma UnitInterval(n: nat, b: nat)
    requires b >= 2
    ensures 0.0 <= Inverse(n, b) < 1.0
  {
    PowAbove(n, b);
    var j := OnTheGrid(n, b, n);
    FractionBelowOne(j, b, n);
  }

  /** Different numbers have different radical inverses. */
  lemma Injective(m: nat, n: nat, b: nat)
    requires b >= 2 && Inverse(m, b) == Inverse(n, b)
    ensures m == n
  {
    hide Mirror, Inverse, Fraction, Pow;
    var k := if m < n then n else m;
    PowAbove(k, b);
    InverseIsMirror(m, b, k);
    InverseIsMirror(n, b, k);
    FractionSame(Mirror(m, b, k), Mirror(n, b, k), b, k);
    MirrorTwice(m, b, k);
    MirrorTwice(n, b, k);
  }

  // ------------------------------------------------------- what it amounts to

  /** Digit i of n, counted from the last. */
  function DigitAt(n: nat, b: nat, i: nat): nat
    requires b >= 2
  {
    (n / Pow(b, i)) % b
  }

  /** Digit i behind the point counts b^-(i + 1). */
  ghost function Mirrored(n: nat, b: nat, k: nat): real
    requires b >= 2
  {
    if k == 0 then 0.0 else Mirrored(n, b, k - 1) + DigitAt(n, b, k - 1) as real / Pow(b, k) as real
  }

  lemma DigitShifts(n: nat, b: nat, i: nat)
    requires b >= 2
    ensures DigitAt(n, b, i + 1) == DigitAt(Div(n, b), b, i) && DigitAt(n, b, 0) == Mod(n, b)
  {
    DivDiv(n, b, Pow(b, i));
    Commute(b, Pow(b, i));
    assert Pow(b, 0) == 1;
  }

  lemma PowReal(b: nat, k: nat)
    requires b >= 2
    ensures Pow(b, k + 1) as real == Pow(b, k) as real * b as real
  {
  }

  lemma MirroredNext(n: nat, b: nat, k: nat)
    requires b >= 2
    ensures Mirrored(n, b, 0) == 0.0
    ensures Mirrored(n, b, k + 1) == Mirrored(n, b, k) + DigitAt(n, b, k) as real / Pow(b, k + 1) as real
  {
    hide Pow, DigitAt;
  }

  /** What is behind the point moves on by one digit. */
  lemma Moved(m: real, rest: real, d: real, p: real, b: real, q: real, x: real, y: real)
    requires p > 0.0 && b > 0.0 && q == p * b
    requires x == (m + rest) / b && y == rest + d / p
    ensures x + d / q == (m + y) / b
  {
    Sum(m + rest, d / p, b);
    Thinner(d, p, b);
  }

  lemma FirstMoved(d: real, p: real, q: real, b: real, x: real, y: real)
    requires b > 0.0 && p == 1.0 && q == p * b && x == 0.0 && y == 0.0
    ensures x + d / q == (d + y) / b
  {
  }

  lemma Thinner(d: real, p: real, b: real)
    requires p > 0.0 && b > 0.0
    ensures d / (p * b) == (d / p) / b
  {
  }

  lemma {:induction false} MirroredShifts(n: nat, b: nat, k: nat)
    requires b >= 2
    ensures Mirrored(n, b, k + 1) == (Mod(n, b) as real + Mirrored(Div(n, b), b, k)) / b as real
  {
    hide *;
    var m, q := Mod(n, b) as real, Div(n, b);
    var p, next := Pow(b, k) as real, Pow(b, k + 1) as real;
    var x, y := Mirrored(n, b, k), Mirrored(q, b, k);
    MirroredNext(n, b, k);
    PowNone(b);
    PowReal(b, k);
    if k == 0 {
      DigitShifts(n, b, 0);
      MirroredNext(q, b, 0);
      FirstMoved(m, p, next, b as real, x, y);
    } else {
      MirroredShifts(n, b, k - 1);
      DigitShifts(n, b, k - 1);
      MirroredNext(q, b, k - 1);
      Moved(m, Mirrored(q, b, k - 1), DigitAt(q, b, k - 1) as real, p, b as real, next, x, y);
    }
  }

  lemma PowNone(b: nat)
    requires b > 0
    ensures Pow(b, 0) == 1
  {
  }

  lemma Sum(x: real, y: real, b: real)
    requires b != 0.0
    ensures x / b + y / b == (x + y) / b
  {
  }

  /** The radical inverse is the sum of the mirrored digits. */
  lemma {:induction false} InverseIsSum(n: nat, b: nat, k: nat)
    requires b >= 2 && n < Pow(b, k)
    ensures Inverse(n, b) == Mirrored(n, b, k)
    decreases k
  {
    hide Inverse, Mod, Div, Pow, DigitAt;
    if k == 0 {
      PowNone(b);
      NothingInverse(n, b);
    } else {
      Halves(n, b, k - 1);
      InverseIsSum(Div(n, b), b, k - 1);
      InverseStep(n, b);
      MirroredShifts(n, b, k - 1);
    }
  }

  /** Six is 110 in binary, and its inverse 0.011. */
  lemma SixMirrored()
    ensures Inverse(6, 2) == 0.375
  {
    assert Div(6, 2) == 3 && Mod(6, 2) == 0 && Div(3, 2) == 1 && Mod(3, 2) == 1 && Div(1, 2) == 0 && Mod(1, 2) == 1;
    hide Div, Mod;
    assert Inverse(0, 2) == 0.0;
    assert Inverse(1, 2) == 0.5;
    assert Inverse(3, 2) == 0.75;
  }
}
