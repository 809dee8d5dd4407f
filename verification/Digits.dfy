/**
 Positional notation: strings of digits in a radix from 2 to 36 and their numbers.
 */
module Digits {
  // -------------------------------------------------------------- arithmetic

  function Pow(b: nat, n: nat): (p: nat)
    requires b > 0
    ensures p > 0
  {
    if n == 0 then 1 else (assert Pow(b, n - 1) * b > 0 by { Positive(Pow(b, n - 1), b); } Pow(b, n - 1) * b)
  }

  lemma Positive(x: nat, y: nat)
    requires x > 0 && y > 0
    ensures x * y > 0
  {
  }

  lemma {:induction false} PowAdd(b: nat, m: nat, n: nat)
    requires b > 0
    ensures Pow(b, m + n) == Pow(b, m) * Pow(b, n)
  {
    if n > 0 {
      PowAdd(b, m, n - 1);
      MulAssoc(Pow(b, m), Pow(b, n - 1), b);
    }
  }

  lemma {:induction false} PowMul(b: nat, k: nat, n: nat)
    requires b > 0
    ensures Pow(Pow(b, k), n) == Pow(b, k * n)
  {
    if n > 0 {
      PowMul(b, k, n - 1);
      assert k * n == k * (n - 1) + k;
      PowAdd(b, k * (n - 1), k);
    } else {
      assert k * n == 0;
    }
  }

  lemma {:induction false} PowMonotone(b: nat, m: nat, n: nat)
    requires b > 0 && m <= n
    ensures Pow(b, m) <= Pow(b, n)
  {
    if m < n {
      PowMonotone(b, m, n - 1);
      Grows(Pow(b, n - 1), b);
    }
  }

  lemma Grows(x: nat, b: nat)
    requires b > 0
    ensures x <= x * b
  {
  }

  lemma MulNonNegative(x: nat, y: nat)
    ensures x * y >= 0
  {
  }

  lemma MulAssoc(x: int, y: int, z: int)
    ensures x * y * z == x * (y * z)
  {
  }

  /** Division by what it is. */
  lemma DivIs(x: int, d: int, q: int, r: int)
    requires d > 0 && x == q * d + r && 0 <= r < d
    ensures x / d == q && x % d == r
  {
    var q', r' := x / d, x % d;
    assert x == q' * d + r';
    assert (q - q') * d == r' - r;
    SmallMultiple(q - q', d);
  }

  lemma SmallMultiple(k: int, d: int)
    requires d > 0
    ensures -d < k * d < d ==> k == 0
  {
  }

  /** A number of b-sized pieces and a rest. */
  lemma Below(q: int, r: int, p: int, b: int)
    requires 0 <= r < b
    ensures q * b + r < p * b <==> q < p
  {
    if q < p {
      MulNonNegative(p - 1 - q, b);
      assert p * b - q * b == (p - 1 - q) * b + b;
    } else {
      MulNonNegative(q - p, b);
      assert q * b - p * b == (q - p) * b;
    }
  }

  lemma Quotient(x: int, d: int)
    requires d > 0
    ensures x == (x / d) * d + x % d && 0 <= x % d < d
  {
  }

  /** Dividing twice. */
  lemma DivDiv(x: nat, a: nat, b: nat)
    requires a > 0 && b > 0
    ensures a * b > 0 && (x / a) / b == x / (a * b)
    ensures (x / a) % b == (x % (a * b)) / a
  {
    Positive(a, b);
    var q, r := x / a, x % a;
    var q2, r2 := q / b, q % b;
    Quotient(x, a);
    Quotient(q, b);
    assert x == (q2 * b + r2) * a + r;
    assert (q2 * b + r2) * a == q2 * (a * b) + r2 * a by {
      Distribute(q2 * b, r2, a);
      MulAssoc(q2, b, a);
      Commute(a, b);
    }
    assert r2 * a + r < a * b by {
      assert r2 <= b - 1;
      MulNonNegative(b - 1 - r2, a);
      Distribute(b - 1, -r2, a);
      Distribute(b, -1, a);
      Commute(a, b);
    }
    MulNonNegative(r2, a);
    DivIs(x, a * b, q2, r2 * a + r);
    DivIs(r2 * a + r, a, r2, r);
  }

  lemma Commute(x: int, y: int)
    ensures x * y == y * x
  {
  }

  lemma Distribute(x: int, y: int, z: int)
    ensures (x + y) * z == x * z + y * z
  {
  }

  // Division under names of its own, for proofs about digits, which need not look into it

  function Div(x: nat, d: nat): (q: nat)
    requires d > 0
    ensures d >= 2 && x > 0 ==> q < x
  {
    Shrinks(x, d);
    x / d
  }

  function Mod(x: nat, d: nat): (r: nat)
    requires d > 0
    ensures r < d
  {
    x % d
  }

  lemma Shrinks(x: nat, d: nat)
    requires d > 0
    ensures x / d >= 0 && (d >= 2 && x > 0 ==> x / d < x)
  {
    Quotient(x, d);
    var q := x / d;
    Below(q, x % d, 0, d);
    if d >= 2 && q >= 0 {
      MulNonNegative(q, d - 2);
      Distribute(d - 2, 2, q);
      Commute(q, d);
      Commute(q, d - 2);
    }
  }

  // ------------------------------------------------------------------ digits

  predicate Radix(b: int) {
    2 <= b <= 36
  }

  function ToChar(d: nat): (c: char)
    requires d < 36
    ensures FromChar(c) == d && ('0' <= c <= '9' || 'a' <= c <= 'z')
  {
    if d < 10 then '0' + d as char else 'a' + (d - 10) as char
  }

  /** The value of a digit of either case, -1 for other characters. */
  function FromChar(c: char): (d: int)
    ensures -1 <= d < 36
  {
    if '0' <= c <= '9' then c as int - '0' as int
    else if 'a' <= c <= 'z' then c as int - 'a' as int + 10
    else if 'A' <= c <= 'Z' then c as int - 'A' as int + 10
    else -1
  }

  predicate AllDigits(s: string, b: nat) {
    forall i :: 0 <= i < |s| ==> 0 <= FromChar(s[i]) < b
  }

  /** The number a string of digits stands for. */
  function Number(s: string, b: nat): (u: nat)
    requires Radix(b) && AllDigits(s, b)
  {
    if s == "" then 0
    else
      MulNonNegative(Number(s[..|s| - 1], b), b);
      Number(s[..|s| - 1], b) * b + FromChar(s[|s| - 1])
  }

  /** The last n digits of u. */
  function DigitsOf(u: nat, b: nat, n: nat): (s: string)
    requires Radix(b)
    ensures |s| == n
    decreases n
  {
    if n == 0 then "" else DigitsOf(Div(u, b), b, n - 1) + [ToChar(Mod(u, b))]
  }

  /** How many digits u has; 0 has one. */
  function Length(u: nat, b: nat): (n: nat)
    requires Radix(b)
    ensures n >= 1
  {
    if u < b then 1 else Length(Div(u, b), b) + 1
  }

  lemma {:induction false} LengthLeast(u: nat, b: nat, n: nat)
    requires Radix(b) && n >= 1
    ensures Length(u, b) <= n <==> u < Pow(b, n)
    decreases n
  {
    assert Pow(b, 1) == Pow(b, 0) * b == b;
    if n == 1 {
    } else if u < b {
      PowMonotone(b, 1, n);
    } else {
      LengthLeast(Div(u, b), b, n - 1);
      Quotient(u, b);
      Below(Div(u, b), Mod(u, b), Pow(b, n - 1), b);
    }
  }

  lemma {:induction false} DigitsAreDigits(u: nat, b: nat, n: nat)
    requires Radix(b)
    ensures AllDigits(DigitsOf(u, b, n), b)
    ensures forall i :: 0 <= i < n ==> '0' <= DigitsOf(u, b, n)[i] <= '9' || 'a' <= DigitsOf(u, b, n)[i] <= 'z'
    decreases n
  {
    hide ToChar, FromChar, Div, Mod;
    if n > 0 {
      DigitsAreDigits(Div(u, b), b, n - 1);
    }
  }

  /** What the last n digits of u stand for. */
  function Last(u: nat, b: nat, n: nat): nat
    requires b > 0
  {
    u % Pow(b, n)
  }

  lemma LastStep(u: nat, b: nat, n: nat)
    requires b > 0
    ensures Last(u, b, n + 1) == Last(Div(u, b), b, n) * b + Mod(u, b)
    ensures Last(u, b, 0) == 0
  {
    var p := Pow(b, n);
    DivDiv(u, b, p);
    Commute(b, p);
    RemRem(u, b, p);
    Quotient(u % (p * b), b);
  }

  lemma {:induction false} DigitsNumber(u: nat, b: nat, n: nat)
    requires Radix(b)
    ensures AllDigits(DigitsOf(u, b, n), b) && Number(DigitsOf(u, b, n), b) == Last(u, b, n)
    decreases n
  {
    hide DigitsOf, Number, Last, AllDigits, Div, Mod;
    DigitsAreDigits(u, b, n);
    if n > 0 {
      DigitsNext(u, b, n - 1);
      DigitsNumber(Div(u, b), b, n - 1);
      LastStep(u, b, n - 1);
      NumberBack(DigitsOf(Div(u, b), b, n - 1), ToChar(Mod(u, b)), b);
    } else {
      LastStep(u, b, 0);
      NumberNone(b);
    }
  }

  lemma NumberBack(s: string, c: char, b: nat)
    requires Radix(b) && AllDigits(s, b) && 0 <= FromChar(c) < b
    ensures AllDigits(s + [c], b) && Number(s + [c], b) == Number(s, b) * b + FromChar(c)
  {
  }

  lemma NumberNone(b: nat)
    requires Radix(b)
    ensures AllDigits("", b) && Number("", b) == 0
  {
  }

  lemma RemRem(x: nat, a: nat, b: nat)
    requires a > 0 && b > 0
    ensures b * a > 0 && (x % (b * a)) % a == x % a
  {
    Positive(b, a);
    var m := b * a;
    Quotient(x, m);
    Quotient(x % m, a);
    var q, q2 := x / m, (x % m) / a;
    MulAssoc(q, b, a);
    Distribute(q * b, q2, a);
    DivIs(x, a, q * b + q2, (x % m) % a);
  }

  /** u without its last n digits. */
  function Cut(u: nat, b: nat, n: nat): nat
    requires b > 0
  {
    u / Pow(b, n)
  }

  /** A digit more in front. */
  lemma {:induction false} DigitsFront(u: nat, b: nat, n: nat)
    requires Radix(b)
    ensures DigitsOf(u, b, n + 1) == [ToChar(Mod(Cut(u, b, n), b))] + DigitsOf(u, b, n)
    decreases n
  {
    hide Div, Mod, Cut, Pow, ToChar;
    CutMore(u, b, 0);
    if n > 0 {
      DigitsFront(Div(u, b), b, n - 1);
      CutFront(u, b, n - 1);
    }
  }

  /** What is left of u without its last n digits, if that is one digit at most. */
  lemma CutDigit(u: nat, b: nat, n: nat)
    requires b > 0 && u < Pow(b, n + 1)
    ensures Cut(u, b, n) < b && Mod(Cut(u, b, n), b) == Cut(u, b, n) && (Cut(u, b, n) == 0 <==> u < Pow(b, n))
  {
    var p := Pow(b, n);
    var q := u / p;
    Quotient(u, p);
    Commute(b, p);
    Below(q, u % p, b, p);
    Below(q, u % p, 1, p);
    Below(q, u % p, 0, p);
    DivIs(q, b, 0, q);
  }

  lemma ZeroDigit(d: nat)
    requires d < 36
    ensures ToChar(d) == '0' <==> d == 0
  {
  }

  /** The digit in front tells whether fewer digits would do. */
  lemma FrontDigit(u: nat, b: nat, n: nat)
    requires Radix(b) && u < Pow(b, n + 1)
    ensures DigitsOf(u, b, n + 1)[0] == '0' <==> u < Pow(b, n)
    ensures DigitsOf(u, b, n + 1)[1..] == DigitsOf(u, b, n)
    ensures u < Pow(b, n) ==> DigitsOf(u, b, n + 1) == ['0'] + DigitsOf(u, b, n)
  {
    hide DigitsOf, Div, Mod, Cut, Pow, ToChar;
    DigitsFront(u, b, n);
    CutDigit(u, b, n);
    ZeroDigit(Cut(u, b, n));
  }

  lemma {:induction false} NumberBound(s: string, b: nat)
    requires Radix(b) && AllDigits(s, b)
    ensures Number(s, b) < Pow(b, |s|)
  {
    if s != "" {
      var n, p := Number(s[..|s| - 1], b), Pow(b, |s| - 1);
      NumberBound(s[..|s| - 1], b);
      Below(n, FromChar(s[|s| - 1]), p, b);
    }
  }

  lemma {:induction false} NumberConcat(s: string, t: string, b: nat)
    requires Radix(b) && AllDigits(s, b) && AllDigits(t, b)
    ensures AllDigits(s + t, b) && Number(s + t, b) == Number(s, b) * Pow(b, |t|) + Number(t, b)
    decreases |t|
  {
    if t == "" {
      assert s + t == s;
    } else {
      var t' := t[..|t| - 1];
      NumberConcat(s, t', b);
      assert (s + t)[..|s + t| - 1] == s + t';
      Distribute(Number(s, b) * Pow(b, |t'|), Number(t', b), b);
      MulAssoc(Number(s, b), Pow(b, |t'|), b);
    }
  }

  lemma CutMore(u: nat, b: nat, n: nat)
    requires b > 0
    ensures Div(Cut(u, b, n), b) == Cut(u, b, n + 1)
    ensures Cut(u, b, 0) == u
  {
    DivDiv(u, Pow(b, n), b);
  }

  lemma CutFront(u: nat, b: nat, n: nat)
    requires b > 0
    ensures Cut(Div(u, b), b, n) == Cut(u, b, n + 1)
  {
    DivDiv(u, b, Pow(b, n));
    Commute(b, Pow(b, n));
  }

  lemma DigitsNext(v: nat, b: nat, n: nat)
    requires Radix(b)
    ensures DigitsOf(v, b, n + 1) == DigitsOf(Div(v, b), b, n) + [ToChar(Mod(v, b))]
  {
  }

  /** v moved k digits up, with d behind it. */
  function Behind(v: nat, d: nat, b: nat, k: nat): nat
    requires b > 0
  {
    MulNonNegative(v, Pow(b, k));
    v * Pow(b, k) + d
  }

  lemma ConcatBack(s: string, t: string, c: char)
    ensures (s + t) + [c] == s + (t + [c])
  {
  }

  lemma BehindNone(v: nat, b: nat)
    requires b > 0
    ensures Pow(b, 0) == 1 && Behind(v, 0, b, 0) == v
  {
  }

  lemma BehindStep(v: nat, d: nat, b: nat, k: nat)
    requires b > 0 && d < Pow(b, k + 1)
    ensures Div(d, b) < Pow(b, k)
    ensures Div(Behind(v, d, b, k + 1), b) == Behind(v, Div(d, b), b, k) && Mod(Behind(v, d, b, k + 1), b) == Mod(d, b)
  {
    assert Pow(b, k + 1) == Pow(b, k) * b;
    Quotient(d, b);
    Below(Div(d, b), Mod(d, b), Pow(b, k), b);
    ShiftDiv(v, d, Pow(b, k), b);
  }

  lemma ShiftDiv(v: nat, d: nat, p: nat, b: nat)
    requires b > 0
    ensures (v * (p * b) + d) / b == v * p + d / b && (v * (p * b) + d) % b == d % b
  {
    Quotient(d, b);
    MulAssoc(v, p, b);
    Distribute(v * p, d / b, b);
    DivIs(v * (p * b) + d, b, v * p + d / b, d % b);
  }

  /** Digits behind digits. */
  lemma {:induction false} DigitsConcat(v: nat, d: nat, b: nat, n: nat, k: nat)
    requires Radix(b) && d < Pow(b, k)
    ensures DigitsOf(Behind(v, d, b, k), b, n + k) == DigitsOf(v, b, n) + DigitsOf(d, b, k)
    decreases k
  {
    hide DigitsOf, ToChar, Behind, Pow, Div, Mod;
    if k == 0 {
      BehindNone(v, b);
      assert DigitsOf(v, b, n) + DigitsOf(d, b, 0) == DigitsOf(v, b, n);
    } else {
      var q, x := Div(d, b), Behind(v, d, b, k);
      BehindStep(v, d, b, k - 1);
      DigitsConcat(v, q, b, n, k - 1);
      DigitsNext(x, b, n + k - 1);
      DigitsNext(d, b, k - 1);
      ConcatBack(DigitsOf(v, b, n), DigitsOf(q, b, k - 1), ToChar(Mod(x, b)));
    }
  }

  /** A slice of the digits of u. */
  lemma {:induction false} DigitsSlice(u: nat, b: nat, n: nat, p: nat, q: nat)
    requires Radix(b) && p <= q <= n
    ensures DigitsOf(u, b, n)[p..q] == DigitsOf(Cut(u, b, n - q), b, q - p)
    decreases n
  {
    hide Cut, DigitsOf, ToChar, Pow, Div, Mod;
    CutMore(u, b, 0);
    if q < n {
      DigitsSlice(Div(u, b), b, n - 1, p, q);
      CutFront(u, b, n - 1 - q);
      DigitsNext(u, b, n - 1);
      SliceFront(DigitsOf(Div(u, b), b, n - 1), ToChar(Mod(u, b)), p, q);
    } else if p < q {
      DigitsSlice(Div(u, b), b, n - 1, p, q - 1);
      CutMore(Div(u, b), b, 0);
      DigitsNext(u, b, n - 1);
      DigitsNext(u, b, q - p - 1);
      SliceBack(DigitsOf(Div(u, b), b, n - 1), ToChar(Mod(u, b)), p);
    }
  }

  lemma SliceFront(s: string, c: char, p: nat, q: nat)
    requires p <= q <= |s|
    ensures (s + [c])[p..q] == s[p..q]
  {
  }

  lemma SliceBack(s: string, c: char, p: nat)
    requires p <= |s|
    ensures (s + [c])[p..|s| + 1] == s[p..|s|] + [c]
  {
  }
}
