/**
 Conversion of fixed-width integers to text in any radix and back. The signed
 and unsigned template functions of the source are one method each, whose
 branches on `signed` stand where the two templates differ.
 */
module Radix {
  import opened Digits

  /** An integer type of the machine. */
  datatype Integer = Integer(bits: nat, signed: bool)

  const UINT := Integer(32, false)

  datatype Display = None | HashStyle | HashStyleAll | CStyle | CStyleOrHash

  datatype Error = InvalidRadix | InvalidDigit | InvalidSign

  datatype Result<T> = Ok(value: T) | Err(error: Error)

  // ----------------------------------------------------- machine arithmetic

  predicate InRange(t: Integer, i: int)
    requires t.bits >= 1
  {
    if t.signed then -(Pow(2, t.bits - 1) as int) <= i < Pow(2, t.bits - 1) else 0 <= i < Pow(2, t.bits)
  }

  /** Two's-complement wrap-around. */
  function Wrap(t: Integer, v: int): (i: int)
    requires t.bits >= 1
    ensures InRange(t, i)
  {
    var m := Pow(2, t.bits);
    assert m == 2 * Pow(2, t.bits - 1);
    var u := v % m;
    if t.signed && u >= Pow(2, t.bits - 1) then u - m else u
  }

  /** The bit pattern of an integer, as a number. */
  function Pattern(t: Integer, i: int): (u: nat)
    ensures u < Pow(2, t.bits)
  {
    i % Pow(2, t.bits)
  }

  lemma Shifted(x: int, k: int, m: int)
    requires m > 0
    ensures (x + k * m) % m == x % m
  {
    Quotient(x, m);
    Distribute(x / m, k, m);
    DivIs(x + k * m, m, x / m + k, x % m);
  }

  /** Wrapping is undone by wrapping. */
  lemma WrapShift(t: Integer, x: int, k: int)
    requires t.bits >= 1
    ensures Wrap(t, x + k * Pow(2, t.bits)) == Wrap(t, x)
  {
    Shifted(x, k, Pow(2, t.bits));
  }

  lemma WrapIs(t: Integer, x: int) returns (k: int)
    requires t.bits >= 1
    ensures Wrap(t, x) == x + k * Pow(2, t.bits)
  {
    var m := Pow(2, t.bits);
    Quotient(x, m);
    k := if Wrap(t, x) == x % m then -(x / m) else -(x / m) - 1;
    Distribute(-(x / m), -1, m);
    assert -(x / m) * m == -((x / m) * m);
  }

  lemma WrapInRange(t: Integer, i: int)
    requires t.bits >= 1 && InRange(t, i)
    ensures Wrap(t, i) == i && Wrap(t, Pattern(t, i)) == i
  {
    var m := Pow(2, t.bits);
    assert m == 2 * Pow(2, t.bits - 1);
    if i < 0 {
      DivIs(i, m, -1, i + m);
    } else {
      DivIs(i, m, 0, i);
    }
    Quotient(i, m);
    DivIs(i % m, m, 0, i % m);
  }

  /** A step of the reading loop: wrapping in between makes no difference. */
  lemma WrapStep(t: Integer, x: int, r: int, c: int)
    requires t.bits >= 1
    ensures Wrap(t, Wrap(t, Wrap(t, x) * r) + c) == Wrap(t, x * r + c)
  {
    var m := Pow(2, t.bits);
    var k := WrapIs(t, x);
    var j := WrapIs(t, Wrap(t, x) * r);
    Distribute(x, k * m, r);
    assert k * m * r == (k * r) * m by {
      MulAssoc(k, m, r);
      Commute(m, r);
      MulAssoc(k, r, m);
    }
    Distribute(k * r, j, m);
    assert Wrap(t, Wrap(t, x) * r) + c == (x * r + c) + (k * r + j) * m;
    WrapShift(t, x * r + c, k * r + j);
  }

  lemma WrapNegate(t: Integer, x: int)
    requires t.bits >= 1
    ensures Wrap(t, -Wrap(t, x)) == Wrap(t, -x)
  {
    var k := WrapIs(t, x);
    assert -(k * Pow(2, t.bits)) == (-k) * Pow(2, t.bits);
    WrapShift(t, -x, -k);
  }

  // ------------------------------------------------------------ what is written

  /** How a number is shown: plain, behind its radix and a hash, or as bits in groups. */
  datatype Style = Plain | Hashed | Bits(k: nat)

  function StyleOf(display: Display, radix: nat): (s: Style)
    ensures s.Bits? ==> s.k in {1, 3, 4} && radix == Pow(2, s.k)
  {
    assert Pow(2, 1) == 2 && Pow(2, 2) == 4 && Pow(2, 3) == 8 && Pow(2, 4) == 16;
    match display
    case None => Plain
    case HashStyle => if radix != 10 then Hashed else Plain
    case HashStyleAll => Hashed
    case CStyle => if radix == 16 then Bits(4) else if radix == 8 then Bits(3) else if radix == 2 then Bits(1)
        else Plain
    case CStyleOrHash =>
      if radix == 16 then Bits(4) else if radix == 8 then Bits(3) else if radix == 2 then Bits(1)
      else if radix != 10 then Hashed else Plain
  }

  function Max(a: nat, b: nat): nat {
    if a < b then b else a
  }

  /** The least number of bits that show u; signed ones have a 0 in front. */
  function BitsNeeded(u: nat, signed: bool): nat {
    if signed then Length(u, 2) + 1 else Length(u, 2)
  }

  function CeilDiv(n: nat, k: nat): nat
    requires k > 0
  {
    (n + k - 1) / k
  }

  function Abs(i: int): nat {
    if i < 0 then -i else i
  }

  /** The digits of the bit pattern in groups of k bits. */
  function BitDigits(t: Integer, i: int, k: nat, width: nat): string
    requires k in {1, 3, 4}
  {
    var u := Pattern(t, i);
    GroupRadix(k);
    DigitsOf(u, Pow(2, k), Max(width, CeilDiv(BitsNeeded(u, t.signed), k)))
  }

  lemma GroupRadix(k: nat)
    requires k in {1, 3, 4}
    ensures Digits.Radix(Pow(2, k)) && Pow(2, 1) == 2 && Pow(2, 3) == 8 && Pow(2, 4) == 16
  {
  }

  /** Digits behind the prefix of C; an unsigned octal number needs none if it has a 0 in front. */
  function Prefixed(t: Integer, k: nat, digits: string): string {
    if k == 1 then "0b" + digits
    else if k == 4 then "0x" + digits
    else if !t.signed && digits != "" && digits[0] == '0' then digits
    else "0" + digits
  }

  function Decimal(u: nat): string {
    DigitsOf(u, 10, Length(u, 10))
  }

  function Magnitude(i: int, radix: nat, width: nat): string
    requires Digits.Radix(radix)
  {
    DigitsOf(Abs(i), radix, Max(width, Length(Abs(i), radix)))
  }

  function SignMagnitude(i: int, radix: nat, width: nat): string
    requires Digits.Radix(radix)
  {
    if i < 0 then "-" + Magnitude(i, radix, width) else Magnitude(i, radix, width)
  }

  /** The text of an integer. */
  function ImageOf(t: Integer, i: int, radix: nat, display: Display, width: nat): Result<string>
  {
    if radix < 2 || radix > 36 then Err(InvalidRadix)
    else
      match StyleOf(display, radix)
      case Bits(k) => Ok(Prefixed(t, k, BitDigits(t, i, k, width)))
      case Plain => Ok(SignMagnitude(i, radix, width))
      case Hashed => Ok(Decimal(radix) + "#" + SignMagnitude(i, radix, width))
  }

  // --------------------------------------------------------------- what is read

  function Lower(c: char): char {
    if 'A' <= c <= 'Z' then c + ('a' - 'A') else c
  }

  predicate IsDigit(c: char) {
    '0' <= c <= '9'
  }

  /** The decimal digits in front. */
  function DigitRun(s: string): (n: nat)
    ensures n <= |s|
  {
    if s != "" && IsDigit(s[0]) then 1 + DigitRun(s[1..]) else 0
  }

  /** Digits as a bit pattern; a shorter pattern of a signed type is sign-extended. */
  function BitsValue(t: Integer, digits: string, k: nat): (r: Result<int>)
    requires t.bits >= 1 && k in {1, 3, 4}
    ensures r.Ok? ==> InRange(t, r.value)
  {
    GroupRadix(k);
    if !AllDigits(digits, Pow(2, k)) then Err(InvalidDigit)
    else
      var n, v := k * |digits|, Number(digits, Pow(2, k));
      if t.signed && 0 < n < t.bits && v >= Pow(2, n - 1) then Ok(Wrap(t, v - Pow(2, n))) else Ok(Wrap(t, v))
  }

  function DigitsValue(t: Integer, s: string, radix: nat, negative: bool): (r: Result<int>)
    requires t.bits >= 1 && Digits.Radix(radix)
    ensures r.Ok? ==> InRange(t, r.value)
  {
    if !AllDigits(s, radix) then Err(InvalidDigit)
    else Ok(Wrap(t, if negative then -(Number(s, radix) as int) else Number(s, radix)))
  }

  /** Digits behind an optional sign. */
  function SignedValue(t: Integer, s: string, radix: nat): (r: Result<int>)
    requires t.bits >= 1
    ensures r.Ok? ==> InRange(t, r.value)
  {
    if radix < 2 || radix > 36 then Err(InvalidRadix)
    else if s != "" && s[0] == '-' then if t.signed then DigitsValue(t, s[1..], radix, true) else Err(InvalidSign)
    else if s != "" && s[0] == '+' then DigitsValue(t, s[1..], radix, false)
    else DigitsValue(t, s, radix, false)
  }

  function OrTen(radix: nat): nat {
    if radix == 0 then 10 else radix
  }

  /** What a text means when read with a default radix; 0 leaves the radix to the text. */
  function ValueOf(t: Integer, s: string, radix: nat): (r: Result<int>)
    requires t.bits >= 1
    ensures r.Ok? ==> InRange(t, r.value)
    decreases |s|
  {
    if radix != 0 && (radix < 2 || radix > 36) then Err(InvalidRadix)
    else if |s| > 1 && s[0] == '0' && Lower(s[1]) == 'x' then BitsValue(t, s[2..], 4)
    else if |s| > 1 && s[0] == '0' && Lower(s[1]) == 'b' then BitsValue(t, s[2..], 1)
    else if |s| > 0 && s[0] == '0' && radix == 0 then BitsValue(t, s[1..], 3)
    else
      var j := DigitRun(s);
      if j < |s| && s[j] == '#' then
        match ValueOf(UINT, s[..j], 0)
        case Err(e) => Err(e)
        case Ok(r) => SignedValue(t, s[j + 1..], OrTen(r))
      else SignedValue(t, s, OrTen(radix))
  }

  // ------------------------------------------------------------- the writer

  /** The bit of u that the mask shows. */
  predicate BitSet(u: nat, mask: nat) {
    mask != 0 && (u / mask) % 2 == 1
  }

  /** The mask moved up by a bit, and out of the type in the end. */
  function ShiftUp(t: Integer, mask: nat): nat {
    (mask * 2) % Pow(2, t.bits)
  }

  function MaskAt(t: Integer, j: nat): nat {
    if j < t.bits then Pow(2, j) else 0
  }

  lemma FirstMask(t: Integer)
    requires t.bits >= 1
    ensures MaskAt(t, 0) == 1
  {
  }

  lemma NextMask(t: Integer, j: nat)
    requires j < t.bits
    ensures ShiftUp(t, MaskAt(t, j)) == MaskAt(t, j + 1)
  {
    assert Pow(2, j + 1) == Pow(2, j) * 2;
    if j + 1 < t.bits {
      PowMonotone(2, j + 2, t.bits);
      assert Pow(2, j + 2) == Pow(2, j + 1) * 2;
      DivIs(Pow(2, j + 1), Pow(2, t.bits), 0, Pow(2, j + 1));
    } else {
      DivIs(Pow(2, t.bits), Pow(2, t.bits), 1, 0);
    }
  }

  /** The bits of u come in front one by one; behind the type there are only zeros. */
  lemma NextBit(t: Integer, u: nat, j: nat)
    requires j <= t.bits && u < Pow(2, t.bits)
    ensures DigitsOf(u, 2, j + 1) == [if BitSet(u, MaskAt(t, j)) then '1' else '0'] + DigitsOf(u, 2, j)
    ensures MaskAt(t, j) == 0 <==> j == t.bits
  {
    hide DigitsOf, ToChar;
    DigitsFront(u, 2, j);
    assert ToChar(0) == '0' && ToChar(1) == '1' by { Bits01(); }
    if j == t.bits {
      DivIs(u, Pow(2, j), 0, u);
    }
  }

  lemma Bits01()
    ensures ToChar(0) == '0' && ToChar(1) == '1'
  {
  }

  /** All bits of the type, and one 0 more in front. */
  method AllBits(t: Integer, i: int) returns (result: string)
    requires t.bits >= 1
    ensures result == DigitsOf(Pattern(t, i), 2, t.bits + 1)
  {
    hide DigitsOf, BitSet, ShiftUp, MaskAt, Pow;
    var u := Pattern(t, i);
    result := "";
    var mask := 1;
    ghost var j: nat := 0;
    FirstMask(t);
    NoDigits(u, 2);
    while true
      invariant j <= t.bits && mask == MaskAt(t, j)
      invariant result == DigitsOf(u, 2, j)
      decreases t.bits - j
    {
      NextBit(t, u, j);
      result := [if BitSet(u, mask) then '1' else '0'] + result;
      if mask == 0 {
        break;
      }
      NextMask(t, j);
      mask := ShiftUp(t, mask);
      j := j + 1;
    }
  }

  /** What the trimming loop looks at: whether a bit less would do. */
  lemma Trimmable(u: nat, signed: bool, n: nat)
    requires n >= 1 && n >= BitsNeeded(u, signed)
    ensures u < Pow(2, n)
    ensures signed ==> n >= 2 && DigitsOf(u, 2, n)[0] == '0'
    ensures signed && n > 2 ==> (DigitsOf(u, 2, n)[1] == '0' <==> BitsNeeded(u, signed) <= n - 1)
    ensures !signed && n > 1 ==> (DigitsOf(u, 2, n)[0] == '0' <==> BitsNeeded(u, signed) <= n - 1)
    ensures DigitsOf(u, 2, n)[1..] == DigitsOf(u, 2, n - 1)
    ensures DigitsOf(u, 2, n + 1) == ['0'] + DigitsOf(u, 2, n)
  {
    Fewer(u, n);
    Fewer(u, n + 1);
    hide DigitsOf, Pow, Length;
    if signed && n > 2 {
      Fewer(u, n - 1);
      assert DigitsOf(u, 2, n)[1] == DigitsOf(u, 2, n - 1)[0];
    }
  }

  /** Whether u can do with one bit less than n. */
  lemma Fewer(u: nat, n: nat)
    requires n >= 1 && Length(u, 2) <= n
    ensures u < Pow(2, n) && DigitsOf(u, 2, n)[1..] == DigitsOf(u, 2, n - 1)
    ensures n > 1 ==> (DigitsOf(u, 2, n)[0] == '0' <==> Length(u, 2) <= n - 1)
    ensures n > 1 && Length(u, 2) <= n - 1 ==> DigitsOf(u, 2, n) == ['0'] + DigitsOf(u, 2, n - 1)
  {
    LengthLeast(u, 2, n);
    FrontDigit(u, 2, n - 1);
    if n > 1 {
      LengthLeast(u, 2, n - 1);
    }
  }

  /** Bits extended to a width, or trimmed to it as far as the value allows. */
  method Fit(signed: bool, bits: string, atLeast: nat, ghost u: nat) returns (result: string)
    requires |bits| >= 1 && |bits| >= BitsNeeded(u, signed) && bits == DigitsOf(u, 2, |bits|)
    ensures result == DigitsOf(u, 2, Max(atLeast, BitsNeeded(u, signed)))
  {
    hide DigitsOf, BitsNeeded;
    result := bits;
    while |result| < atLeast
      invariant |bits| <= |result| && (|result| <= atLeast || |result| == |bits|)
      invariant result == DigitsOf(u, 2, |result|)
    {
      Trimmable(u, signed, |result|);
      result := [if signed then result[0] else '0'] + result;
    }
    while |result| > atLeast
      invariant |result| >= atLeast && |result| >= BitsNeeded(u, signed) && |result| >= 1
      invariant result == DigitsOf(u, 2, |result|)
      invariant |result| <= atLeast ==> |result| == atLeast
    {
      Trimmable(u, signed, |result|);
      if |result| <= (if signed then 2 else 1) {
        AtLeastOne(u, signed);
        break;
      }
      if signed && result[0] != result[1] {
        break;
      }
      if !signed && result[0] != '0' {
        break;
      }
      result := result[1..];
    }
  }

  lemma AtLeastOne(u: nat, signed: bool)
    ensures BitsNeeded(u, signed) >= if signed then 2 else 1
  {
  }

  /** Bits in front until they make whole groups. */
  method Pad(signed: bool, bits: string, k: nat, ghost u: nat) returns (result: string)
    requires k in {3, 4} && |bits| >= 1 && |bits| >= BitsNeeded(u, signed) && bits == DigitsOf(u, 2, |bits|)
    ensures result == DigitsOf(u, 2, k * CeilDiv(|bits|, k))
  {
    hide DigitsOf, BitsNeeded;
    result := bits;
    while |result| % k != 0
      invariant |bits| <= |result| <= k * CeilDiv(|bits|, k)
      invariant result == DigitsOf(u, 2, |result|)
      decreases k * CeilDiv(|bits|, k) - |result|
    {
      Trimmable(u, signed, |result|);
      result := [if signed then result[0] else '0'] + result;
    }
  }

  /** One digit for each group of bits. */
  method Group(bits: string, k: nat, ghost u: nat, ghost m: nat) returns (result: string)
    requires k in {3, 4} && |bits| == k * m && bits == DigitsOf(u, 2, k * m)
    ensures Digits.Radix(Pow(2, k)) && result == DigitsOf(u, Pow(2, k), m)
  {
    GroupRadix(k);
    ghost var b := Pow(2, k);
    hide DigitsOf, ValueOf, Pow, Cut, Div, Mod;
    result := "";
    var ii, n := 0, Div(|bits|, k);
    GroupCount(k, m);
    while ii < n
      invariant 0 <= ii <= m == n
      invariant result == DigitsOf(Cut(u, b, m - ii), b, ii)
    {
      CutMore(u, b, m - ii - 1);
      DigitsNext(Cut(u, b, m - ii - 1), b, ii);
      var value := GroupValue(bits, k, ii, u, m);
      result := result + [ToChar(value)];
      ii := ii + 1;
    }
    CutMore(u, b, 0);
  }

  lemma GroupCount(k: nat, m: nat)
    requires k > 0
    ensures k * m >= 0 && Div(k * m, k) == m
  {
    MulNonNegative(k, m);
    Commute(k, m);
    DivIs(k * m, k, m, 0);
  }

  method GroupValue(bits: string, k: nat, ii: nat, ghost u: nat, ghost m: nat) returns (value: nat)
    requires k in {3, 4} && ii < m && |bits| == k * m && bits == DigitsOf(u, 2, k * m)
    ensures value == Mod(Cut(u, Pow(2, k), m - ii - 1), Pow(2, k)) && value < 16
  {
    hide DigitsOf, ValueOf, Pow, Cut, Mod;
    GroupBounds(k, m, ii);
    GroupSlice(u, k, m, ii, ii * k, ii * k + k);
    var slice := bits[ii * k..ii * k + k];
    var r := Value(UINT, slice, 2);
    value := r.value;
  }

  lemma GroupBounds(k: nat, m: nat, ii: nat)
    requires ii < m
    ensures 0 <= ii * k && ii * k + k <= k * m && k * m - (ii * k + k) == k * (m - ii - 1)
  {
    MulNonNegative(ii, k);
    MulNonNegative(k, m - ii - 1);
    assert k * m == k * (m - ii - 1) + (ii * k + k);
  }

  /** A slice of the bits, read in radix 2, is a digit in the radix of the groups. */
  lemma GroupSlice(u: nat, k: nat, m: nat, ii: nat, lo: nat, hi: nat)
    requires k in {3, 4} && ii < m && lo == ii * k && hi == lo + k <= k * m
    requires k * m - hi == k * (m - ii - 1)
    ensures Pow(2, k) in {8, 16}
    ensures ValueOf(UINT, DigitsOf(u, 2, k * m)[lo..hi], 2) == Ok(Mod(Cut(u, Pow(2, k), m - ii - 1), Pow(2, k)))
  {
    hide ValueOf, DigitsOf;
    GroupRadix(k);
    PowMul(2, k, m - ii - 1);
    DigitsSlice(u, 2, k * m, lo, hi);
    SliceValue(Cut(u, Pow(2, k), m - ii - 1), k);
  }

  lemma SliceValue(v: nat, k: nat)
    requires k in {3, 4}
    ensures Pow(2, k) in {8, 16} && ValueOf(UINT, DigitsOf(v, 2, k), 2) == Ok(Mod(v, Pow(2, k)))
  {
    hide ValueOf, DigitsOf, Div, Mod, Number, Pow, Wrap, InRange;
    GroupRadix(k);
    DigitsNumber(v, 2, k);
    DigitsAreDigits(v, 2, k);
    BitsAre01(DigitsOf(v, 2, k));
    BinarySlice(DigitsOf(v, 2, k));
    LastIs(v, 2, k);
    SmallInRange(Mod(v, Pow(2, k)));
    WrapInRange(UINT, Mod(v, Pow(2, k)));
  }

  lemma BitsAre01(s: string)
    requires AllDigits(s, 2) && forall i :: 0 <= i < |s| ==> '0' <= s[i] <= '9' || 'a' <= s[i] <= 'z'
    ensures forall i :: 0 <= i < |s| ==> s[i] in {'0', '1'}
  {
  }

  lemma LastIs(u: nat, b: nat, n: nat)
    requires b > 0
    ensures Last(u, b, n) == Mod(u, Pow(b, n))
  {
  }

  lemma SmallInRange(u: nat)
    requires u < 16
    ensures InRange(UINT, u) && Pattern(UINT, u) == u
  {
    Pow32();
    DivIs(u, Pow(2, 32), 0, u);
  }

  lemma Pow32()
    ensures Pow(2, 32) == 0x1_0000_0000
  {
    assert Pow(2, 8) == 256;
    PowAdd(2, 8, 8);
    PowAdd(2, 16, 16);
  }

  /** Nothing in a string of bits is taken for a prefix, given the radix. */
  lemma BinarySlice(s: string)
    requires forall i :: 0 <= i < |s| ==> s[i] in {'0', '1'}
    ensures ValueOf(UINT, s, 2) == DigitsValue(UINT, s, 2, false)
  {
  }

  /** The run of decimal digits in front of s is n characters long. */
  lemma {:induction false} RunOfDigits(s: string, n: nat)
    requires n <= |s| && (forall i :: 0 <= i < n ==> IsDigit(s[i])) && (n < |s| ==> !IsDigit(s[n]))
    ensures DigitRun(s) == n
  {
    if n > 0 {
      RunOfDigits(s[1..], n - 1);
    }
  }

  // the division of the machine rounds toward zero
  function TruncDiv(i: int, d: nat): int
    requires d > 0
  {
    if i < 0 then -(Div(-i, d) as int) else Div(i, d)
  }

  function TruncMod(i: int, d: nat): int
    requires d > 0
  {
    if i < 0 then -(Mod(-i, d) as int) else Mod(i, d)
  }

  lemma StepDown(i: int, d: nat)
    requires d > 0
    ensures Abs(TruncMod(i, d)) == Mod(Abs(i), d) && Abs(TruncDiv(i, d)) == Div(Abs(i), d)
    ensures (TruncDiv(i, d) > 0 ==> i > 0) && (TruncDiv(i, d) < 0 ==> i < 0)
  {
    ZeroDiv(d);
    hide Div, Mod;
  }

  lemma ZeroDiv(d: nat)
    requires d > 0
    ensures Div(0, d) == 0
  {
    DivIs(0, d, 0, 0);
  }

  lemma CutLength(m: nat, radix: nat, n: nat)
    requires Digits.Radix(radix)
    ensures n >= 1 ==> (Cut(m, radix, n) == 0 <==> Length(m, radix) <= n)
  {
    if n >= 1 {
      LengthLeast(m, radix, n);
      Quotient(m, Pow(radix, n));
      Below(Cut(m, radix, n), m % Pow(radix, n), 1, Pow(radix, n));
    }
  }

  /** The digits by repeated division, at least `width` of them. */
  method MagnitudeImage(i0: int, radix: nat, width: nat) returns (result: string)
    requires Digits.Radix(radix)
    ensures result == Magnitude(i0, radix, width)
  {
    hide DigitsOf, Cut, Length, Pow, TruncDiv, TruncMod, Div, Mod;
    ghost var m := Abs(i0);
    var i := i0;
    result := "";
    NoDigits(m, radix);
    while true
      invariant Abs(i) == Cut(m, radix, |result|) && (i > 0 ==> i0 > 0) && (i < 0 ==> i0 < 0)
      invariant result == DigitsOf(m, radix, |result|)
      invariant |result| > 0 ==> |result| < Max(width, Length(m, radix))
      decreases Max(width, Length(m, radix)) - |result|
    {
      ghost var n, was := |result|, i;
      var ch := Abs(TruncMod(i, radix));
      i := TruncDiv(i, radix);
      StepDown(was, radix);
      CutMore(m, radix, n);
      NextDigit(m, radix, n);
      CutLength(m, radix, n + 1);
      result := [ToChar(ch)] + result;
      if !(i != 0 || |result| < width) {
        break;
      }
    }
  }

  lemma NoDigits(m: nat, radix: nat)
    requires Digits.Radix(radix)
    ensures DigitsOf(m, radix, 0) == "" && Cut(m, radix, 0) == m
  {
  }

  lemma NextDigit(m: nat, radix: nat, n: nat)
    requires Digits.Radix(radix)
    ensures DigitsOf(m, radix, n + 1) == [ToChar(Mod(Cut(m, radix, n), radix))] + DigitsOf(m, radix, n)
  {
    DigitsFront(m, radix, n);
  }

  /** The least multiple of k bits above the greater of two numbers of bits. */
  lemma CeilMax(width: nat, n: nat, k: nat)
    requires k in {3, 4}
    ensures CeilDiv(Max(k * width, n), k) == Max(width, CeilDiv(n, k))
  {
  }

  /** `util_simage` and `util_uimage`. */
  method Image(t: Integer, i: int, radix: nat, display: Display, width: nat) returns (r: Result<string>)
    requires t.bits >= 8 && InRange(t, i)
    ensures r == ImageOf(t, i, radix, display, width)
    decreases if StyleOf(display, radix) == Hashed then 1 else 0
  {
    hide DigitsOf, Length, Pow, InRange, StyleOf;
    if radix < 2 || radix > 36 {
      return Err(InvalidRadix);
    }
    var result;
    var style := StyleOf(display, radix);
    if style.Bits? {
      StyleBits(display, radix);
      result := BitImage(t, i, style.k, width);
      if style.k == 1 {
        result := "0b" + result;
      } else if style.k == 3 {
        if t.signed || result == "" || result[0] != '0' {
          result := "0" + result;
        }
      } else {
        result := "0x" + result;
      }
    } else {
      result := MagnitudeImage(i, radix, width);
      if i < 0 {
        result := "-" + result;
      }
      if style == Hashed {
        DecimalImage(radix);
        var prefix := Image(UINT, radix, 10, CStyleOrHash, 0);
        result := prefix.value + "#" + result;
      }
    }
    return Ok(result);
  }

  lemma StyleBits(display: Display, radix: nat)
    requires StyleOf(display, radix).Bits?
    ensures StyleOf(display, radix).k in {1, 3, 4}
  {
  }

  lemma DecimalImage(u: nat)
    requires u <= 36
    ensures StyleOf(CStyleOrHash, 10) == Plain && InRange(UINT, u)
    ensures ImageOf(UINT, u, 10, CStyleOrHash, 0) == Ok(Decimal(u))
  {
  }

  /** Groups of the bits of an integer. */
  method BitImage(t: Integer, i: int, k: nat, width: nat) returns (result: string)
    requires t.bits >= 8 && k in {1, 3, 4}
    ensures result == BitDigits(t, i, k, width)
  {
    hide DigitsOf, Length, Pow, BitsNeeded;
    ghost var u := Pattern(t, i);
    result := AllBits(t, i);
    EnoughBits(t, i);
    result := Fit(t.signed, result, k * width, u);
    if k == 1 {
      BinaryDigits(t, i, width);
    } else {
      AtLeastOne(u, t.signed);
      ghost var n := |result|;
      result := Pad(t.signed, result, k, u);
      CeilMax(width, BitsNeeded(u, t.signed), k);
      result := Group(result, k, u, CeilDiv(n, k));
    }
  }

  lemma EnoughBits(t: Integer, i: int)
    requires t.bits >= 1
    ensures BitsNeeded(Pattern(t, i), t.signed) <= t.bits + 1
  {
    LengthLeast(Pattern(t, i), 2, t.bits);
  }

  lemma BinaryDigits(t: Integer, i: int, width: nat)
    ensures BitDigits(t, i, 1, width) == DigitsOf(Pattern(t, i), 2, Max(1 * width, BitsNeeded(Pattern(t, i), t.signed)))
  {
  }

  // ------------------------------------------------------------- the reader

  /** `svalue` and `uvalue`. */
  method Value(t: Integer, str: string, radix: nat) returns (r: Result<int>)
    requires t.bits >= 8
    ensures r == ValueOf(t, str, radix)
    decreases |str|
  {
    hide BitsValue, SignedValue, DigitRun;
    if radix != 0 && (radix < 2 || radix > 36) {
      return Err(InvalidRadix);
    }
    if |str| > 0 && str[0] == '0' {
      if 1 < |str| && Lower(str[1]) == 'x' {
        r := ReadBits(t, str[2..], 4);
        return;
      } else if 1 < |str| && Lower(str[1]) == 'b' {
        r := ReadBits(t, str[2..], 1);
        return;
      } else if radix == 0 {
        r := ReadBits(t, str[1..], 3);
        return;
      }
    }
    var radix' := radix;
    var i := 0;
    var j := 0;
    RunFrom(str, 0);
    while j < |str| && IsDigit(str[j])
      invariant 0 <= j <= |str| && DigitRun(str) == j + DigitRun(str[j..])
    {
      RunFrom(str, j);
      j := j + 1;
    }
    RunFrom(str, j);
    if j < |str| && str[j] == '#' {
      var slice := Value(UINT, str[..j], 0);
      if slice.Err? {
        return Err(slice.error);
      }
      radix' := slice.value;
      i := j + 1;
    }
    if radix' == 0 {
      radix' := 10;
    }
    assert str[0..] == str;
    r := ReadSigned(t, str[i..], radix');
  }

  lemma RunFrom(s: string, j: nat)
    requires j <= |s|
    ensures j < |s| && IsDigit(s[j]) ==> DigitRun(s[j..]) == 1 + DigitRun(s[j + 1..])
    ensures j == |s| || !IsDigit(s[j]) ==> DigitRun(s[j..]) == 0
    ensures s[0..] == s
  {
  }

  /** A bit pattern: digits to bits, extended to the width of the type, to a number. */
  method ReadBits(t: Integer, digits: string, k: nat) returns (r: Result<int>)
    requires t.bits >= 8 && k in {1, 3, 4}
    ensures r == BitsValue(t, digits, k)
  {
    hide DigitsOf, Number, Pow, Wrap, AllDigits;
    GroupRadix(k);
    var ok, binary := ToBits(digits, k);
    if !ok {
      return Err(InvalidDigit);
    }
    ghost var v, n := Number(digits, Pow(2, k)), k * |digits|;
    BitsBound(digits, k);
    var extended := Extend(t, binary, v, n);
    var val := Accumulate(t, extended, 2);
    if t.signed && 0 < n < t.bits && v >= Pow(2, n - 1) {
      WrapShift(t, v - Pow(2, n), 1);
    }
    return val;
  }

  lemma BitsBound(digits: string, k: nat)
    requires k in {1, 3, 4} && Digits.Radix(Pow(2, k)) && AllDigits(digits, Pow(2, k))
    ensures k * |digits| >= 0 && Number(digits, Pow(2, k)) < Pow(2, k * |digits|)
  {
    hide Number, Pow;
    NumberBound(digits, Pow(2, k));
    PowMul(2, k, |digits|);
  }

  /** The bits of each digit, one behind the other, if all are digits. */
  method ToBits(digits: string, k: nat) returns (ok: bool, binary: string)
    requires k in {1, 3, 4}
    ensures Digits.Radix(Pow(2, k)) && (ok <==> AllDigits(digits, Pow(2, k)))
    ensures ok ==> k * |digits| >= 0 && binary == DigitsOf(Number(digits, Pow(2, k)), 2, k * |digits|)
  {
    hide DigitsOf, Number, Pow;
    GroupRadix(k);
    ghost var b := Pow(2, k);
    binary := "";
    var j, n := 0, 0;
    NoNumber(digits, b);
    while j < |digits|
      invariant 0 <= j <= |digits| && n == k * j && AllDigits(digits[..j], b)
      invariant binary == DigitsOf(Number(digits[..j], b), 2, n)
    {
      if !(0 <= FromChar(digits[j]) < (if k == 1 then 2 else if k == 3 then 8 else 16)) {
        return false, "";
      }
      NumberNext(digits, j, b);
      DigitsConcat(Number(digits[..j], b), FromChar(digits[j]), 2, n, k);
      BehindIs(Number(digits[..j], b), FromChar(digits[j]), k);
      binary := binary + DigitsOf(FromChar(digits[j]), 2, k);
      j, n := j + 1, n + k;
    }
    assert digits[..j] == digits;
    ok := true;
  }

  lemma BehindIs(v: nat, d: nat, k: nat)
    ensures Behind(v, d, 2, k) == v * Pow(2, k) + d
  {
  }

  lemma NoNumber(s: string, b: nat)
    requires Digits.Radix(b)
    ensures s[..0] == "" && AllDigits("", b) && Number("", b) == 0 && DigitsOf(0, 2, 0) == ""
  {
  }

  lemma NumberNext(s: string, j: nat, b: nat)
    requires Digits.Radix(b) && j < |s| && AllDigits(s[..j], b) && 0 <= FromChar(s[j]) < b
    ensures AllDigits(s[..j + 1], b) && Number(s[..j + 1], b) == Number(s[..j], b) * b + FromChar(s[j])
  {
    assert s[..j + 1] == s[..j] + [s[j]];
    assert s[..j + 1][..j] == s[..j];
  }

  /** Whether the sign bit of a pattern of n bits is set. */
  ghost predicate Negative(t: Integer, v: nat, n: nat) {
    t.signed && n > 0 && v >= Pow(2, n - 1)
  }

  lemma SignBit(v: nat, n: nat)
    requires n > 0 && v < Pow(2, n)
    ensures DigitsOf(v, 2, n)[0] == if v >= Pow(2, n - 1) then '1' else '0'
  {
  }

  /** Sign- or zero-extension to the width of the type. */
  method Extend(t: Integer, bits: string, ghost v: nat, ghost n: nat) returns (binary: string)
    requires bits == DigitsOf(v, 2, n) && v < Pow(2, n)
    ensures AllDigits(binary, 2)
    ensures Number(binary, 2) == if Negative(t, v, n) && n < t.bits then v + Pow(2, t.bits) - Pow(2, n) else v
  {
    hide DigitsOf, Number, Pow;
    binary := bits;
    DigitsNumber(v, 2, n);
    DivIs(v, Pow(2, n), 0, v);
    if n > 0 {
      SignBit(v, n);
    }
    ghost var sign := if Negative(t, v, n) then '1' else '0';
    while |binary| < t.bits
      invariant n <= |binary| && (n < |binary| ==> |binary| <= t.bits)
      invariant t.signed && binary != "" ==> binary[0] == sign
      invariant AllDigits(binary, 2)
      invariant Number(binary, 2) == if Negative(t, v, n) then v + Pow(2, |binary|) - Pow(2, n) else v
    {
      BitInFront(sign, binary);
      binary := [if !t.signed || binary == "" then '0' else binary[0]] + binary;
    }
  }

  lemma BitInFront(c: char, s: string)
    requires c in {'0', '1'} && AllDigits(s, 2)
    ensures AllDigits([c] + s, 2) && Number([c] + s, 2) == Number(s, 2) + (if c == '1' then Pow(2, |s|) else 0)
    ensures Pow(2, |s| + 1) == 2 * Pow(2, |s|)
  {
    OneDigit(c, 2);
    assert Pow(2, |s| + 1) == 2 * Pow(2, |s|);
    hide Number, Pow, FromChar;
    assert FromChar(c) == 0 || FromChar(c) == 1;
    NumberConcat([c], s, 2);
  }

  lemma OneDigit(c: char, b: nat)
    requires Digits.Radix(b) && 0 <= FromChar(c) < b
    ensures AllDigits([c], b) && Number([c], b) == FromChar(c)
  {
  }

  /** Digits to a number, wrapping around at each step. */
  method Accumulate(t: Integer, s: string, radix: nat) returns (r: Result<int>)
    requires t.bits >= 8 && Digits.Radix(radix)
    ensures r == DigitsValue(t, s, radix, false)
  {
    hide Number, Pow, Wrap;
    var val := 0;
    var i := 0;
    NoNumber(s, radix);
    ZeroWraps(t);
    while i < |s|
      invariant 0 <= i <= |s| && AllDigits(s[..i], radix)
      invariant val == Wrap(t, Number(s[..i], radix))
    {
      val := Wrap(t, val * radix);
      var ch := FromChar(s[i]);
      if ch == -1 || ch >= radix {
        return Err(InvalidDigit);
      }
      NumberNext(s, i, radix);
      WrapStep(t, Number(s[..i], radix), radix, ch);
      val := Wrap(t, val + ch);
      i := i + 1;
    }
    assert s[..i] == s;
    return Ok(val);
  }

  lemma ZeroWraps(t: Integer)
    requires t.bits >= 1
    ensures Wrap(t, 0) == 0
  {
  }

  /** Digits behind an optional sign. */
  method ReadSigned(t: Integer, s: string, radix: nat) returns (r: Result<int>)
    requires t.bits >= 8
    ensures r == SignedValue(t, s, radix)
  {
    hide Number, Pow, Wrap;
    if radix < 2 || radix > 36 {
      return Err(InvalidRadix);
    }
    var negative := false;
    var i := 0;
    assert s[0..] == s;
    if i < |s| {
      if s[i] == '-' {
        if !t.signed {
          return Err(InvalidSign);
        }
        negative := true;
        i := i + 1;
      } else if s[i] == '+' {
        i := i + 1;
      }
    }
    r := Accumulate(t, s[i..], radix);
    if r.Ok? && negative {
      WrapNegate(t, Number(s[i..], radix));
      r := Ok(Wrap(t, -r.value));
    }
  }
}
