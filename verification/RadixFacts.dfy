/**
 Writing an integer and reading it back.
 */
module RadixFacts {
  import opened Digits
  import opened Radix

  // --------------------------------------------------------- digits and values

  /** The digits of a number that has no more of them. */
  lemma WholeNumber(u: nat, b: nat, n: nat)
    requires Digits.Radix(b) && u < Pow(b, n)
    ensures AllDigits(DigitsOf(u, b, n), b) && Number(DigitsOf(u, b, n), b) == u
  {
    DigitsNumber(u, b, n);
    DivIs(u, Pow(b, n), 0, u);
  }

  lemma MagnitudeNumber(i: int, radix: nat, width: nat)
    requires Digits.Radix(radix)
    ensures var s := Magnitude(i, radix, width);
            s != "" && AllDigits(s, radix) && Number(s, radix) == Abs(i) && Abs(i) < Pow(radix, |s|)
    ensures forall c :: c in Magnitude(i, radix, width) ==> '0' <= c <= '9' || 'a' <= c <= 'z'
    ensures radix <= 10 ==> forall c :: c in Magnitude(i, radix, width) ==> IsDigit(c)
  {
    var n := Max(width, Length(Abs(i), radix));
    LengthLeast(Abs(i), radix, n);
    WholeNumber(Abs(i), radix, n);
    DigitsAreDigits(Abs(i), radix, n);
    var s := Magnitude(i, radix, width);
    forall c | c in s
      ensures '0' <= c <= '9' || 'a' <= c <= 'z'
      ensures radix <= 10 ==> IsDigit(c)
    {
      var j: nat :| j < |s| && s[j] == c;
      assert 0 <= FromChar(s[j]) < radix;
    }
  }

  /** Sign and digits are read back in the same radix. */
  lemma SignedBack(t: Integer, i: int, radix: nat, width: nat)
    requires t.bits >= 1 && InRange(t, i) && Digits.Radix(radix)
    ensures SignedValue(t, SignMagnitude(i, radix, width), radix) == Ok(i)
  {
    hide Magnitude, Number, Pow, InRange, Wrap, FromChar, AllDigits;
    MagnitudeNumber(i, radix, width);
    WrapInRange(t, i);
    if i < 0 {
      NegativeSigned(t, i);
    }
    var s, m := SignMagnitude(i, radix, width), Magnitude(i, radix, width);
    if i < 0 {
      assert s[1..] == m;
    } else {
      assert m[0] in m;
    }
  }

  lemma NegativeSigned(t: Integer, i: int)
    requires t.bits >= 1 && InRange(t, i) && i < 0
    ensures t.signed
  {
  }

  // --------------------------------------------------------------- bit patterns

  /** A bit pattern in groups is read back, whatever the width. */
  lemma BitsBack(t: Integer, i: int, k: nat, width: nat)
    requires t.bits >= 1 && InRange(t, i) && k in {1, 3, 4}
    ensures BitsValue(t, BitDigits(t, i, k, width), k) == Ok(i)
    ensures BitDigits(t, i, k, width) != ""
  {
    hide DigitsOf, Number, Pow, InRange, Wrap, Pattern, Length, CeilDiv, BitsNeeded;
    var u := Pattern(t, i);
    var n := Max(width, CeilDiv(BitsNeeded(u, t.signed), k));
    GroupRadix(k);
    BitsFit(u, t.signed, k, width);
    WrapInRange(t, i);
    WholeNumber(u, Pow(2, k), n);
  }

  /** The groups have room for the number, and for the sign. */
  lemma BitsFit(u: nat, signed: bool, k: nat, width: nat)
    requires k in {1, 3, 4}
    ensures var n := Max(width, CeilDiv(BitsNeeded(u, signed), k));
            n > 0 && u < Pow(Pow(2, k), n) && (signed ==> u < Pow(2, k * n - 1))
  {
    var need := BitsNeeded(u, signed);
    var n := Max(width, CeilDiv(need, k));
    Enough(need, width, k);
    AtLeastOne(u, signed);
    hide CeilDiv, Max;
    PowMul(2, k, n);
    LengthLeast(u, 2, k * n);
    if signed {
      LengthLeast(u, 2, k * n - 1);
    }
  }

  lemma Enough(need: nat, width: nat, k: nat)
    requires k in {1, 3, 4}
    ensures k * Max(width, CeilDiv(need, k)) >= need
    ensures need > 0 ==> Max(width, CeilDiv(need, k)) > 0
  {
  }

  /** The prefix of C says what the digits are. */
  lemma PrefixedBack(t: Integer, ds: string, k: nat)
    requires t.bits >= 1 && k in {1, 3, 4} && ds != "" && BitsValue(t, ds, k).Ok?
    ensures ValueOf(t, Prefixed(t, k, ds), 0) == BitsValue(t, ds, k)
  {
    hide Number, Pow;
    GroupRadix(k);
    var s := Prefixed(t, k, ds);
    if k != 3 {
      assert s[2..] == ds;
    } else if s == "0" + ds {
      assert s[1..] == ds && s[1] == ds[0];
      OctalDigit(ds[0]);
    } else {
      assert ds == ["0"[0]] + ds[1..];
      BitInFrontOctal(ds[1..]);
      if |ds| > 1 {
        OctalDigit(ds[1]);
      }
    }
  }

  lemma OctalDigit(c: char)
    requires 0 <= FromChar(c) < 8
    ensures '0' <= c <= '7' && Lower(c) == c
  {
  }

  lemma BitInFrontOctal(s: string)
    requires AllDigits(s, 8)
    ensures AllDigits(['0'] + s, 8) && Number(['0'] + s, 8) == Number(s, 8)
  {
    OneDigit('0', 8);
    NumberConcat(['0'], s, 8);
  }

  // ------------------------------------------------------------- hash prefixes

  /** A number without a 0 in front is read as a decimal. */
  lemma DecimalBack(t: Integer, s: string)
    requires t.bits >= 1 && s != "" && s[0] != '0' && AllDigits(s, 10)
    ensures ValueOf(t, s, 0) == DigitsValue(t, s, 10, false)
  {
  }

  lemma DecimalRadix(radix: nat)
    requires Digits.Radix(radix)
    ensures var d := Decimal(radix);
            d != "" && d[0] != '0' && (forall i :: 0 <= i < |d| ==> IsDigit(d[i])) && ValueOf(UINT, d, 0) == Ok(radix)
  {
    MagnitudeNumber(radix, 10, 0);
    var d := Decimal(radix);
    assert d == Magnitude(radix, 10, 0);
    NoZeroInFront(radix, 10);
    forall i | 0 <= i < |d|
      ensures IsDigit(d[i])
    {
      assert d[i] in d;
    }
    DecimalBack(UINT, d);
    Pow32();
    WrapInRange(UINT, radix);
  }

  lemma NoZeroInFront(u: nat, b: nat)
    requires Digits.Radix(b) && u > 0
    ensures DigitsOf(u, b, Length(u, b))[0] != '0'
  {
    var n := Length(u, b);
    LengthLeast(u, b, n);
    FrontDigit(u, b, n - 1);
    if n > 1 {
      LengthLeast(u, b, n - 1);
    }
    assert Pow(b, 0) == 1;
  }

  /** A radix and a hash in front say what the digits are. */
  lemma HashedBack(t: Integer, radix: nat, rest: string)
    requires t.bits >= 1 && Digits.Radix(radix)
    ensures ValueOf(t, Decimal(radix) + "#" + rest, 0) == SignedValue(t, rest, radix)
  {
    DecimalRadix(radix);
    var d := Decimal(radix);
    var s := d + "#" + rest;
    RunOfDigits(s, |d|);
    assert s[0] == d[0] && s[..|d|] == d && s[|d|] == '#' && s[|d| + 1..] == rest;
    assert Lower(s[0]) == s[0];
  }

  // ------------------------------------------------------------ the round trip

  /** With a hash prefix every integer comes back, in any radix and at any width. */
  lemma HashRoundTrip(t: Integer, i: int, radix: nat, display: Display, width: nat)
    requires t.bits >= 1 && InRange(t, i) && Digits.Radix(radix) && StyleOf(display, radix) == Hashed
    ensures ImageOf(t, i, radix, display, width).Ok?
    ensures ValueOf(t, ImageOf(t, i, radix, display, width).value, 0) == Ok(i)
  {
    HashedBack(t, radix, SignMagnitude(i, radix, width));
    SignedBack(t, i, radix, width);
  }

  /** As a bit pattern every integer comes back, at any width. */
  lemma BitRoundTrip(t: Integer, i: int, radix: nat, display: Display, width: nat)
    requires t.bits >= 1 && InRange(t, i) && Digits.Radix(radix) && StyleOf(display, radix).Bits?
    ensures ImageOf(t, i, radix, display, width).Ok?
    ensures ValueOf(t, ImageOf(t, i, radix, display, width).value, 0) == Ok(i)
  {
    var k := StyleOf(display, radix).k;
    BitsBack(t, i, k, width);
    PrefixedBack(t, BitDigits(t, i, k, width), k);
  }

  /** Which numbers come back by default: padded decimals of 8 and more are taken for octal ones. */
  predicate Survives(t: Integer, i: int, radix: nat, width: nat) {
    radix != 10 || i < 0 || width <= Length(Abs(i), 10) || i <= 3 || (i <= 7 && (!t.signed || width >= 3))
  }

  /** Read as octal, a decimal of more than 7 gets smaller. */
  lemma {:induction false} OctalLess(s: string)
    requires AllDigits(s, 8)
    ensures AllDigits(s, 10) && Number(s, 8) <= Number(s, 10)
    ensures Number(s, 8) == Number(s, 10) <==> Number(s, 10) <= 7
  {
    if s != "" {
      OctalLess(s[..|s| - 1]);
    }
  }

  lemma {:induction false} SmallDigits(u: nat, n: nat)
    requires u <= 7
    ensures AllDigits(DigitsOf(u, 10, n), 8)
    decreases n
  {
    if n > 0 {
      SmallDigits(u / 10, n - 1);
    }
  }

  lemma PaddedMagnitude(i: nat, width: nat)
    requires width > Length(i, 10)
    ensures Magnitude(i, 10, width) == ['0'] + DigitsOf(i, 10, width - 1)
    ensures AllDigits(DigitsOf(i, 10, width - 1), 10) && Number(DigitsOf(i, 10, width - 1), 10) == i
  {
    LengthLeast(i, 10, width - 1);
    PowMonotone(10, width - 1, width);
    FrontDigit(i, 10, width - 1);
    WholeNumber(i, 10, width - 1);
  }

  /** A 0 in front has the rest taken for octal digits. */
  lemma ZeroInFront(t: Integer, ds: string)
    requires t.bits >= 1 && AllDigits(ds, 10)
    ensures ValueOf(t, ['0'] + ds, 0) == BitsValue(t, ds, 3)
  {
  }

  lemma SmallPowers(n: nat)
    requires n >= 3
    ensures Pow(2, 2) == 4 && Pow(2, n - 1) >= 4 && (n >= 6 ==> Pow(2, n - 1) >= 32)
  {
    PowMonotone(2, 2, n - 1);
    if n >= 6 {
      PowMonotone(2, 5, n - 1);
    }
    assert Pow(2, 2) == 4 && Pow(2, 5) == 32;
  }

  /** Sign-extension of a pattern whose sign bit is set gives a negative number. */
  lemma ExtendedNegative(t: Integer, v: nat, n: nat)
    requires t.bits >= 1 && t.signed && 0 < n < t.bits && Pow(2, n - 1) <= v < Pow(2, n)
    ensures Wrap(t, v - Pow(2, n)) == v - Pow(2, n) < 0
  {
    PowMonotone(2, n - 1, t.bits - 1);
    assert Pow(2, n) == 2 * Pow(2, n - 1);
    WrapInRange(t, v - Pow(2, n));
  }

  lemma SmallerInRange(t: Integer, v: nat, i: nat)
    requires t.bits >= 1 && InRange(t, i) && v <= i
    ensures Wrap(t, v) == v
  {
    WrapInRange(t, v);
  }

  /** A padded decimal comes back if it is its own octal value and no sign bit is seen in it. */
  lemma PaddedBack(t: Integer, i: nat, width: nat)
    requires t.bits >= 8 && InRange(t, i) && width > Length(i, 10)
    ensures ValueOf(t, Magnitude(i, 10, width), 0) == Ok(i) <==> i <= 3 || (i <= 7 && (!t.signed || width >= 3))
  {
    hide ValueOf, Magnitude, DigitsOf, Wrap, Pow, Number, InRange;
    PaddedMagnitude(i, width);
    var ds := DigitsOf(i, 10, width - 1);
    ZeroInFront(t, ds);
    if i <= 7 {
      SmallDigits(i, width - 1);
    }
    Eight();
    if AllDigits(ds, 8) {
      var n, v := 3 * |ds|, Number(ds, 8);
      OctalLess(ds);
      NumberBound(ds, 8);
      PowMul(2, 3, |ds|);
      SmallPowers(n);
      if t.signed && n < t.bits && v >= Pow(2, n - 1) {
        ExtendedNegative(t, v, n);
      } else {
        SmallerInRange(t, v, i);
      }
    }
  }

  lemma Eight()
    ensures Pow(2, 3) == 8 && Digits.Radix(8)
  {
  }

  /** A decimal without padding comes back. */
  lemma PlainBack(t: Integer, i: int, width: nat)
    requires t.bits >= 8 && InRange(t, i) && (i < 0 || width <= Length(Abs(i), 10))
    ensures ValueOf(t, SignMagnitude(i, 10, width), 0) == Ok(i)
  {
    hide Number, Pow, Wrap, InRange, DigitsOf, Length, Magnitude, ValueOf, SignedValue, AllDigits;
    SignedBack(t, i, 10, width);
    MagnitudeNumber(i, 10, width);
    var m := Magnitude(i, 10, width);
    if i < 0 {
      MinusRead(t, m);
    } else if i > 0 {
      NoZeroInMagnitude(i, width);
      DecimalBack(t, m);
      UnsignedRead(t, m);
    } else {
      ZeroMagnitude(width);
      ZeroInFront(t, "");
      EmptyBits(t);
    }
  }

  lemma MinusRead(t: Integer, m: string)
    requires t.bits >= 1
    ensures ValueOf(t, "-" + m, 0) == SignedValue(t, "-" + m, 10)
  {
    hide SignedValue;
    var s := "-" + m;
    assert s[0] == '-' && DigitRun(s) == 0;
  }

  lemma UnsignedRead(t: Integer, m: string)
    requires t.bits >= 1 && m != "" && IsDigit(m[0])
    ensures SignedValue(t, m, 10) == DigitsValue(t, m, 10, false)
  {
    hide DigitsValue;
  }

  lemma NoZeroInMagnitude(i: nat, width: nat)
    requires i > 0 && width <= Length(i, 10)
    ensures Magnitude(i, 10, width) != "" && Magnitude(i, 10, width)[0] != '0'
    ensures IsDigit(Magnitude(i, 10, width)[0])
  {
    NoZeroInFront(i, 10);
    MagnitudeNumber(i, 10, width);
    hide DigitsOf, Number, AllDigits, Pow;
    assert Magnitude(i, 10, width)[0] in Magnitude(i, 10, width);
  }

  lemma ZeroMagnitude(width: nat)
    requires width <= Length(0, 10)
    ensures Magnitude(0, 10, width) == ['0'] + ""
  {
    assert DigitsOf(0, 10, 1) == "0";
  }

  lemma EmptyBits(t: Integer)
    requires t.bits >= 1
    ensures BitsValue(t, "", 3) == Ok(0)
  {
  }

  /** Written by default and read back with the radix left to the text: exactly which integers survive. */
  lemma RoundTrip(t: Integer, i: int, radix: nat, width: nat)
    requires t.bits >= 8 && InRange(t, i) && Digits.Radix(radix)
    ensures var r := ImageOf(t, i, radix, CStyleOrHash, width);
            r.Ok? && (ValueOf(t, r.value, 0) == Ok(i) <==> Survives(t, i, radix, width))
  {
    hide ValueOf;
    match StyleOf(CStyleOrHash, radix)
    case Bits(_) => BitRoundTrip(t, i, radix, CStyleOrHash, width);
    case Hashed => HashRoundTrip(t, i, radix, CStyleOrHash, width);
    case Plain =>
      if i < 0 || width <= Length(Abs(i), 10) {
        PlainBack(t, i, width);
      } else {
        PaddedBack(t, i, width);
      }
  }

  lemma ThreeDigits()
    ensures Magnitude(10, 10, 3) == "010"
    ensures AllDigits("10", 8) && Number("10", 8) == 8
  {
    assert Div(10, 10) == 1 && Mod(10, 10) == 0 && Div(1, 10) == 0 && Mod(1, 10) == 1 && Div(0, 10) == 0
           && Mod(0, 10) == 0;
    hide Div, Mod;
    assert Length(1, 10) == 1 && Length(10, 10) == 2;
    assert DigitsOf(0, 10, 0) == "";
    assert DigitsOf(0, 10, 1) == "0" && DigitsOf(1, 10, 2) == "01" && DigitsOf(10, 10, 3) == "010";
    assert "10"[..1] == "1" && "1"[..0] == "";
    assert Number("", 8) == 0 && Number("1", 8) == 1;
  }

  /** Ten written with three digits is read back as eight. */
  lemma PaddedTen(t: Integer)
    requires t.bits >= 8 && InRange(t, 10)
    ensures ImageOf(t, 10, 10, CStyleOrHash, 3) == Ok("010") && ValueOf(t, "010", 0) == Ok(8)
  {
    ThreeDigits();
    WrapInRange(t, 8);
    GroupRadix(3);
    assert Pow(2, 5) == 32 by { assert Pow(2, 4) == 16; }
    hide Number, Pow, Wrap, AllDigits, DigitsOf, Length;
    assert "010"[1..] == "10";
  }

  /** With no padding asked for, every integer survives. */
  lemma RoundTripUnpadded(t: Integer, i: int, radix: nat)
    requires t.bits >= 8 && InRange(t, i) && Digits.Radix(radix)
    ensures var r := ImageOf(t, i, radix, CStyleOrHash, 0); r.Ok? && ValueOf(t, r.value, 0) == Ok(i)
  {
    RoundTrip(t, i, radix, 0);
  }

  // ------------------------------------------------- the radix known to both

  /** The prefixes of C are looked for even where the radix is given. */
  predicate TakenForPrefix(s: string) {
    |s| > 1 && s[0] == '0' && Lower(s[1]) in {'x', 'b'}
  }

  lemma {:induction false} PowBase(b: nat, c: nat, n: nat)
    requires 0 < b <= c
    ensures Pow(b, n) <= Pow(c, n)
  {
    if n > 0 {
      PowBase(b, c, n - 1);
      var p: int, q: int := Pow(b, n - 1), Pow(c, n - 1);
      MulNonNegative(q - p, b);
      Distribute(q, -p, b);
      MulNonNegative(q, c - b);
      Commute(q, c - b);
      Distribute(c, -(b as int), q);
      Commute(c, q);
      Commute(b, q);
    }
  }

  /** What is misread is too small. */
  lemma Misread(t: Integer, i: nat, radix: nat, rest: string, k: nat)
    requires t.bits >= 8 && InRange(t, i) && Digits.Radix(radix) && k in {1, 4} && Pow(2, k) <= radix
    requires Pow(radix, |rest|) <= i
    ensures BitsValue(t, rest, k) != Ok(i)
  {
    hide Wrap, Pow, Number, InRange;
    GroupRadix(k);
    if AllDigits(rest, Pow(2, k)) {
      var n, v := k * |rest|, Number(rest, Pow(2, k));
      NumberBound(rest, Pow(2, k));
      PowMul(2, k, |rest|);
      PowBase(Pow(2, k), radix, |rest|);
      if t.signed && 0 < n < t.bits && v >= Pow(2, n - 1) {
        ExtendedNegative(t, v, n);
      } else {
        SmallerInRange(t, v, i);
      }
    }
  }

  /** A letter behind a 0 in front makes a number at least that many powers of the radix. */
  lemma BehindPrefix(i: nat, radix: nat, s: string)
    requires Digits.Radix(radix) && |s| > 1 && AllDigits(s, radix) && Number(s, radix) == i
    requires s[0] == '0' && FromChar(s[1]) > 0
    ensures Pow(radix, |s[2..]|) <= i
  {
    OneDigit('0', radix);
    OneDigit(s[1], radix);
    hide Number, Pow;
    NumberConcat(['0'], [s[1]], radix);
    assert s == (['0'] + [s[1]]) + s[2..];
    NumberConcat(['0'] + [s[1]], s[2..], radix);
    var d, p := FromChar(s[1]), Pow(radix, |s[2..]|);
    MulNonNegative(d - 1, p);
    Distribute(d, -1, p);
  }

  lemma NoHash(s: string)
    requires forall i :: 0 <= i < |s| ==> s[i] != '#'
    ensures DigitRun(s) < |s| ==> s[DigitRun(s)] != '#'
  {
  }

  lemma LetterPrefix(s: string, radix: nat)
    requires TakenForPrefix(s) && Digits.Radix(radix) && AllDigits(s, radix)
    ensures FromChar(s[1]) > 0
    ensures Lower(s[1]) == 'x' ==> radix >= 34
  {
  }

  /** Digits alone, read in the radix they were written in: exactly those survive that do not look like a prefix. */
  lemma GivenRadixRoundTrip(t: Integer, i: int, radix: nat, width: nat)
    requires t.bits >= 8 && InRange(t, i) && Digits.Radix(radix)
    ensures var s := SignMagnitude(i, radix, width);
            ValueOf(t, s, radix) == Ok(i) <==> !TakenForPrefix(s)
  {
    hide Number, Pow, Wrap, InRange, BitsValue, SignedValue, Magnitude, DigitRun, AllDigits;
    var s := SignMagnitude(i, radix, width);
    MagnitudeNumber(i, radix, width);
    SignedBack(t, i, radix, width);
    if TakenForPrefix(s) {
      LetterPrefix(s, radix);
      BehindPrefix(i, radix, s);
      GroupRadix(1);
      Misread(t, i, radix, s[2..], if Lower(s[1]) == 'x' then 4 else 1);
    } else {
      forall j | 0 <= j < |s|
        ensures s[j] != '#'
      {
        if i >= 0 {
          assert s[j] in Magnitude(i, radix, width);
        } else if j > 0 {
          assert s[j] == Magnitude(i, radix, width)[j - 1];
          assert s[j] in Magnitude(i, radix, width);
        }
      }
      NoHash(s);
    }
  }

  lemma TwoDigits()
    ensures Magnitude(11, 16, 2) == "0b" && AllDigits("0b", 16)
  {
    assert Div(11, 16) == 0 && Mod(11, 16) == 11 && Mod(0, 16) == 0;
    hide Div, Mod;
    assert Length(11, 16) == 1;
    assert DigitsOf(0, 16, 0) == "" && DigitsOf(0, 16, 1) == "0" && DigitsOf(11, 16, 2) == "0b";
  }

  /** Eleven written with two hexadecimal digits is read back as nothing behind the prefix of bits. */
  lemma PaddedEleven(t: Integer)
    requires t.bits >= 8 && InRange(t, 11)
    ensures SignMagnitude(11, 16, 2) == "0b" && ValueOf(t, "0b", 16) == Ok(0)
  {
    TwoDigits();
    WrapInRange(t, 0);
    GroupRadix(1);
    hide Pow, Wrap, DigitsOf, Length;
    assert "0b"[2..] == "";
  }
}
