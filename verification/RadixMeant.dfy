/**
 What integers look like as text, digit by digit: the alphabet, the worth of the
 digits, the prefixes and signs. Nothing here is said by means of the functions of
 `Radix` that write and read them.
 */
module RadixMeant {
  import opened Digits
  import opened Radix
  import opened RadixFacts

  const ALPHABET: string := "0123456789abcdefghijklmnopqrstuvwxyz"
  const CAPITALS: string := "0123456789ABCDEFGHIJKLMNOPQRSTUVWXYZ"

  /** A digit, as a small or a capital letter if it is one. */
  datatype Digit = Digit(d: nat, capital: bool)

  predicate AllBelow(ds: seq<Digit>, b: nat) {
    forall i :: 0 <= i < |ds| ==> ds[i].d < b
  }

  function Glyph(d: Digit): char
    requires d.d < 36
  {
    if d.capital then CAPITALS[d.d] else ALPHABET[d.d]
  }

  function Spelled(ds: seq<Digit>): (s: string)
    requires AllBelow(ds, 36)
    ensures |s| == |ds|
  {
    seq(|ds|, i requires 0 <= i < |ds| => Glyph(ds[i]))
  }

  function Power(b: nat, n: nat): nat {
    if n == 0 then 1 else b * Power(b, n - 1)
  }

  /** The number that digits stand for, the first one counting most. */
  function Worth(ds: seq<Digit>, b: nat): nat {
    if ds == [] then 0 else ds[0].d * Power(b, |ds| - 1) + Worth(ds[1..], b)
  }

  /** v is n in a type of the machine, wrapped around. */
  ghost predicate Wrapped(t: Integer, v: int, n: int)
    requires t.bits >= 1
  {
    && (if t.signed then -(Power(2, t.bits - 1) as int) <= v < Power(2, t.bits - 1) else 0 <= v < Power(2, t.bits))
    && exists k: int :: v == n + k * Power(2, t.bits)
  }

  // ---------------------------------------------------------------- the digits

  lemma SmallLetters(d: nat)
    requires d < 36
    ensures ALPHABET[d] == ToChar(d) && FromChar(ALPHABET[d]) == d
  {
  }

  lemma CapitalLetters(d: nat)
    requires d < 36
    ensures FromChar(CAPITALS[d]) == d
  {
  }

  /** The digits are those of the alphabet, in either case. */
  lemma Alphabet(d: nat)
    requires d < 36
    ensures ToChar(d) == ALPHABET[d] && FromChar(ALPHABET[d]) == FromChar(CAPITALS[d]) == d
  {
    SmallLetters(d);
    CapitalLetters(d);
  }

  /** No other character is a digit. */
  lemma OtherCharacters(c: char)
    ensures FromChar(c) == -1 <==> c !in ALPHABET && c !in CAPITALS
  {
    hide ALPHABET, CAPITALS;
    var d := FromChar(c);
    TwoCases(c);
    if c in ALPHABET {
      var i: nat :| i < |ALPHABET| && ALPHABET[i] == c;
      Alphabet(i);
    }
    if c in CAPITALS {
      var i: nat :| i < |CAPITALS| && CAPITALS[i] == c;
      Alphabet(i);
    }
  }

  lemma TwoCases(c: char)
    ensures |ALPHABET| == |CAPITALS| == 36
    ensures var d := FromChar(c);
            d >= 0 ==> c == ALPHABET[d] || c == CAPITALS[d]
  {
    if 'A' <= c <= 'Z' {
      CapitalIs(c as int - 'A' as int);
    } else if FromChar(c) >= 0 {
      SmallIs(FromChar(c));
    }
    hide ALPHABET, CAPITALS;
  }

  lemma SmallIs(d: nat)
    requires d < 36
    ensures |ALPHABET| == |CAPITALS| == 36
    ensures ALPHABET[d] == if d < 10 then '0' + d as char else 'a' + (d - 10) as char
  {
  }

  lemma CapitalIs(k: nat)
    requires k < 26
    ensures |ALPHABET| == |CAPITALS| == 36 && CAPITALS[k + 10] == 'A' + k as char
  {
  }

  lemma {:induction false} PowerIs(b: nat, n: nat)
    requires b > 0
    ensures Power(b, n) == Pow(b, n)
  {
    if n > 0 {
      PowerIs(b, n - 1);
      Commute(b, Pow(b, n - 1));
    }
  }

  lemma SpelledDigits(ds: seq<Digit>, b: nat)
    requires Digits.Radix(b) && AllBelow(ds, b)
    ensures AllBelow(ds, 36) && AllDigits(Spelled(ds), b)
    ensures forall i :: 0 <= i < |ds| ==> FromChar(Spelled(ds)[i]) == ds[i].d
  {
    hide FromChar, ToChar;
    forall i | 0 <= i < |ds|
      ensures FromChar(Spelled(ds)[i]) == ds[i].d
    {
      Alphabet(ds[i].d);
    }
  }

  /** Digits spelled out count what they are worth. */
  lemma {:induction false} NumberWorth(ds: seq<Digit>, b: nat)
    requires Digits.Radix(b) && AllBelow(ds, b)
    ensures AllBelow(ds, 36) && AllDigits(Spelled(ds), b) && Number(Spelled(ds), b) == Worth(ds, b)
    decreases |ds|
  {
    hide AllDigits, FromChar;
    SpelledDigits(ds, b);
    if ds != [] {
      var head, tail := ds[..1], ds[1..];
      SpelledInTwo(ds, b);
      hide Spelled, AllBelow;
      NumberWorth(tail, b);
      SpelledDigits(head, b);
      NumberConcat(Spelled(head), Spelled(tail), b);
      PowerIs(b, |tail|);
      OneNumber(Spelled(head), b);
    }
  }

  lemma SpelledInTwo(ds: seq<Digit>, b: nat)
    requires ds != [] && AllBelow(ds, b) && b <= 36
    ensures AllBelow(ds[..1], b) && AllBelow(ds[1..], b) && AllBelow(ds[..1], 36) && AllBelow(ds[1..], 36)
    ensures AllBelow(ds, 36) && Spelled(ds) == Spelled(ds[..1]) + Spelled(ds[1..])
  {
  }

  lemma OneNumber(s: string, b: nat)
    requires Digits.Radix(b) && AllDigits(s, b) && |s| == 1
    ensures Number(s, b) == FromChar(s[0])
  {
    assert s[..0] == "";
    assert Number(s[..0], b) == 0;
  }

  lemma WrapWrapped(t: Integer, n: int)
    requires t.bits >= 1
    ensures Wrapped(t, Wrap(t, n), n)
  {
    PowerIs(2, t.bits);
    PowerIs(2, t.bits - 1);
    var k := WrapIs(t, n);
  }

  lemma WrappedOnce(t: Integer, v: int, n: int)
    requires t.bits >= 1 && Wrapped(t, v, n)
    ensures v == Wrap(t, n)
  {
    PowerIs(2, t.bits);
    PowerIs(2, t.bits - 1);
    var k: int :| v == n + k * Power(2, t.bits);
    WrapShift(t, n, k);
    WrapInRange(t, v);
  }

  // ------------------------------------------------------------ what is read

  predicate Sign(sign: string) {
    sign == "" || sign == "-" || sign == "+"
  }

  function Signed(sign: string, n: nat): int {
    if sign == "-" then 0 - n else n
  }

  /** The radix in force: ten if there is no other. */
  function InForce(radix: nat): nat {
    if radix == 0 then 10 else radix
  }

  /** The digits cannot be taken for a prefix: `0x`, `0b`, or any 0 if the radix is left to the text. */
  predicate NoPrefix(ds: seq<Digit>, radix: nat) {
    ds != [] && ds[0].d == 0 ==> radix != 0 && (|ds| > 1 ==> ds[1].d != 11 && ds[1].d != 33)
  }

  lemma SignedValueIs(t: Integer, sign: string, m: string, b: nat)
    requires t.bits >= 1 && Sign(sign) && Digits.Radix(b) && AllDigits(m, b) && (m != "" ==> m[0] !in {'-', '+'})
    ensures SignedValue(t, sign + m, b)
         == if sign == "-" && !t.signed then Err(InvalidSign) else Ok(Wrap(t, Signed(sign, Number(m, b))))
  {
    hide Number, AllDigits, Wrap;
    var s := sign + m;
    if sign == "" {
      assert s == m;
    } else {
      assert s[0] == sign[0] && s[1..] == m;
    }
  }

  lemma SignedDigitsRead(t: Integer, sign: string, ds: seq<Digit>, b: nat)
    requires t.bits >= 1 && Sign(sign) && Digits.Radix(b) && AllBelow(ds, b)
    ensures AllBelow(ds, 36)
    ensures var r := SignedValue(t, sign + Spelled(ds), b);
            if sign == "-" && !t.signed then r == Err(InvalidSign)
            else r.Ok? && Wrapped(t, r.value, Signed(sign, Worth(ds, b)))
  {
    hide *;
    NumberWorth(ds, b);
    WrapWrapped(t, Signed(sign, Worth(ds, b)));
    DigitsNoSigns(ds);
    SignedValueIs(t, sign, Spelled(ds), b);
  }

  lemma DigitsNoSigns(ds: seq<Digit>)
    requires AllBelow(ds, 36)
    ensures forall i :: 0 <= i < |ds| ==> Spelled(ds)[i] !in {'-', '+', '#'}
    ensures forall i :: 0 <= i < |ds| ==> (Spelled(ds)[i] == '0' <==> ds[i].d == 0)
    ensures forall i :: 0 <= i < |ds| ==> (Lower(Spelled(ds)[i]) == 'x' <==> ds[i].d == 33)
    ensures forall i :: 0 <= i < |ds| ==> (Lower(Spelled(ds)[i]) == 'b' <==> ds[i].d == 11)
  {
    SpelledDigits(ds, 36);
    hide Spelled, AllDigits, AllBelow;
    forall i | 0 <= i < |ds|
      ensures var c := Spelled(ds)[i];
              && c !in {'-', '+', '#'} && (c == '0' <==> ds[i].d == 0)
              && (Lower(c) == 'x' <==> ds[i].d == 33) && (Lower(c) == 'b' <==> ds[i].d == 11)
    {
      assert FromChar(Spelled(ds)[i]) == ds[i].d >= 0;
    }
  }

  /** Digits behind an optional sign count what they are worth, in the given radix or in ten. */
  lemma PlainRead(t: Integer, sign: string, ds: seq<Digit>, radix: nat)
    requires t.bits >= 1 && Sign(sign) && (radix == 0 || Digits.Radix(radix)) && AllBelow(ds, InForce(radix))
    requires sign == "" ==> NoPrefix(ds, radix)
    ensures AllBelow(ds, 36)
    ensures var r := ValueOf(t, sign + Spelled(ds), radix);
            if sign == "-" && !t.signed then r == Err(InvalidSign)
            else r.Ok? && Wrapped(t, r.value, Signed(sign, Worth(ds, InForce(radix))))
  {
    SignedDigitsRead(t, sign, ds, InForce(radix));
    DigitsNoSigns(ds);
    var s := sign + Spelled(ds);
    assert forall i :: 0 <= i < |ds| ==> s[i + |sign|] == Spelled(ds)[i];
    hide SignedValue, Wrapped, Spelled, Worth, DigitRun, Lower;
    forall j | 0 <= j < |s|
      ensures s[j] != '#'
    {
      assert j < |sign| || s[j] == Spelled(ds)[j - |sign|];
    }
    NoHash(s);
    if sign == "" && |s| > 0 {
      assert s[0] == Spelled(ds)[0];
      if |s| > 1 {
        assert s[1] == Spelled(ds)[1];
      }
    }
  }

  /** What digits of k bits each mean: the sign is that of the bit in front. */
  function BitWorth(t: Integer, ds: seq<Digit>, k: nat): int {
    var m, w := k * |ds|, Worth(ds, Power(2, k));
    if t.signed && 0 < m < t.bits && 2 * w >= Power(2, m) then w - Power(2, m) else w
  }

  lemma BitsValueIs(t: Integer, m: string, k: nat, w: nat)
    requires t.bits >= 1 && k in {1, 3, 4} && Digits.Radix(Pow(2, k)) && AllDigits(m, Pow(2, k))
    requires w == Number(m, Pow(2, k))
    ensures var n := k * |m|;
            BitsValue(t, m, k)
            == Ok(Wrap(t, if t.signed && 0 < n < t.bits && w >= Pow(2, n - 1) then w - Pow(2, n) else w))
  {
    hide Number, Wrap, AllDigits;
  }

  /** The bit in front is set exactly if the number is at least half of what there is room for. */
  lemma HalfPower(n: nat, w: nat)
    requires n > 0
    ensures Power(2, n) == Pow(2, n) && (w >= Pow(2, n - 1) <==> 2 * w >= Power(2, n))
  {
    PowerIs(2, n);
    assert Pow(2, n) == Pow(2, n - 1) * 2;
  }

  lemma BitWorthIs(t: Integer, ds: seq<Digit>, k: nat, w: nat)
    requires w == Worth(ds, Power(2, k))
    ensures var n := k * |ds|;
            BitWorth(t, ds, k) == if t.signed && 0 < n < t.bits && w >= Pow(2, n - 1) then w - Pow(2, n) else w
  {
    if k * |ds| > 0 {
      HalfPower(k * |ds|, w);
    }
  }

  lemma BitsRead(t: Integer, ds: seq<Digit>, k: nat)
    requires t.bits >= 1 && k in {1, 3, 4} && AllBelow(ds, Power(2, k))
    ensures AllBelow(ds, 36)
    ensures var r := BitsValue(t, Spelled(ds), k); r.Ok? && Wrapped(t, r.value, BitWorth(t, ds, k))
  {
    hide *;
    GroupRadix(k);
    PowerIs(2, k);
    NumberWorth(ds, Power(2, k));
    BitWorthIs(t, ds, k, Worth(ds, Power(2, k)));
    BitsValueIs(t, Spelled(ds), k, Worth(ds, Power(2, k)));
    WrapWrapped(t, BitWorth(t, ds, k));
  }

  lemma PrefixFound(t: Integer, s: string, m: string, prefix: string, radix: nat)
    requires t.bits >= 1 && (radix == 0 || Digits.Radix(radix)) && prefix in {"0x", "0X", "0b", "0B", "0"}
    requires s == prefix + m && (prefix == "0" ==> radix == 0 && (m != "" ==> Lower(m[0]) !in {'x', 'b'}))
    ensures ValueOf(t, s, radix) == BitsValue(t, m, BitsOf(prefix))
  {
    hide BitsValue;
    assert s[|prefix|..] == m && s[0] == '0';
    if prefix == "0" {
      assert |s| > 1 ==> s[1] == m[0];
    } else {
      assert s[1] == prefix[1];
    }
  }

  /** How many bits a digit behind the prefix stands for. */
  function BitsOf(prefix: string): (k: nat)
    ensures k in {1, 3, 4}
  {
    if prefix == "0x" || prefix == "0X" then 4 else if prefix == "0" then 3 else 1
  }

  /** `0x`, `0b`, and 0 for octal if the radix is left to the text, in front of a bit pattern. */
  lemma PrefixRead(t: Integer, prefix: string, ds: seq<Digit>, radix: nat)
    requires t.bits >= 1 && (radix == 0 || Digits.Radix(radix)) && prefix in {"0x", "0X", "0b", "0B", "0"}
    requires (prefix == "0" ==> radix == 0) && AllBelow(ds, Power(2, BitsOf(prefix)))
    ensures AllBelow(ds, 36)
    ensures var r := ValueOf(t, prefix + Spelled(ds), radix);
            r.Ok? && Wrapped(t, r.value, BitWorth(t, ds, BitsOf(prefix)))
  {
    var k := BitsOf(prefix);
    PowerIs(2, k);
    GroupRadix(k);
    BitsRead(t, ds, k);
    DigitsNoSigns(ds);
    hide BitsValue, Wrapped, Spelled, BitWorth, Power, ValueOf, Lower, Pow;
    if prefix == "0" && ds != [] {
      assert ds[0].d < 8;
    }
    PrefixFound(t, prefix + Spelled(ds), Spelled(ds), prefix, radix);
  }

  lemma {:induction false} RunOfSpelled(rs: seq<Digit>, rest: string)
    requires AllBelow(rs, 10) && (rest != "" ==> !IsDigit(rest[0]))
    ensures AllBelow(rs, 36) && DigitRun(Spelled(rs) + rest) == |rs|
    decreases |rs|
  {
    var s := Spelled(rs) + rest;
    if rs == [] {
      assert s == rest;
    } else {
      SpelledDigits(rs, 10);
      assert s[0] == Spelled(rs)[0];
      assert FromChar(s[0]) == rs[0].d < 10;
      SmallIsDigit(s[0]);
      assert s[1..] == Spelled(rs[1..]) + rest;
      RunOfSpelled(rs[1..], rest);
    }
  }

  lemma SmallIsDigit(c: char)
    requires 0 <= FromChar(c) < 10
    ensures IsDigit(c)
  {
  }

  /** A radix and a hash in front of the digits. */
  lemma HashRead(t: Integer, rs: seq<Digit>, sign: string, ds: seq<Digit>, radix: nat)
    requires t.bits >= 1 && Sign(sign) && (radix == 0 || Digits.Radix(radix))
    requires rs != [] && AllBelow(rs, 10) && rs[0].d != 0 && 2 <= Worth(rs, 10) <= 36 && AllBelow(ds, Worth(rs, 10))
    ensures AllBelow(rs, 36) && AllBelow(ds, 36)
    ensures var r := ValueOf(t, Spelled(rs) + ("#" + (sign + Spelled(ds))), radix);
            if sign == "-" && !t.signed then r == Err(InvalidSign)
            else r.Ok? && Wrapped(t, r.value, Signed(sign, Worth(ds, Worth(rs, 10))))
  {
    hide *;
    var b := Worth(rs, 10);
    RadixDigits(rs, ds, b);
    NoSign(b);
    var rest := sign + Spelled(ds);
    var s := Spelled(rs) + ("#" + rest);
    SignedDigitsRead(t, sign, ds, b);
    RunOfSpelled(rs, "#" + rest);
    DigitsNoSigns(rs);
    assert s[..|rs|] == Spelled(rs) && s[|rs|] == '#' && s[|rs| + 1..] == rest && s[0] == Spelled(rs)[0];
    assert "" + Spelled(rs) == Spelled(rs);
    PlainRead(UINT, "", rs, 0);
    SmallWrapped(b, ValueOf(UINT, Spelled(rs), 0).value);
    HashFound(t, s, |rs|, radix, b);
  }

  lemma NoSign(n: nat)
    ensures Signed("", n) == n && Sign("") && UINT.bits == 32
  {
  }

  lemma RadixDigits(rs: seq<Digit>, ds: seq<Digit>, b: nat)
    requires rs != [] && AllBelow(rs, 10) && rs[0].d != 0 && 2 <= b <= 36 && AllBelow(ds, b)
    ensures AllBelow(rs, 36) && AllBelow(ds, 36) && Digits.Radix(b)
    ensures AllBelow(rs, InForce(0)) && NoPrefix(rs, 0) && !IsDigit('#') && InForce(0) == 10
  {
  }

  lemma HashFound(t: Integer, s: string, j: nat, radix: nat, b: nat)
    requires t.bits >= 1 && (radix == 0 || Digits.Radix(radix)) && Digits.Radix(b)
    requires 0 < j < |s| && DigitRun(s) == j && s[j] == '#' && s[0] != '0' && ValueOf(UINT, s[..j], 0) == Ok(b)
    ensures ValueOf(t, s, radix) == SignedValue(t, s[j + 1..], b)
  {
    hide SignedValue, BitsValue, DigitRun;
  }

  lemma SmallWrapped(n: nat, v: int)
    requires n <= 36 && Wrapped(UINT, v, n)
    ensures v == n
  {
    WrappedOnce(UINT, v, n);
    assert InRange(UINT, n) by { PowMonotone(2, 6, 32); assert Pow(2, 6) == 64 by { assert Pow(2, 4) == 16; } }
    WrapInRange(UINT, n);
  }

  /** A character that is no digit of the radix is refused. */
  lemma NoDigitRead(t: Integer, sign: string, s: string, radix: nat, i: nat)
    requires t.bits >= 1 && Sign(sign) && (radix == 0 || Digits.Radix(radix))
    requires sign == "" ==> s != "" && s[0] !in {'-', '+', '0'}
    requires (forall j :: 0 <= j < |s| ==> s[j] != '#') && i < |s|
    requires s[i] !in ALPHABET[..InForce(radix)] && s[i] !in CAPITALS[..InForce(radix)]
    ensures var r := ValueOf(t, sign + s, radix);
            r == if sign == "-" && !t.signed then Err(InvalidSign) else Err(InvalidDigit)
  {
    var b, all := InForce(radix), sign + s;
    NotBelow(s[i], b);
    hide ALPHABET, CAPITALS;
    assert forall j :: 0 <= j < |s| ==> all[j + |sign|] == s[j];
    forall j | 0 <= j < |all|
      ensures all[j] != '#'
    {
      assert j < |sign| || all[j] == s[j - |sign|];
    }
    NoHash(all);
    assert all[|sign|..] == s;
    hide Wrap, Number, DigitRun, FromChar, Lower;
  }

  lemma BelowIn(c: char, b: nat)
    requires 0 <= FromChar(c) < b <= 36
    ensures c in ALPHABET[..b] || c in CAPITALS[..b]
  {
    TwoCases(c);
    hide ALPHABET, CAPITALS, FromChar;
    var d := FromChar(c);
    assert ALPHABET[..b][d] == ALPHABET[d] && CAPITALS[..b][d] == CAPITALS[d];
  }

  lemma NotBelow(c: char, b: nat)
    requires b <= 36 && c !in ALPHABET[..b] && c !in CAPITALS[..b]
    ensures !(0 <= FromChar(c) < b)
  {
    hide *;
    if 0 <= FromChar(c) < b {
      BelowIn(c, b);
    }
  }

  // --------------------------------------------------------- what is written

  /** Digits as they are written: small letters, and no 0 in front that the width does not ask for. */
  predicate Least(ds: seq<Digit>, b: nat, width: nat) {
    && AllBelow(ds, b) && (forall i :: 0 <= i < |ds| ==> !ds[i].capital)
    && |ds| >= 1 && |ds| >= width && (|ds| > 1 && |ds| > width ==> ds[0].d != 0)
  }

  /** The last n digits of u, written. */
  lemma {:induction false} DigitsWritten(u: nat, b: nat, n: nat) returns (ds: seq<Digit>)
    requires Digits.Radix(b) && u < Pow(b, n)
    ensures |ds| == n && AllBelow(ds, b) && AllBelow(ds, 36) && (forall i :: 0 <= i < |ds| ==> !ds[i].capital)
    ensures DigitsOf(u, b, n) == Spelled(ds) && Worth(ds, b) == u
    ensures n > 0 ==> (ds[0].d == 0 <==> u < Pow(b, n - 1))
  {
    ds := SomeDigits(u, b, n);
    WholeNumber(u, b, n);
    NumberWorth(ds, b);
    if n > 0 {
      FrontDigit(u, b, n - 1);
      DigitsNoSigns(ds);
    }
  }

  lemma {:induction false} SomeDigits(u: nat, b: nat, n: nat) returns (ds: seq<Digit>)
    requires Digits.Radix(b)
    ensures |ds| == n && AllBelow(ds, b) && AllBelow(ds, 36) && (forall i :: 0 <= i < |ds| ==> !ds[i].capital)
    ensures DigitsOf(u, b, n) == Spelled(ds)
    decreases n
  {
    if n == 0 {
      ds := [];
    } else {
      var front := SomeDigits(Div(u, b), b, n - 1);
      var last := Digit(Mod(u, b), false);
      Alphabet(last.d);
      ds := front + [last];
      assert Spelled(ds) == Spelled(front) + [Glyph(last)];
    }
  }

  lemma LeastDigits(u: nat, b: nat, width: nat) returns (ds: seq<Digit>)
    requires Digits.Radix(b)
    ensures Least(ds, b, width) && Worth(ds, b) == u && AllBelow(ds, 36)
    ensures DigitsOf(u, b, Max(width, Length(u, b))) == Spelled(ds)
  {
    var n := Max(width, Length(u, b));
    LengthLeast(u, b, n);
    ds := DigitsWritten(u, b, n);
    if n > 1 && n > width {
      LengthLeast(u, b, n - 1);
    }
  }

  /** The text of a number by its sign and digits, in any radix. */
  lemma PlainWritten(i: int, radix: nat, width: nat) returns (ds: seq<Digit>)
    requires Digits.Radix(radix)
    ensures Least(ds, radix, width) && AllBelow(ds, 36) && Signed(if i < 0 then "-" else "", Worth(ds, radix)) == i
    ensures SignMagnitude(i, radix, width) == (if i < 0 then "-" else "") + Spelled(ds)
  {
    ds := LeastDigits(Abs(i), radix, width);
    assert "" + Spelled(ds) == Spelled(ds);
  }

  /** By default no bits are shown for a radix that C has no prefix for. */
  predicate ShowsBits(display: Display, radix: nat) {
    (display == CStyle || display == CStyleOrHash) && (radix == 2 || radix == 8 || radix == 16)
  }

  predicate ShowsHash(display: Display, radix: nat) {
    || display == HashStyleAll
    || (radix != 10 && (display == HashStyle || display == CStyleOrHash) && !ShowsBits(display, radix))
  }

  /** The text of an integer that is shown by sign and digits. */
  lemma DigitsShown(t: Integer, i: int, radix: nat, display: Display, width: nat)
    returns (rs: seq<Digit>, ds: seq<Digit>)
    requires Digits.Radix(radix) && !ShowsBits(display, radix)
    ensures Least(ds, radix, width) && AllBelow(ds, 36) && Signed(if i < 0 then "-" else "", Worth(ds, radix)) == i
    ensures Least(rs, 10, 0) && AllBelow(rs, 36) && Worth(rs, 10) == radix
    ensures var text := (if i < 0 then "-" else "") + Spelled(ds);
            ImageOf(t, i, radix, display, width)
            == Ok(if ShowsHash(display, radix) then Spelled(rs) + ("#" + text) else text)
  {
    ds := PlainWritten(i, radix, width);
    rs := LeastDigits(radix, 10, 0);
    hide SignMagnitude, Spelled, Worth, Least;
    var text := SignMagnitude(i, radix, width);
    assert (Spelled(rs) + "#") + text == Spelled(rs) + ("#" + text);
  }

  /** Room for the number in n digits of k bits, with one bit more, a 0 in front, if the type is signed. */
  predicate Fits(t: Integer, u: nat, k: nat, n: nat) {
    n > 0 && if t.signed then k * n > 1 && 2 * u < Power(2, k * n) else u < Power(2, k * n)
  }

  /** The text of an integer that is shown by its bits. */
  lemma BitsShown(t: Integer, i: int, radix: nat, display: Display, width: nat) returns (ds: seq<Digit>)
    requires t.bits >= 1 && InRange(t, i) && ShowsBits(display, radix)
    ensures var k := if radix == 2 then 1 else if radix == 8 then 3 else 4;
            var u := if i < 0 then i + Power(2, t.bits) else i;
            && AllBelow(ds, radix) && AllBelow(ds, 36) && (forall j :: 0 <= j < |ds| ==> !ds[j].capital)
            && Worth(ds, radix) == u && |ds| >= width && Fits(t, u, k, |ds|)
            && (|ds| > width ==> !Fits(t, u, k, |ds| - 1))
            && ImageOf(t, i, radix, display, width)
               == Ok((if radix == 2 then "0b" else if radix == 16 then "0x"
                      else if !t.signed && ds[0].d == 0 then "" else "0") + Spelled(ds))
  {
    hide *;
    var k := if radix == 2 then 1 else if radix == 8 then 3 else 4;
    var u := Pattern(t, i);
    var n := Max(width, CeilDiv(BitsNeeded(u, t.signed), k));
    BitsStyle(display, radix, k);
    PatternIs(t, i);
    BitsFit(u, t.signed, k, width);
    ds := DigitsWritten(u, radix, n);
    DigitsNoSigns(ds);
    EnoughBits(t, u, k, width, n);
    BitsImage(t, i, radix, display, width, k, ds);
  }

  lemma BitsStyle(display: Display, radix: nat, k: nat)
    requires ShowsBits(display, radix) && k == if radix == 2 then 1 else if radix == 8 then 3 else 4
    ensures StyleOf(display, radix) == Bits(k) && k in {1, 3, 4} && Pow(2, k) == radix && Digits.Radix(radix)
  {
    GroupRadix(k);
  }

  lemma EnoughBits(t: Integer, u: nat, k: nat, width: nat, n: nat)
    requires k in {1, 3, 4} && n == Max(width, CeilDiv(BitsNeeded(u, t.signed), k)) && n > 0
    ensures n >= width && Fits(t, u, k, n) && (n > width ==> !Fits(t, u, k, n - 1))
  {
    var need := BitsNeeded(u, t.signed);
    Enough(need, width, k);
    FitsIs(t, u, k, n);
    if n > width {
      OneLess(need, k, n);
      if n > 1 {
        FitsIs(t, u, k, n - 1);
      }
    }
  }

  lemma BitsImage(t: Integer, i: int, radix: nat, display: Display, width: nat, k: nat, ds: seq<Digit>)
    requires Digits.Radix(radix) && StyleOf(display, radix) == Bits(k) && Pow(2, k) == radix && AllBelow(ds, 36)
    requires ShowsBits(display, radix) && k == if radix == 2 then 1 else if radix == 8 then 3 else 4
    requires ds != [] && (Spelled(ds)[0] == '0' <==> ds[0].d == 0)
    requires DigitsOf(Pattern(t, i), radix, Max(width, CeilDiv(BitsNeeded(Pattern(t, i), t.signed), k))) == Spelled(ds)
    ensures ImageOf(t, i, radix, display, width)
         == Ok((if radix == 2 then "0b" else if radix == 16 then "0x"
                else if !t.signed && ds[0].d == 0 then "" else "0") + Spelled(ds))
  {
    hide Pattern, CeilDiv, BitsNeeded, DigitsOf, Spelled, StyleOf, Pow;
    assert BitDigits(t, i, k, width) == Spelled(ds);
    assert "" + Spelled(ds) == Spelled(ds);
  }

  lemma PatternIs(t: Integer, i: int)
    requires t.bits >= 1 && InRange(t, i)
    ensures Pattern(t, i) == if i < 0 then i + Power(2, t.bits) else i
  {
    PowerIs(2, t.bits);
    PowMonotone(2, t.bits - 1, t.bits);
    assert Pow(2, t.bits) == Pow(2, t.bits - 1) * 2;
    if i < 0 {
      DivIs(i, Pow(2, t.bits), -1, i + Pow(2, t.bits));
    } else {
      DivIs(i, Pow(2, t.bits), 0, i);
    }
  }

  lemma OneLess(need: nat, k: nat, n: nat)
    requires k in {1, 3, 4} && n == CeilDiv(need, k) && n > 0
    ensures k * (n - 1) < need <= k * n
  {
  }

  /** There is room exactly for the bits needed. */
  lemma FitsIs(t: Integer, u: nat, k: nat, n: nat)
    requires k in {1, 3, 4} && n > 0
    ensures Fits(t, u, k, n) <==> BitsNeeded(u, t.signed) <= k * n
  {
    var m := k * n;
    PowerIs(2, m);
    LengthLeast(u, 2, m);
    if t.signed {
      assert Pow(2, m) == Pow(2, m - 1) * 2;
      if m > 1 {
        LengthLeast(u, 2, m - 1);
      } else {
        assert Pow(2, 0) == 1;
      }
    }
  }

  // ------------------------------------------------------------------ examples

  /** 252 is written and read with its own digits. */
  lemma Californium(t: Integer)
    requires t.bits >= 8 && InRange(t, 252)
    ensures ValueOf(t, "252", 0) == Ok(252) && ImageOf(t, 252, 10, CStyleOrHash, 0) == Ok("252")
  {
    var ds := [Digit(2, false), Digit(5, false), Digit(2, false)];
    TwoFiveTwo(ds);
    TwoFiveTwoWorth(ds);
    hide *;
    PlainRead(t, "", ds, 0);
    WrappedOnce(t, ValueOf(t, "252", 0).value, 252);
    WrapInRange(t, 252);
    var rs, ws := DigitsShown(t, 252, 10, CStyleOrHash, 0);
    SameDigits(ws, ds);
  }

  lemma TwoFiveTwo(ds: seq<Digit>)
    requires ds == [Digit(2, false), Digit(5, false), Digit(2, false)]
    ensures AllBelow(ds, 36) && Spelled(ds) == "252" && "" + "252" == "252"
    ensures AllBelow(ds, InForce(0)) && InForce(0) == 10 && NoPrefix(ds, 0) && Sign("") && Signed("", 252) == 252
    ensures Digits.Radix(10) && !ShowsBits(CStyleOrHash, 10) && !ShowsHash(CStyleOrHash, 10)
  {
  }

  lemma TwoFiveTwoWorth(ds: seq<Digit>)
    requires ds == [Digit(2, false), Digit(5, false), Digit(2, false)]
    ensures AllBelow(ds, 10) && Worth(ds, 10) == 252
  {
    assert Power(10, 1) == 10 && Power(10, 2) == 100;
    TopDigit(ds, 10);
    TopDigit(ds[1..], 10);
    TopDigit(ds[1..][1..], 10);
  }

  /** Digits that are written for 252 are those. */
  lemma SameDigits(ws: seq<Digit>, ds: seq<Digit>)
    requires Least(ws, 10, 0) && Worth(ws, 10) == 252 && ds == [Digit(2, false), Digit(5, false), Digit(2, false)]
    ensures ws == ds
  {
    TopDigit(ws, 10);
    assert Power(10, 1) == 10 && Power(10, 2) == 100 && Power(10, 3) == 1000;
    if |ws| > 3 {
      PowerGrows(10, 3, |ws| - 1);
    }
    if |ws| > 1 {
      TopDigit(ws[1..], 10);
      if |ws| > 2 {
        TopDigit(ws[1..][1..], 10);
      }
    }
  }

  /** So many digits are worth less than that power of the radix. */
  lemma {:induction false} WorthBelow(ds: seq<Digit>, b: nat)
    requires AllBelow(ds, b)
    ensures Worth(ds, b) < Power(b, |ds|)
  {
    if ds != [] {
      WorthBelow(ds[1..], b);
      Below(ds[0].d, Worth(ds[1..], b), b, Power(b, |ds| - 1));
    }
  }

  /** The worth of a number and that of its first digit. */
  lemma TopDigit(ds: seq<Digit>, b: nat)
    requires ds != [] && AllBelow(ds, b)
    ensures Worth(ds, b) == ds[0].d * Power(b, |ds| - 1) + Worth(ds[1..], b)
    ensures Worth(ds[1..], b) < Power(b, |ds| - 1)
    ensures ds[0].d > 0 ==> Worth(ds, b) >= Power(b, |ds| - 1)
  {
    hide Power;
    WorthBelow(ds[1..], b);
    if ds[0].d > 0 {
      MulNonNegative(ds[0].d - 1, Power(b, |ds| - 1));
      Distribute(ds[0].d, -1, Power(b, |ds| - 1));
    }
  }

  lemma {:induction false} PowerGrows(b: nat, m: nat, n: nat)
    requires b > 0 && m <= n
    ensures Power(b, m) <= Power(b, n)
  {
    PowerIs(b, m);
    PowerIs(b, n);
    PowMonotone(b, m, n);
  }

  /** Capital letters are digits, too, and eight bits that begin with 1 are negative. */
  lemma CapitalDigits()
    ensures ValueOf(Integer(32, true), "0xFF", 0) == Ok(-1)
  {
    var t, ds := Integer(32, true), [Digit(15, true), Digit(15, true)];
    assert ds[1..] == [ds[1]] && [ds[1]][1..] == [];
    assert Power(16, 1) == 16 && Power(2, 4) == 16 by { PowerIs(2, 4); GroupRadix(4); }
    assert Worth(ds, 16) == 255;
    assert Power(2, 8) == 256 by { assert Power(2, 7) == 128 by { assert Power(2, 5) == 32; } }
    assert Spelled(ds) == "FF" && "0x" + "FF" == "0xFF";
    PrefixRead(t, "0x", ds, 0);
    WrappedOnce(t, ValueOf(t, "0xFF", 0).value, -1);
    assert InRange(t, -1) by { PowMonotone(2, 0, 31); }
    WrapInRange(t, -1);
  }
}
