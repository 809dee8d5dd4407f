/**
 What the text of a JSON value means: every way of writing a value down that the
 reader's users know, with blanks, comments, words for keys, members in any order
 and repetition counts, is read as that value. Nothing here is said by means of
 the functions of `JsonText` that find it out.
 */
module JsonMeant {
  import opened Wrappers
  import opened Sequences
  import opened JsonText
  import opened JsonRoundTrip

  // ---------------------------------------------------------- ways of writing

  /** What may stand between values. */
  datatype Gap = Space(c: char) | LineComment(text: string) | BlockComment(text: string)

  /** A character of a string as it is, or the one behind a backslash. */
  datatype Piece = Plain(c: char) | Backslash(c: char)

  /** A hexadecimal digit. */
  datatype Nibble = Nibble(d: nat, upper: bool)

  datatype Spelled =
    | Word(text: string)                                          // null, true, false
    | Whole(sign: string, digits: seq<nat>)                       // 12, -12
    | Unsigned(digits: seq<nat>)                                  // 12u
    | Hexadecimal(nibbles: seq<Nibble>)                           // 0x1F
    | Floating(mantissa: string, exponent: Option<Exponent>, suffix: string)  // 1.5, 1e-3, 2d5, 1.5f
    | Quoted(pieces: seq<Piece>)                                  // "text"
    | Listed(gap: seq<Gap>, items: seq<Item>)                     // [1, 2:3]
    | Braced(gap: seq<Gap>, members: seq<Entry>)                  // { name: 1, "other" : 2 }

  datatype Exponent = Exponent(letter: char, power: string)

  /** An element, with its repetition count; comma or not, something stands behind all but the last. */
  datatype Item = Item(val: Spelled, count: Option<Repetition>, seps: seq<Sep>)

  datatype Repetition = Repetition(gap: seq<Gap>, digits: seq<nat>)

  datatype Sep = Comma | Between(gap: Gap)

  datatype Entry = Entry(key: string, quoted: bool, gap: seq<Gap>, inner: seq<Gap>, val: Spelled, seps: seq<Sep>)

  const DECIMALS: string := "0123456789"
  const LOWER: string := "0123456789abcdef"
  const UPPER: string := "0123456789ABCDEF"

  /** The characters behind a backslash, and what they stand for, in the same order. */
  const ESCAPES: string := "\"\\/bfnrt"
  const MEANINGS: string := "\"\\/\U{8}\U{C}\n\r\t"

  // ----------------------------------------------------------------- the text

  function GapText(gs: seq<Gap>): string {
    if gs == [] then "" else OneGap(gs[0]) + GapText(gs[1..])
  }

  function OneGap(g: Gap): string {
    match g
    case Space(c) => [c]
    case LineComment(text) => "//" + (text + "\n")
    case BlockComment(text) => "/*" + (text + "*/")
  }

  function OneSep(one: Sep): string {
    if one.Comma? then "," else OneGap(one.gap)
  }

  function SepText(ss: seq<Sep>): string {
    if ss == [] then "" else OneSep(ss[0]) + SepText(ss[1..])
  }

  function DecimalText(ds: seq<nat>): string
    requires Decimals(ds)
  {
    seq(|ds|, i requires 0 <= i < |ds| => DECIMALS[ds[i]])
  }

  function HexText(ns: seq<Nibble>): string
    requires Nibbles(ns)
  {
    seq(|ns|, i requires 0 <= i < |ns| => if ns[i].upper then UPPER[ns[i].d] else LOWER[ns[i].d])
  }

  function OnePiece(p: Piece): string {
    if p.Plain? then [p.c] else ['\\', p.c]
  }

  function PieceText(ps: seq<Piece>): string {
    if ps == [] then "" else OnePiece(ps[0]) + PieceText(ps[1..])
  }

  function ExponentText(e: Option<Exponent>): string {
    if e.None? then "" else [e.value.letter] + e.value.power
  }

  function TextOf(w: Spelled): string
    requires Good(w)
    decreases w
  {
    match w
    case Word(text) => text
    case Whole(sign, digits) => sign + DecimalText(digits)
    case Unsigned(digits) => DecimalText(digits) + "u"
    case Hexadecimal(nibbles) => "0x" + HexText(nibbles)
    case Floating(mantissa, exponent, suffix) => mantissa + (ExponentText(exponent) + suffix)
    case Quoted(pieces) => "\"" + (PieceText(pieces) + "\"")
    case Listed(gap, items) => "[" + (GapText(gap) + (ItemsText(items) + "]"))
    case Braced(gap, members) => "{" + (GapText(gap) + (EntriesText(members) + "}"))
  }

  function CountText(count: Option<Repetition>): string
    requires count.Some? ==> GoodDigits(count.value.digits)
  {
    if count.None? then "" else ":" + (GapText(count.value.gap) + DecimalText(count.value.digits))
  }

  function ItemsText(items: seq<Item>): string
    requires GoodItems(items)
    decreases items
  {
    if items == [] then ""
    else
      var it := items[0];
      assert GoodItem(it);
      TextOf(it.val) + (CountText(it.count) + (SepText(it.seps) + ItemsText(items[1..])))
  }

  function KeyText(m: Entry): string {
    if m.quoted then "\"" + (m.key + "\"") else m.key
  }

  function EntriesText(ms: seq<Entry>): string
    requires GoodEntries(ms)
    decreases ms
  {
    if ms == [] then ""
    else
      var m := ms[0];
      assert GoodEntry(m);
      KeyText(m) + (GapText(m.gap) + (":" + (GapText(m.inner)
                                             + (TextOf(m.val) + (SepText(m.seps) + EntriesText(ms[1..]))))))
  }

  // ------------------------------------------------------------ what is proper

  predicate GoodGap(g: Gap) {
    match g
    case Space(c) => SpaceChar(c)
    case LineComment(text) => '\n' !in text
    case BlockComment(text) =>
      (text != "" ==> text[0] != '/') && forall i :: 0 <= i < |text| - 1 ==> !(text[i] == '*' && text[i + 1] == '/')
  }

  predicate GoodGaps(gs: seq<Gap>) {
    forall i :: 0 <= i < |gs| ==> GoodGap(gs[i])
  }

  predicate GoodSeps(ss: seq<Sep>) {
    forall i :: 0 <= i < |ss| && ss[i].Between? ==> GoodGap(ss[i].gap)
  }

  predicate GoodDigits(ds: seq<nat>) {
    ds != [] && Decimals(ds)
  }

  predicate Decimals(ds: seq<nat>) {
    forall i :: 0 <= i < |ds| ==> ds[i] < 10
  }

  predicate Nibbles(ns: seq<Nibble>) {
    forall i :: 0 <= i < |ns| ==> ns[i].d < 16
  }

  /** Digits and signs. */
  predicate PowerChar(c: char) {
    '0' <= c <= '9' || c == '+' || c == '-'
  }

  predicate AllPower(s: string) {
    forall i :: 0 <= i < |s| ==> PowerChar(s[i])
  }

  predicate AllMantissa(s: string) {
    forall i :: 0 <= i < |s| ==> PowerChar(s[i]) || s[i] == '.'
  }

  predicate SpaceChar(c: char) {
    c == ' ' || c == '\n' || c == '\r' || c == '\t'
  }

  /** A character that means something else than part of a word. */
  predicate Special(c: char) {
    SpaceChar(c) || c == '/' || c == '}' || c == ',' || c == ':' || c == '"'
  }

  /** Words for keys. */
  predicate GoodWord(s: string) {
    s != "" && forall i :: 0 <= i < |s| ==> !Special(s[i])
  }

  predicate Good(w: Spelled)
    decreases w
  {
    match w
    case Word(text) => text in {"null", "true", "false"}
    case Whole(sign, digits) => sign in {"", "-", "+"} && GoodDigits(digits)
    case Unsigned(digits) => GoodDigits(digits)
    case Hexadecimal(nibbles) => Nibbles(nibbles)
    case Floating(mantissa, exponent, suffix) =>
      && mantissa != "" && AllMantissa(mantissa)
      && (exponent.Some? ==>
            exponent.value.letter in {'e', 'd'} && exponent.value.power != "" && AllPower(exponent.value.power))
      && (suffix == "" || suffix == "f" || (suffix == "d" && exponent.None?))
      && ('.' in mantissa || exponent.Some? || suffix != "")
    case Quoted(pieces) =>
      forall i :: 0 <= i < |pieces| ==> if pieces[i].Plain? then pieces[i].c !in "\"\\" else pieces[i].c in ESCAPES
    case Listed(gap, items) => GoodGaps(gap) && GoodItems(items)
    case Braced(gap, members) => GoodGaps(gap) && GoodEntries(members)
  }

  predicate GoodItem(it: Item)
    decreases it
  {
    && Good(it.val) && GoodSeps(it.seps)
    && (it.count.Some? ==> GoodGaps(it.count.value.gap) && GoodDigits(it.count.value.digits)
                           && Number(it.count.value.digits, 10) < 0x8000_0000)
  }

  predicate GoodItems(items: seq<Item>)
    decreases items
  {
    forall i :: 0 <= i < |items| ==> GoodItem(items[i]) && (i < |items| - 1 ==> items[i].seps != [])
  }

  predicate GoodKey(m: Entry) {
    && GoodGaps(m.gap)
    && if m.quoted then m.key != "" && forall c :: c in m.key ==> c !in "\"\\\0"
       else GoodWord(m.key) && (m.gap != [] ==> m.gap[0].Space?)
  }

  predicate GoodEntry(m: Entry)
    decreases m
  {
    GoodKey(m) && Good(m.val) && GoodGaps(m.inner) && GoodSeps(m.seps)
  }

  predicate GoodEntries(ms: seq<Entry>)
    decreases ms
  {
    forall i :: 0 <= i < |ms| ==> GoodEntry(ms[i]) && (i < |ms| - 1 ==> ms[i].seps != [])
  }

  // ------------------------------------------------------------- what is meant

  /** The number that digits stand for, the last one counting 1. */
  function Number(ds: seq<nat>, base: nat): nat {
    if ds == [] then 0 else Number(ds[..|ds| - 1], base) * base + ds[|ds| - 1]
  }

  function Signed(sign: string, n: nat): int {
    if sign == "-" then 0 - n else n
  }

  function Values(ns: seq<Nibble>): seq<nat> {
    seq(|ns|, i requires 0 <= i < |ns| => ns[i].d)
  }

  /** The string that the pieces stand for. */
  ghost predicate Stand(ps: seq<Piece>, t: string) {
    |t| == |ps| && forall i :: 0 <= i < |ps| ==> PieceIs(ps[i], t[i])
  }

  /** A piece stands for a character. */
  predicate PieceIs(p: Piece, c: char) {
    if p.Plain? then c == p.c
    else exists k :: 0 <= k < |ESCAPES| && ESCAPES[k] == p.c && MEANINGS[k] == c
  }

  /** How often an element stands in the list. */
  function CountOf(it: Item): nat {
    if it.count.None? then 1 else Number(it.count.value.digits, 10)
  }

  /** As many copies of each value as asked for. */
  function Repeated(vs: seq<Value>, items: seq<Item>): seq<Value>
    requires |vs| == |items|
  {
    if vs == [] then []
    else
      seq(CountOf(items[0]), _ => vs[0]) + Repeated(vs[1..], items[1..])
  }

  /** The last entry with a key. */
  predicate LastWith(ms: seq<Entry>, key: string, i: nat) {
    i < |ms| && ms[i].key == key && forall j :: i < j < |ms| ==> ms[j].key != key
  }

  /** v is what w says. */
  ghost predicate Meant(w: Spelled, v: Value)
    decreases w, 0
  {
    match w
    case Word(text) => v == if text == "true" then Bool(true) else if text == "false" then Bool(false) else Null
    case Whole(sign, digits) =>
      var n := Signed(sign, Number(digits, 10));
      v.Int? && -0x8000_0000 <= v.i < 0x8000_0000 && (v.i - n) % 0x1_0000_0000 == 0
    case Unsigned(digits) =>
      v.UInt? && 0 <= v.u < 0x1_0000_0000 && (v.u - Number(digits, 10)) % 0x1_0000_0000 == 0
    case Hexadecimal(nibbles) =>
      var n := Number(Values(nibbles), 16);
      v == UInt(if n < 0x1_0000_0000 then n else 0xFFFF_FFFF)
    case Floating(mantissa, exponent, _) =>
      v == Real(if exponent.None? then mantissa else mantissa + ("e" + exponent.value.power))
    case Quoted(pieces) => v.Str? && Stand(pieces, v.s)
    case Listed(_, items) => exists vs: seq<Value> :: MeantItems(items, vs) && v == Arr(Repeated(vs, items))
    case Braced(_, ms) => v.Obj? && MeantEntries(ms, v.members)
  }

  ghost predicate MeantItems(items: seq<Item>, vs: seq<Value>)
    decreases items, 0
  {
    |vs| == |items| && forall i :: 0 <= i < |items| ==> Meant(items[i].val, vs[i])
  }

  /** Ascending keys, those that were written, each with the value written last. */
  ghost predicate MeantEntries(ms: seq<Entry>, members: seq<Member>)
    decreases ms, 2
  {
    Dictionary(members) && AllKeys(ms, members) && EachLast(ms, members)
  }

  predicate Dictionary(members: seq<Member>) {
    forall i, j :: 0 <= i < j < |members| ==> Before(members[i].key, members[j].key)
  }

  predicate AllKeys(ms: seq<Entry>, members: seq<Member>) {
    forall i :: 0 <= i < |ms| ==> HasKey(members, ms[i].key)
  }

  predicate HasKey(members: seq<Member>, key: string) {
    exists j :: 0 <= j < |members| && members[j].key == key
  }

  ghost predicate EachLast(ms: seq<Entry>, members: seq<Member>)
    decreases ms, 1
  {
    forall j :: 0 <= j < |members| ==> MeantLast(ms, members[j])
  }

  ghost predicate MeantLast(ms: seq<Entry>, m: Member)
    decreases ms, 0
  {
    exists i :: 0 <= i < |ms| && LastWith(ms, m.key, i) && Meant(ms[i].val, m.val)
  }

  /** a and b agree up to n, where a ends or has the lesser character. */
  predicate BeforeAt(a: string, b: string, n: nat) {
    n <= |a| && n < |b| && a[..n] == b[..n] && (n == |a| || a[n] < b[n])
  }

  /** a comes before b in a dictionary. */
  predicate Before(a: string, b: string) {
    exists n :: 0 <= n < |b| && BeforeAt(a, b, n)
  }

  // ------------------------------------------------------------ texts in place

  /** Nothing of a number stands at p. */
  predicate Delimits(s: string, p: nat) {
    p >= |s| || SpaceChar(s[p]) || s[p] in {',', ':', '/', ']', '}'}
  }

  // ------------------------------------------------------------------ gaps

  lemma {:induction false} LineEnds(s: string, p: nat, text: string)
    requires Stands(s, p, text + "\n") && '\n' !in text
    ensures LineEnd(s, p) == p + |text|
    decreases |text|
  {
    if text == "" {
      StandsAt(s, p, "\n", 0);
    } else {
      StandsAt(s, p, text + "\n", 0);
      assert text + "\n" == [text[0]] + (text[1..] + "\n");
      StandsSplit(s, p, [text[0]], text[1..] + "\n");
      LineEnds(s, p + 1, text[1..]);
    }
  }

  lemma {:induction false} BlockEnds(s: string, p: nat, text: string)
    requires Stands(s, p, text + "*/")
    requires forall i :: 0 <= i < |text| - 1 ==> !(text[i] == '*' && text[i + 1] == '/')
    ensures CommentEnd(s, p) == Got((), p + |text| + 2)
    decreases |text|
  {
    var t := text + "*/";
    StandsAt(s, p, t, 0);
    StandsAt(s, p, t, 1);
    if text != "" {
      assert t == [text[0]] + (text[1..] + "*/");
      StandsSplit(s, p, [text[0]], text[1..] + "*/");
      assert t[1] == if |text| > 1 then text[1] else '*';
      BlockEnds(s, p + 1, text[1..]);
    }
  }

  lemma LineSkipped(s: string, p: nat, text: string)
    requires Stands(s, p, "//" + (text + "\n")) && '\n' !in text
    ensures p < |s| && s[p] == '/' && SkipComment(s, p) == Got((), p + |text| + 3)
  {
    hide CommentEnd, LineEnd;
    StandsSplit(s, p, "//", text + "\n");
    StandsAt(s, p, "//", 0);
    StandsAt(s, p, "//", 1);
    LineEnds(s, p + 2, text);
    SlashPassed(s, p + 1);
  }

  lemma SlashPassed(s: string, p: nat)
    requires p < |s| && s[p] == '/'
    ensures LineEnd(s, p) == LineEnd(s, p + 1)
  {
  }

  lemma BlockSkipped(s: string, p: nat, text: string)
    requires Stands(s, p, "/*" + (text + "*/")) && GoodGap(BlockComment(text))
    ensures p < |s| && s[p] == '/' && SkipComment(s, p) == Got((), p + |text| + 4)
  {
    StandsSplit(s, p, "/*", text + "*/");
    StandsAt(s, p, "/*", 0);
    StandsAt(s, p, "/*", 1);
    StandsAt(s, p + 2, text + "*/", 0);
    assert (text + "*/")[0] != '/';
    BlockEnds(s, p + 2, text);
    hide LineEnd;
    StarPassed(s, p + 1);
  }

  lemma StarPassed(s: string, p: nat)
    requires p + 1 < |s| && s[p] == '*' && s[p + 1] != '/'
    ensures CommentEnd(s, p) == CommentEnd(s, p + 1)
  {
  }

  lemma CommentSkipped(s: string, p: nat, g: Gap)
    requires Stands(s, p, OneGap(g)) && GoodGap(g) && !g.Space?
    ensures p < |s| && s[p] == '/' && SkipComment(s, p) == Got((), p + |OneGap(g)|)
  {
    hide SkipComment, Stands;
    match g
    case LineComment(text) => LineSkipped(s, p, text);
    case BlockComment(text) => BlockSkipped(s, p, text);
  }

  /** One gap is stepped over wherever it stands. */
  lemma GapSkipped(s: string, p: nat, g: Gap)
    requires Stands(s, p, OneGap(g)) && GoodGap(g)
    ensures p < |s|
    ensures ParseValue(s, p) == ParseValue(s, p + |OneGap(g)|)
    ensures forall vs, last :: ParseItems(s, p, vs, last) == ParseItems(s, p + |OneGap(g)|, vs, last)
    ensures forall key, ms :: KeyIn(s, key, p) && !key.OpenKey? ==>
              ParseMembers(s, p, key, ms) == ParseMembers(s, p + |OneGap(g)|, key, ms)
  {
    hide ParseNumber, ParseString, SkipComment, OneGap;
    if g.Space? {
      assert OneGap(g) == [g.c] by { SpaceIs(g); }
      StandsAt(s, p, [g.c], 0);
    } else {
      CommentSkipped(s, p, g);
    }
  }

  lemma SpaceIs(g: Gap)
    requires g.Space?
    ensures OneGap(g) == [g.c]
  {
  }

  lemma {:induction false} GapsSkipped(s: string, p: nat, gs: seq<Gap>, key: Key, ms: seq<Member>)
    requires Stands(s, p, GapText(gs)) && GoodGaps(gs) && KeyIn(s, key, p) && !key.OpenKey?
    ensures ParseValue(s, p) == ParseValue(s, p + |GapText(gs)|)
    ensures KeyIn(s, key, p + |GapText(gs)|)
    ensures ParseMembers(s, p, key, ms) == ParseMembers(s, p + |GapText(gs)|, key, ms)
    ensures ParseItems(s, p, [], Null) == ParseItems(s, p + |GapText(gs)|, [], Null)
    decreases |gs|
  {
    hide ParseValue, ParseItems, ParseMembers, OneGap;
    if gs != [] {
      StandsSplit(s, p, OneGap(gs[0]), GapText(gs[1..]));
      GapSkipped(s, p, gs[0]);
      GapsSkipped(s, p + |OneGap(gs[0])|, gs[1..], key, ms);
    }
  }

  lemma CommaSkipped(s: string, p: nat)
    requires p < |s| && s[p] == ','
    ensures forall vs, last :: ParseItems(s, p, vs, last) == ParseItems(s, p + 1, vs, last)
    ensures forall ms :: ParseMembers(s, p, NoKey, ms) == ParseMembers(s, p + 1, NoKey, ms)
  {
  }

  lemma SepSkipped(s: string, p: nat, one: Sep)
    requires Stands(s, p, OneSep(one)) && (one.Between? ==> GoodGap(one.gap))
    ensures forall vs, last :: ParseItems(s, p, vs, last) == ParseItems(s, p + |OneSep(one)|, vs, last)
    ensures forall ms :: ParseMembers(s, p, NoKey, ms) == ParseMembers(s, p + |OneSep(one)|, NoKey, ms)
  {
    hide ParseItems, ParseMembers, OneGap;
    if one.Comma? {
      StandsAt(s, p, ",", 0);
      CommaSkipped(s, p);
    } else {
      GapSkipped(s, p, one.gap);
    }
  }

  lemma {:induction false} SepsSkipped(s: string, p: nat, ss: seq<Sep>, vs: seq<Value>, last: Value, ms: seq<Member>)
    requires Stands(s, p, SepText(ss)) && GoodSeps(ss)
    ensures ParseItems(s, p, vs, last) == ParseItems(s, p + |SepText(ss)|, vs, last)
    ensures ParseMembers(s, p, NoKey, ms) == ParseMembers(s, p + |SepText(ss)|, NoKey, ms)
    decreases |ss|
  {
    hide ParseItems, ParseMembers, OneSep;
    if ss != [] {
      StandsSplit(s, p, OneSep(ss[0]), SepText(ss[1..]));
      SepSkipped(s, p, ss[0]);
      SepsSkipped(s, p + |OneSep(ss[0])|, ss[1..], vs, last, ms);
    }
  }

  /** What begins with a separator delimits what is before it. */
  lemma SepDelimits(s: string, p: nat, ss: seq<Sep>)
    requires Stands(s, p, SepText(ss)) && GoodSeps(ss) && ss != []
    ensures Delimits(s, p)
  {
    StandsSplit(s, p, OneSep(ss[0]), SepText(ss[1..]));
    StandsAt(s, p, OneSep(ss[0]), 0);
  }

  // --------------------------------------------------------------- numbers

  lemma NumberBegins(s: string, p: nat)
    requires p < |s| && NumberStart(s[p])
    ensures ParseValue(s, p) == ParseNumber(s, p, p + 1, s[p] == '.', false)
  {
  }

  lemma MantissaTail(t: string)
    requires AllMantissa(t) && t != ""
    ensures AllMantissa(t[1..])
  {
    forall i | 0 <= i < |t[1..]|
      ensures PowerChar(t[1..][i]) || t[1..][i] == '.'
    {
      assert t[1..][i] == t[i + 1];
    }
  }

  lemma {:induction false} NumberGoesOn(s: string, start: nat, p: nat, q: nat, frac: bool, exp: bool)
    requires start <= p <= q <= |s| && AllMantissa(s[p..q])
    ensures ParseNumber(s, start, p, frac, exp) == ParseNumber(s, start, q, frac || '.' in s[p..q], exp)
    decreases q - p
  {
    if p < q {
      assert s[p..q] == [s[p]] + s[p + 1..q] && s[p..q][0] == s[p];
      MantissaTail(s[p..q]);
      assert s[p..q][1..] == s[p + 1..q];
      NumberGoesOn(s, start, p + 1, q, frac || s[p] == '.', exp);
    }
  }

  lemma NumberEnds(s: string, start: nat, q: nat, frac: bool, exp: bool)
    requires start <= q <= |s| && Delimits(s, q)
    ensures var text := Respelled(s[start..q]);
            ParseNumber(s, start, q, frac, exp) == Got(if frac || exp then Real(text) else Int(Atoi(text)), q)
  {
    hide Atoi;
  }

  lemma SuffixRead(s: string, start: nat, q: nat, frac: bool, exp: bool)
    requires start < q < |s| && (s[q] == 'd' ==> Delimits(s, q + 1))
    ensures var text := Respelled(s[start..q]);
            && (s[q] == 'u' ==> ParseNumber(s, start, q, frac, exp) == Got(UInt(JsonText.Unsigned(Atoi(text))), q + 1))
            && (s[q] == 'f' || (s[q] == 'd' && !exp) ==> ParseNumber(s, start, q, frac, exp) == Got(Real(text), q + 1))
  {
    hide Atoi;
  }

  lemma DecimalsAreOf(ds: seq<nat>)
    requires Decimals(ds)
    ensures AllMantissa(DecimalText(ds)) && '.' !in DecimalText(ds)
    ensures 'd' !in DecimalText(ds) && forall i :: 0 <= i < |ds| ==> Digit(DecimalText(ds)[i])
  {
  }

  lemma {:induction false} DigitsMean(ds: seq<nat>)
    requires Decimals(ds)
    ensures Digits(DecimalText(ds), 0) == Number(ds, 10)
  {
    if ds != [] {
      var k := |ds| - 1;
      DecimalsAreOf(ds);
      DigitsMean(ds[..k]);
      assert DecimalText(ds) == DecimalText(ds[..k]) + [DECIMALS[ds[k]]];
      DigitsAppend(DecimalText(ds[..k]), DECIMALS[ds[k]], 0);
    }
  }

  lemma Wrapped(n: int)
    ensures (Wrap(n) - n) % 0x1_0000_0000 == 0
    ensures (JsonText.Unsigned(Wrap(n)) - n) % 0x1_0000_0000 == 0 && 0 <= JsonText.Unsigned(Wrap(n)) < 0x1_0000_0000
  {
  }

  lemma AtoiMeans(sign: string, ds: seq<nat>)
    requires sign in {"", "-", "+"} && GoodDigits(ds)
    ensures var n := Number(ds, 10); Atoi(sign + DecimalText(ds)) == Wrap(Signed(sign, n))
  {
    DigitsMean(ds);
    DecimalsAreOf(ds);
    var t := sign + DecimalText(ds);
    if sign == "" {
      assert t == DecimalText(ds);
      assert Digit(t[0]);
    } else {
      assert t[1..] == DecimalText(ds);
    }
    hide Digits, Wrap, Number, DecimalText;
  }

  lemma WholeText(sign: string, ds: seq<nat>)
    requires sign in {"", "-", "+"} && GoodDigits(ds)
    ensures var t := sign + DecimalText(ds);
            t != "" && AllMantissa(t) && '.' !in t && Respelled(t) == t && NumberStart(t[0])
  {
    DecimalsAreOf(ds);
  }

  /** A number up to q, whatever comes then. */
  lemma NumberUpTo(s: string, p: nat, t: string)
    requires t != "" && Stands(s, p, t) && AllMantissa(t)
    ensures ParseValue(s, p) == ParseNumber(s, p, p + |t|, '.' in t, false)
  {
    hide *;
    var q := p + |t|;
    StandsIs(s, p, t);
    MantissaStarts(t);
    assert s[p] == s[p..q][0];
    NumberBegins(s, p);
    assert s[p + 1..q] == t[1..] && t == [t[0]] + t[1..];
    MantissaTail(t);
    NumberGoesOn(s, p, p + 1, q, s[p] == '.', false);
  }

  lemma MantissaStarts(t: string)
    requires AllMantissa(t) && t != ""
    ensures NumberStart(t[0])
  {
    assert PowerChar(t[0]) || t[0] == '.';
  }

  /** A number of digits and signs, and one with the suffix u. */
  lemma PlainNumber(s: string, p: nat, t: string)
    requires t != "" && Stands(s, p, t) && AllMantissa(t) && '.' !in t && Respelled(t) == t
    ensures Delimits(s, p + |t|) ==> ParseValue(s, p) == Got(Int(Atoi(t)), p + |t|)
    ensures Stands(s, p + |t|, "u") ==> ParseValue(s, p) == Got(UInt(JsonText.Unsigned(Atoi(t))), p + |t| + 1)
  {
    hide ParseValue, ParseNumber, Respelled, Atoi, AllMantissa;
    NumberUpTo(s, p, t);
    if Delimits(s, p + |t|) {
      NumberEnds(s, p, p + |t|, false, false);
    } else if Stands(s, p + |t|, "u") {
      StandsAt(s, p + |t|, "u", 0);
      SuffixRead(s, p, p + |t|, false, false);
    }
  }

  lemma WholeMeant(sign: string, ds: seq<nat>, n: int)
    requires n == Signed(sign, Number(ds, 10))
    ensures Meant(Whole(sign, ds), Int(Wrap(n)))
  {
    Wrapped(n);
    hide Number, Signed, Wrap;
  }

  lemma UnsignedMeant(ds: seq<nat>, n: int)
    requires n == Number(ds, 10)
    ensures Meant(Spelled.Unsigned(ds), UInt(JsonText.Unsigned(Wrap(n))))
  {
    Wrapped(n);
    hide Number, Wrap, JsonText.Unsigned;
  }

  lemma WholeRead(s: string, p: nat, sign: string, ds: seq<nat>) returns (v: Value)
    requires sign in {"", "-", "+"} && GoodDigits(ds) && Decimals(ds) && Stands(s, p, sign + DecimalText(ds))
    requires Delimits(s, p + |sign + DecimalText(ds)|)
    ensures ParseValue(s, p) == Got(v, p + |sign + DecimalText(ds)|) && Meant(Whole(sign, ds), v)
  {
    hide *;
    var t := sign + DecimalText(ds);
    WholeText(sign, ds);
    AtoiMeans(sign, ds);
    WholeMeant(sign, ds, Signed(sign, Number(ds, 10)));
    PlainNumber(s, p, t);
    v := Int(Atoi(t));
  }

  lemma UnsignedRead(s: string, p: nat, ds: seq<nat>) returns (v: Value)
    requires GoodDigits(ds) && Decimals(ds) && Stands(s, p, DecimalText(ds) + "u")
    ensures ParseValue(s, p) == Got(v, p + |DecimalText(ds) + "u"|) && Meant(Spelled.Unsigned(ds), v)
  {
    hide *;
    var t := DecimalText(ds);
    assert "" + t == t;
    WholeText("", ds);
    AtoiMeans("", ds);
    NoSign(Number(ds, 10));
    UnsignedMeant(ds, Number(ds, 10));
    StandsSplit(s, p, t, "u");
    PlainNumber(s, p, t);
    v := UInt(JsonText.Unsigned(Atoi(t)));
  }

  lemma NoSign(n: nat)
    ensures Signed("", n) == n
  {
  }

  lemma {:induction false} HexAppend(a: string, c: char, val: nat)
    requires HexDigit(c) && forall i :: 0 <= i < |a| ==> HexDigit(a[i])
    ensures HexDigits(a + [c], val) == 16 * HexDigits(a, val) + DigitValue(c)
    decreases |a|
  {
    if a == "" {
      assert ("" + [c])[1..] == "" && ("" + [c])[0] == c;
    } else {
      assert (a + [c])[1..] == a[1..] + [c];
      HexAppend(a[1..], c, 16 * val + DigitValue(a[0]));
    }
  }

  lemma NibbleMeans(n: Nibble)
    requires n.d < 16
    ensures var c := if n.upper then UPPER[n.d] else LOWER[n.d];
            HexDigit(c) && DigitValue(c) == n.d
  {
  }

  lemma {:induction false} HexMeans(ns: seq<Nibble>)
    requires Nibbles(ns)
    ensures HexDigits(HexText(ns), 0) == Number(Values(ns), 16)
    ensures forall i :: 0 <= i < |ns| ==> HexDigit(HexText(ns)[i])
  {
    if ns != [] {
      hide HexDigit, DigitValue;
      var k := |ns| - 1;
      HexMeans(ns[..k]);
      var c := if ns[k].upper then UPPER[ns[k].d] else LOWER[ns[k].d];
      NibbleMeans(ns[k]);
      assert HexText(ns) == HexText(ns[..k]) + [c];
      assert Values(ns)[..k] == Values(ns[..k]);
      HexAppend(HexText(ns[..k]), c, 0);
    }
  }

  lemma {:induction false} HexRuns(s: string, p: nat, q: nat)
    requires p <= q <= |s| && (forall i :: p <= i < q ==> HexDigit(s[i])) && Delimits(s, q)
    ensures HexEnd(s, p) == q
    decreases q - p
  {
    if p < q {
      HexRuns(s, p + 1, q);
    }
  }

  lemma HexNumber(s: string, p: nat, q: nat)
    requires p + 1 < q <= |s| && s[p] == '0' && s[p + 1] == 'x' && HexEnd(s, p + 2) == q
    ensures ParseValue(s, p) == Got(UInt(Hex(s[p + 2..q])), q)
  {
    hide Hex, HexEnd;
  }

  lemma HexMeant(ns: seq<Nibble>)
    requires Nibbles(ns)
    ensures Meant(Hexadecimal(ns), UInt(Hex(HexText(ns))))
  {
    HexMeans(ns);
    hide HexText, Number;
  }

  lemma HexRead(s: string, p: nat, ns: seq<Nibble>) returns (v: Value)
    requires Nibbles(ns) && Stands(s, p, "0x" + HexText(ns)) && Delimits(s, p + |"0x" + HexText(ns)|)
    ensures ParseValue(s, p) == Got(v, p + |"0x" + HexText(ns)|) && Meant(Hexadecimal(ns), v)
  {
    hide *;
    var t := HexText(ns);
    var q := p + 2 + |t|;
    StandsSplit(s, p, "0x", t);
    StandsIs(s, p, "0x");
    StandsIs(s, p + 2, t);
    StandsAt(s, p, "0x", 0);
    StandsAt(s, p, "0x", 1);
    HexMeant(ns);
    AllHex(s, p + 2, q, ns);
    HexRuns(s, p + 2, q);
    HexNumber(s, p, q);
    v := UInt(Hex(t));
  }

  lemma AllHex(s: string, p: nat, q: nat, ns: seq<Nibble>)
    requires Nibbles(ns) && p <= q <= |s| && s[p..q] == HexText(ns)
    ensures forall i :: p <= i < q ==> HexDigit(s[i])
  {
    HexMeans(ns);
    forall i | p <= i < q
      ensures HexDigit(s[i])
    {
      assert s[p..q][i - p] == s[i];
    }
  }

  lemma ExponentBegins(s: string, start: nat, p: nat, frac: bool)
    requires start < p && p + 1 < |s| && s[p] in {'e', 'd'} && PowerChar(s[p + 1])
    ensures ParseNumber(s, start, p, frac, false) == ParseNumber(s, start, p + 1, frac, true)
  {
  }

  lemma Respelling(m: string, letter: char, power: string)
    requires AllMantissa(m) && letter in {'e', 'd'} && AllPower(power)
    ensures Respelled(m) == m && Respelled(m + ([letter] + power)) == m + ("e" + power)
  {
  }

  /** A number with its exponent, up to the suffix. */
  lemma ExponentRead(s: string, p: nat, m: string, e: Option<Exponent>)
    requires m != "" && AllMantissa(m) && Stands(s, p, m + ExponentText(e))
    requires e.Some? ==> e.value.letter in {'e', 'd'} && e.value.power != "" && AllPower(e.value.power)
    ensures var q := p + |m + ExponentText(e)|;
            q <= |s| && ParseValue(s, p) == ParseNumber(s, p, q, '.' in m, e.Some?)
    ensures Respelled(m + ExponentText(e)) == if e.None? then m else m + ("e" + e.value.power)
  {
    if e.Some? {
      SomeExponentRead(s, p, m, e.value.letter, e.value.power);
    } else {
      assert m + "" == m;
      NumberUpTo(s, p, m);
      Respelling(m, 'e', "");
    }
  }

  lemma SomeExponentRead(s: string, p: nat, m: string, letter: char, power: string)
    requires m != "" && AllMantissa(m) && Stands(s, p, m + ([letter] + power))
    requires letter in {'e', 'd'} && power != "" && AllPower(power)
    ensures var q := p + |m| + 1 + |power|;
            q <= |s| && ParseValue(s, p) == ParseNumber(s, p, q, '.' in m, true)
    ensures Respelled(m + ([letter] + power)) == m + ("e" + power)
  {
    hide *;
    var k := p + |m|;
    StandsSplit(s, p, m, [letter] + power);
    StandsSplit(s, k, [letter], power);
    StandsIs(s, p, m);
    StandsIs(s, k, [letter]);
    StandsIs(s, k + 1, power);
    StandsAt(s, k, [letter], 0);
    StandsAt(s, k + 1, power, 0);
    FirstPower(power);
    NumberUpTo(s, p, m);
    ExponentBegins(s, p, k, '.' in m);
    PowerRead(s, p, k + 1, power, '.' in m);
    Respelling(m, letter, power);
  }

  lemma FirstPower(power: string)
    requires AllPower(power) && power != ""
    ensures PowerChar(power[0])
  {
  }

  lemma FloatingParts(w: Spelled)
    requires w.Floating? && Good(w)
    ensures w.mantissa != "" && AllMantissa(w.mantissa)
    ensures var e := w.exponent;
            e.Some? ==> e.value.letter in {'e', 'd'} && e.value.power != "" && AllPower(e.value.power)
    ensures w.suffix == "" || w.suffix == "f" || (w.suffix == "d" && w.exponent.None?)
    ensures '.' in w.mantissa || w.exponent.Some? || w.suffix != ""
    ensures TextOf(w) == (w.mantissa + ExponentText(w.exponent)) + w.suffix
  {
    Assoc(w.mantissa, ExponentText(w.exponent), w.suffix);
  }

  lemma FloatingMeant(w: Spelled)
    requires w.Floating?
    ensures Meant(w, Real(if w.exponent.None? then w.mantissa else w.mantissa + ("e" + w.exponent.value.power)))
  {
  }

  lemma FloatingRead(s: string, p: nat, w: Spelled) returns (v: Value)
    requires w.Floating? && Good(w) && Stands(s, p, TextOf(w)) && Delimits(s, p + |TextOf(w)|)
    ensures ParseValue(s, p) == Got(v, p + |TextOf(w)|) && Meant(w, v)
  {
    hide *;
    FloatingParts(w);
    FloatingMeant(w);
    var t := w.mantissa + ExponentText(w.exponent);
    StandsSplit(s, p, t, w.suffix);
    ExponentRead(s, p, w.mantissa, w.exponent);
    var q := p + |t|;
    StandsIs(s, p, t);
    v := Real(Respelled(t));
    if w.suffix == "" {
      NumberEnds(s, p, q, '.' in w.mantissa, w.exponent.Some?);
    } else {
      StandsIs(s, q, w.suffix);
      StandsAt(s, q, w.suffix, 0);
      SuffixRead(s, p, q, '.' in w.mantissa, w.exponent.Some?);
    }
  }

  lemma PowerRead(s: string, start: nat, p: nat, power: string, frac: bool)
    requires p >= start && Stands(s, p, power) && AllPower(power)
    ensures p + |power| <= |s| && ParseNumber(s, start, p, frac, true) == ParseNumber(s, start, p + |power|, frac, true)
  {
    assert AllMantissa(power) && '.' !in power;
    NumberGoesOn(s, start, p, p + |power|, frac, true);
  }

  // --------------------------------------------------------------- strings

  predicate GoodPieces(ps: seq<Piece>) {
    forall i :: 0 <= i < |ps| ==> if ps[i].Plain? then ps[i].c !in "\"\\" else ps[i].c in ESCAPES
  }

  lemma EscapeMeans(c: char) returns (k: nat)
    requires c in ESCAPES
    ensures k < |ESCAPES| == |MEANINGS| && ESCAPES[k] == c && Unescaped(c) == Some(MEANINGS[k])
  {
    k :| k < |ESCAPES| && ESCAPES[k] == c;
  }

  lemma PieceMeans(p: Piece, rest: string, t: string) returns (c: char)
    requires GoodPieces([p]) && Unescape(rest) == Some(t)
    ensures PieceIs(p, c) && Unescape(OnePiece(p) + rest) == Some([c] + t)
  {
    assert [p][0] == p;
    c := p.c;
    if p.Backslash? {
      var k := EscapeMeans(p.c);
      c := MEANINGS[k];
    }
    hide Unescaped;
    var text := OnePiece(p) + rest;
    assert text[0] == OnePiece(p)[0] && text[|OnePiece(p)|..] == rest;
    if p.Backslash? {
      assert text[1] == p.c;
    }
  }

  lemma {:induction false} PiecesMean(ps: seq<Piece>) returns (t: string)
    requires GoodPieces(ps)
    ensures Unescape(PieceText(ps)) == Some(t) && Stand(ps, t)
  {
    if ps == [] {
      t := "";
    } else {
      hide *;
      PieceParts(ps);
      var rest := PiecesMean(ps[1..]);
      var c := PieceMeans(ps[0], PieceText(ps[1..]), rest);
      t := [c] + rest;
      StandMore(ps, c, rest);
    }
  }

  lemma StandMore(ps: seq<Piece>, c: char, rest: string)
    requires ps != [] && PieceIs(ps[0], c) && Stand(ps[1..], rest)
    ensures Stand(ps, [c] + rest)
  {
    hide PieceIs;
    assert forall i :: 0 < i < |ps| ==> ps[i] == ps[1..][i - 1];
  }

  lemma PieceStep(s: string, p: nat, one: Piece)
    requires GoodPieces([one]) && Stands(s, p, OnePiece(one))
    ensures CloseQuote(s, p) == CloseQuote(s, p + |OnePiece(one)|)
  {
    assert [one][0] == one;
    StandsAt(s, p, OnePiece(one), 0);
  }

  lemma PieceParts(ps: seq<Piece>)
    requires GoodPieces(ps) && ps != []
    ensures GoodPieces([ps[0]]) && GoodPieces(ps[1..]) && PieceText(ps) == OnePiece(ps[0]) + PieceText(ps[1..])
  {
  }

  lemma NoPieces(s: string, p: nat)
    requires Stands(s, p, PieceText([]) + "\"")
    ensures CloseQuote(s, p) == Got(p, p + 1) && PieceText([]) == ""
  {
    assert "" + "\"" == "\"";
    StandsAt(s, p, "\"", 0);
  }

  lemma {:induction false} PiecesClose(ps: seq<Piece>, s: string, p: nat)
    requires GoodPieces(ps) && Stands(s, p, PieceText(ps) + "\"")
    ensures var q := p + |PieceText(ps)|; CloseQuote(s, p) == Got(q, q + 1)
    decreases |ps|
  {
    hide *;
    if ps == [] {
      NoPieces(s, p);
    } else {
      PieceParts(ps);
      var one, rest := OnePiece(ps[0]), PieceText(ps[1..]);
      Assoc(one, rest, "\"");
      StandsSplit(s, p, one, rest + "\"");
      PieceStep(s, p, ps[0]);
      PiecesClose(ps[1..], s, p + |one|);
    }
  }

  lemma QuotedRead(s: string, p: nat, ps: seq<Piece>) returns (v: Value)
    requires GoodPieces(ps) && Stands(s, p, "\"" + (PieceText(ps) + "\""))
    ensures ParseValue(s, p) == Got(v, p + |PieceText(ps)| + 2) && Meant(Quoted(ps), v)
  {
    hide *;
    var text := PieceText(ps);
    StandsSplit(s, p, "\"", text + "\"");
    StandsIs(s, p, "\"");
    StandsAt(s, p, "\"", 0);
    FirstCharacter(s, p);
    PiecesClose(ps, s, p + 1);
    StandsSplit(s, p + 1, text, "\"");
    StandsIs(s, p + 1, text);
    var t := PiecesMean(ps);
    StringClosed(s, p + 1, p + 1 + |text|, t);
    QuotedMeant(ps, t);
    v := Str(t);
  }

  lemma StringClosed(s: string, p: nat, q: nat, t: string)
    requires p <= q <= |s| && CloseQuote(s, p) == Got(q, q + 1) && Unescape(s[p..q]) == Some(t)
    ensures ParseString(s, p) == Got(Str(t), q + 1)
  {
  }

  lemma QuotedMeant(ps: seq<Piece>, t: string)
    requires Stand(ps, t)
    ensures Meant(Quoted(ps), Str(t))
  {
    hide Stand;
  }

  lemma WordRead(s: string, p: nat, text: string)
    requires text in {"null", "true", "false"} && Stands(s, p, text)
    ensures ParseValue(s, p)
         == Got(if text == "true" then Bool(true) else if text == "false" then Bool(false) else Null, p + |text|)
  {
    StandsAt(s, p, text, 0);
    StandsAt(s, p, text, 1);
    StandsAt(s, p, text, 2);
    StandsAt(s, p, text, 3);
    if text == "false" {
      StandsAt(s, p, text, 4);
    }
    hide ParseNumber, ParseString, ParseItems, ParseMembers, SkipComment;
  }

  // ---------------------------------------------------- dictionary of members

  lemma BeforeStep(a: string, b: string, n: nat)
    requires a != "" && b != "" && a[0] == b[0]
    ensures BeforeAt(a[1..], b[1..], n) <==> BeforeAt(a, b, n + 1)
    ensures !BeforeAt(a, b, 0)
  {
    if n < |a| && n < |b| {
      assert a[..n + 1] == [a[0]] + a[1..][..n] && b[..n + 1] == [b[0]] + b[1..][..n];
      assert a[..n + 1][1..] == a[1..][..n] && b[..n + 1][1..] == b[1..][..n];
    }
  }

  lemma {:induction false} LessIsBefore(a: string, b: string)
    ensures Less(a, b) <==> Before(a, b)
    decreases |a|
  {
    if a != "" && b != "" && a[0] == b[0] {
      LessIsBefore(a[1..], b[1..]);
      hide BeforeAt;
      BeforeStep(a, b, 0);
      if n: nat :| BeforeAt(a[1..], b[1..], n) {
        BeforeStep(a, b, n);
      }
      if n: nat :| BeforeAt(a, b, n) {
        BeforeStep(a, b, n - 1);
      }
    } else if a != "" && b != "" {
      BeforeFirst(a, b);
    } else if b != "" {
      assert a[..0] == b[..0];
      assert BeforeAt(a, b, 0);
    }
  }

  lemma BeforeFirst(a: string, b: string)
    requires a != "" && b != "" && a[0] != b[0]
    ensures Before(a, b) <==> a[0] < b[0]
  {
    assert a[..0] == b[..0] && (BeforeAt(a, b, 0) <==> a[0] < b[0]);
    if n: nat :| 0 < n && BeforeAt(a, b, n) {
      SameFirst(a, b, n);
    }
  }

  lemma SameFirst(a: string, b: string, n: nat)
    requires 0 < n <= |a| && n <= |b| && a[..n] == b[..n]
    ensures a[0] == b[0]
  {
    assert a[..n][0] == b[..n][0];
  }

  lemma {:induction false} LessTotal(a: string, b: string)
    ensures Less(a, b) || a == b || Less(b, a)
    decreases |a|
  {
    if a != "" && b != "" && a[0] == b[0] {
      LessTotal(a[1..], b[1..]);
      assert a == [a[0]] + a[1..] && b == [b[0]] + b[1..];
    }
  }

  lemma {:induction false} LessChain(a: string, b: string, c: string)
    requires Less(a, b) && Less(b, c)
    ensures Less(a, c)
    decreases |a|
  {
    if a != "" && a[0] == b[0] == c[0] {
      LessChain(a[1..], b[1..], c[1..]);
    }
  }

  /** A member set replaces the one with its key, or is added in its place. */
  lemma {:induction false} SetMemberIs(ms: seq<Member>, key: string, val: Value)
    requires Ascending(ms)
    ensures Ascending(SetMember(ms, key, val))
    ensures forall m :: m in SetMember(ms, key, val) <==> m == Member(key, val) || (m in ms && m.key != key)
  {
    hide Less;
    if ms != [] {
      var head, tail := ms[0], ms[1..];
      assert ms == [head] + tail;
      assert forall i :: 0 <= i < |tail| ==> tail[i] == ms[i + 1];
      SetMemberIs(tail, key, val);
      if Less(key, head.key) {
        AllGreater(ms, key);
        InFront(Member(key, val), ms);
      } else if head.key == key {
        HeadLeast(ms);
        InFront(Member(key, val), tail);
      } else {
        LessTotal(key, head.key);
        HeadLeast(ms);
        InFront(head, SetMember(tail, key, val));
      }
    }
  }

  /** The first key is less than all others. */
  lemma HeadLeast(ms: seq<Member>)
    requires ms != [] && Ascending(ms)
    ensures forall m :: m in ms[1..] ==> Less(ms[0].key, m.key) && m.key != ms[0].key
  {
    hide Less;
    forall m | m in ms[1..]
      ensures Less(ms[0].key, m.key) && m.key != ms[0].key
    {
      var i :| 0 <= i < |ms[1..]| && ms[1..][i] == m;
      assert ms[i + 1] == m;
      LessIsStrict(ms[0].key, m.key);
    }
  }

  lemma AllGreater(ms: seq<Member>, key: string)
    requires ms != [] && Ascending(ms) && Less(key, ms[0].key)
    ensures forall m :: m in ms ==> Less(key, m.key) && m.key != key
  {
    HeadLeast(ms);
    hide Less;
    forall m | m in ms
      ensures Less(key, m.key) && m.key != key
    {
      if m != ms[0] {
        assert m in ms[1..] by { assert ms == [ms[0]] + ms[1..]; }
        LessChain(key, ms[0].key, m.key);
      }
      LessIsStrict(key, m.key);
    }
  }

  lemma InFront(head: Member, tail: seq<Member>)
    requires Ascending(tail) && forall m :: m in tail ==> Less(head.key, m.key)
    ensures Ascending([head] + tail)
    ensures forall m :: m in [head] + tail <==> m == head || m in tail
  {
    hide Less;
    var all := [head] + tail;
    forall i, j | 0 <= i < j < |all|
      ensures Less(all[i].key, all[j].key)
    {
      assert all[j] == tail[j - 1] && tail[j - 1] in tail;
      if i > 0 {
        assert all[i] == tail[i - 1];
      }
    }
  }

  /** The members that reading the entries leaves. */
  function Kept(done: seq<Member>, ms: seq<Entry>, vs: seq<Value>): seq<Member>
    requires |vs| == |ms|
    decreases |ms|
  {
    if ms == [] then done else Kept(SetMember(done, ms[0].key, vs[0]), ms[1..], vs[1..])
  }

  /** m is what the entries say of its key. */
  predicate SaidLast(ms: seq<Entry>, vs: seq<Value>, m: Member)
    requires |vs| == |ms|
  {
    exists i :: 0 <= i < |ms| && LastWith(ms, m.key, i) && vs[i] == m.val
  }

  predicate Mentions(ms: seq<Entry>, key: string) {
    exists i :: 0 <= i < |ms| && ms[i].key == key
  }

  lemma SaidStep(ms: seq<Entry>, vs: seq<Value>, m: Member)
    requires |vs| == |ms| > 0
    ensures Mentions(ms, m.key) <==> ms[0].key == m.key || Mentions(ms[1..], m.key)
    ensures SaidLast(ms, vs, m)
       <==> SaidLast(ms[1..], vs[1..], m) || (m == Member(ms[0].key, vs[0]) && !Mentions(ms[1..], m.key))
  {
    var tail, rest := ms[1..], vs[1..];
    assert forall i :: 0 <= i < |tail| ==> tail[i] == ms[i + 1] && rest[i] == vs[i + 1];
    if i :| 0 <= i < |tail| && LastWith(tail, m.key, i) && rest[i] == m.val {
      assert LastWith(ms, m.key, i + 1) && vs[i + 1] == m.val;
    }
    if i :| 0 <= i < |ms| && LastWith(ms, m.key, i) && vs[i] == m.val {
      if i > 0 {
        assert LastWith(tail, m.key, i - 1) && rest[i - 1] == m.val;
      }
    }
    if m == Member(ms[0].key, vs[0]) && !Mentions(tail, m.key) {
      forall j | 0 < j < |ms|
        ensures ms[j].key != m.key
      {
        assert tail[j - 1] == ms[j];
      }
      assert LastWith(ms, m.key, 0);
    }
    if i :| 0 <= i < |ms| && ms[i].key == m.key {
      assert i > 0 ==> tail[i - 1].key == m.key;
    }
    if i :| 0 <= i < |tail| && tail[i].key == m.key {
      assert ms[i + 1].key == m.key;
    }
  }

  lemma {:induction false} KeptIs(done: seq<Member>, ms: seq<Entry>, vs: seq<Value>)
    requires |vs| == |ms| && Ascending(done)
    ensures Ascending(Kept(done, ms, vs))
    ensures forall m :: m in Kept(done, ms, vs) <==> SaidLast(ms, vs, m) || (m in done && !Mentions(ms, m.key))
    decreases |ms|
  {
    hide SaidLast, Mentions, SetMember, Less;
    if ms == [] {
      forall m: Member
        ensures !SaidLast(ms, vs, m) && !Mentions(ms, m.key)
      {
        NothingSaid(ms, vs, m);
      }
    } else {
      var next := SetMember(done, ms[0].key, vs[0]);
      SetMemberIs(done, ms[0].key, vs[0]);
      KeptIs(next, ms[1..], vs[1..]);
      forall m
        ensures m in Kept(done, ms, vs) <==> SaidLast(ms, vs, m) || (m in done && !Mentions(ms, m.key))
      {
        SaidStep(ms, vs, m);
      }
    }
  }

  lemma NothingSaid(ms: seq<Entry>, vs: seq<Value>, m: Member)
    requires ms == [] && vs == []
    ensures !SaidLast(ms, vs, m) && !Mentions(ms, m.key)
  {
  }

  lemma {:induction false} LastOf(ms: seq<Entry>, key: string) returns (i: nat)
    requires Mentions(ms, key)
    ensures LastWith(ms, key, i)
    decreases |ms|
  {
    var k := |ms| - 1;
    if ms[k].key == key {
      i := k;
    } else {
      var j :| 0 <= j < |ms| && ms[j].key == key;
      assert ms[..k][j].key == key;
      i := LastOf(ms[..k], key);
    }
  }

  lemma KeptMeant(ms: seq<Entry>, vs: seq<Value>)
    requires |vs| == |ms| && forall i :: 0 <= i < |ms| ==> Meant(ms[i].val, vs[i])
    ensures MeantEntries(ms, Kept([], ms, vs))
  {
    KeptIs([], ms, vs);
    hide Meant, Kept, Dictionary, AllKeys, EachLast, Ascending, SaidLast;
    KeptDictionary(Kept([], ms, vs));
    KeptKeys(ms, vs, Kept([], ms, vs));
    KeptLast(ms, vs, Kept([], ms, vs));
  }

  lemma KeptDictionary(members: seq<Member>)
    requires Ascending(members)
    ensures Dictionary(members)
  {
    hide Less, Before;
    forall i, j | 0 <= i < j < |members|
      ensures Before(members[i].key, members[j].key)
    {
      LessIsBefore(members[i].key, members[j].key);
    }
  }

  lemma KeptKeys(ms: seq<Entry>, vs: seq<Value>, members: seq<Member>)
    requires |vs| == |ms| && forall m :: SaidLast(ms, vs, m) ==> m in members
    ensures AllKeys(ms, members)
  {
    hide LastWith;
    forall i | 0 <= i < |ms|
      ensures HasKey(members, ms[i].key)
    {
      var l := LastOf(ms, ms[i].key);
      LastHasKey(ms, ms[i].key, l);
      var m := Member(ms[i].key, vs[l]);
      assert LastWith(ms, m.key, l) && vs[l] == m.val;
      assert SaidLast(ms, vs, m);
      var j :| 0 <= j < |members| && members[j] == m;
      assert members[j].key == ms[i].key;
    }
  }

  lemma KeptLast(ms: seq<Entry>, vs: seq<Value>, members: seq<Member>)
    requires |vs| == |ms| && forall m :: m in members ==> SaidLast(ms, vs, m)
    requires forall i :: 0 <= i < |ms| ==> Meant(ms[i].val, vs[i])
    ensures EachLast(ms, members)
  {
    hide LastWith;
    forall j | 0 <= j < |members|
      ensures MeantLast(ms, members[j])
    {
      assert SaidLast(ms, vs, members[j]);
      var i :| 0 <= i < |ms| && LastWith(ms, members[j].key, i) && vs[i] == members[j].val;
      assert Meant(ms[i].val, members[j].val);
    }
  }

  lemma LastHasKey(ms: seq<Entry>, key: string, i: nat)
    requires LastWith(ms, key, i)
    ensures i < |ms| && ms[i].key == key
  {
  }

  // ------------------------------------------------------------------- keys

  lemma {:induction false} NoQuotes(t: string)
    requires forall c :: c in t ==> c !in "\"\\\0"
    ensures !BareQuote(t) && Unescape(t) == Some(t)
  {
    if t != "" {
      assert t == [t[0]] + t[1..] && t[0] in t;
      assert forall c :: c in t[1..] ==> c in t;
      NoQuotes(t[1..]);
    }
  }

  lemma QuotedKeyRead(s: string, p: nat, key: string, done: seq<Member>)
    requires key != "" && (forall c :: c in key ==> c !in "\"\\\0") && Stands(s, p, "\"" + (key + "\""))
    ensures var k := p + 1 + |key|;
            ParseMembers(s, p, NoKey, done) == ParseMembers(s, k + 1, ClosedKey(p + 1, k), done) && s[p + 1..k] == key
  {
    hide ParseMembers, BareQuote, Unescape;
    StandsSplit(s, p, "\"", key + "\"");
    StandsSplit(s, p + 1, key, "\"");
    StandsAt(s, p, "\"", 0);
    StandsAt(s, p + 1 + |key|, "\"", 0);
    forall c | c in Tail(key)
      ensures c !in "\"\\\0"
    {
      assert c in key;
    }
    NoQuotes(Tail(key));
    assert NUL !in key;
    KeyBack(key, s, p, done);
  }

  lemma WordBegins(s: string, p: nat, done: seq<Member>)
    requires p < |s| && !Special(s[p])
    ensures ParseMembers(s, p, NoKey, done) == ParseMembers(s, p + 1, OpenKey(p), done)
    ensures forall start: nat :: start < p ==>
              ParseMembers(s, p, OpenKey(start), done) == ParseMembers(s, p + 1, OpenKey(start), done)
  {
  }

  lemma {:induction false} WordGoesOn(s: string, start: nat, p: nat, q: nat, done: seq<Member>)
    requires start < p <= q <= |s| && forall i :: p <= i < q ==> !Special(s[i])
    ensures ParseMembers(s, p, OpenKey(start), done) == ParseMembers(s, q, OpenKey(start), done)
    decreases q - p
  {
    hide ParseMembers;
    if p < q {
      WordBegins(s, p, done);
      WordGoesOn(s, start, p + 1, q, done);
    }
  }

  lemma WordKeyRead(s: string, p: nat, key: string, done: seq<Member>)
    requires GoodWord(key) && Stands(s, p, key)
    ensures ParseMembers(s, p, NoKey, done) == ParseMembers(s, p + |key|, OpenKey(p), done)
  {
    hide ParseMembers, Special;
    StandsIs(s, p, key);
    forall i | p <= i < p + |key|
      ensures !Special(s[i])
    {
      StandsAt(s, p, key, i - p);
    }
    WordBegins(s, p, done);
    WordGoesOn(s, p, p + 1, p + |key|, done);
  }

  lemma SpaceEndsKey(s: string, start: nat, p: nat, done: seq<Member>)
    requires start < p < |s| && SpaceChar(s[p])
    ensures ParseMembers(s, p, OpenKey(start), done) == ParseMembers(s, p + 1, ClosedKey(start, p), done)
  {
  }

  lemma QuotedToColon(s: string, p: nat, m: Entry, done: seq<Member>)
    requires m.quoted && GoodKey(m) && Stands(s, p, KeyText(m)) && Stands(s, p + |KeyText(m)|, GapText(m.gap))
    ensures var k := p + 1 + |m.key|;
            ParseMembers(s, p, NoKey, done)
            == ParseMembers(s, p + |KeyText(m)| + |GapText(m.gap)|, ClosedKey(p + 1, k), done)
            && s[p + 1..k] == m.key
  {
    hide ParseMembers, ParseValue, ParseItems, GapText, GoodGaps;
    QuotedKeyRead(s, p, m.key, done);
    GapsSkipped(s, p + |KeyText(m)|, m.gap, ClosedKey(p + 1, p + 1 + |m.key|), done);
  }

  lemma WordToColon(s: string, p: nat, m: Entry, done: seq<Member>)
    requires !m.quoted && GoodKey(m) && Stands(s, p, m.key) && Stands(s, p + |m.key|, GapText(m.gap))
    ensures var k, c := p + |m.key|, p + |m.key| + |GapText(m.gap)|;
            p < k && ParseMembers(s, p, NoKey, done)
                     == ParseMembers(s, c, if m.gap == [] then OpenKey(p) else ClosedKey(p, k), done)
            && s[p..k] == m.key && (m.gap != [] ==> k < c)
  {
    hide ParseMembers, ParseValue, ParseItems, OneGap;
    var k := p + |m.key|;
    WordKeyRead(s, p, m.key, done);
    if m.gap != [] {
      var one, rest := OneGap(m.gap[0]), GapText(m.gap[1..]);
      StandsSplit(s, k, one, rest);
      SpaceIs(m.gap[0]);
      StandsAt(s, k, one, 0);
      GoodSpace(m.gap[0]);
      SpaceEndsKey(s, p, k, done);
      GapsSkipped(s, k + 1, m.gap[1..], ClosedKey(p, k), done);
    }
  }

  /** A key and what stands between it and its colon. */
  lemma KeyRead(s: string, p: nat, m: Entry, done: seq<Member>) returns (key: Key)
    requires GoodKey(m) && Stands(s, p, KeyText(m) + (GapText(m.gap) + ":"))
    ensures var c := p + |KeyText(m)| + |GapText(m.gap)|;
            && c < |s| && s[c] == ':' && KeyIn(s, key, c) && !key.NoKey?
            && ParseMembers(s, p, NoKey, done) == ParseMembers(s, c, key, done)
            && s[key.start..if key.OpenKey? then c else key.end] == m.key
  {
    hide ParseMembers, GoodKey, Stands, GapText;
    var k, gap := p + |KeyText(m)|, GapText(m.gap);
    StandsSplit(s, p, KeyText(m), gap + ":");
    StandsSplit(s, k, gap, ":");
    StandsIs(s, k + |gap|, ":");
    StandsAt(s, k + |gap|, ":", 0);
    if m.quoted {
      QuotedToColon(s, p, m, done);
      key := ClosedKey(p + 1, p + 1 + |m.key|);
    } else {
      WordToColon(s, p, m, done);
      NoGapText();
      key := if m.gap == [] then OpenKey(p) else ClosedKey(p, k);
    }
  }

  lemma NoGapText()
    ensures GapText([]) == ""
  {
  }

  lemma GoodSpace(g: Gap)
    requires GoodGap(g) && g.Space?
    ensures SpaceChar(g.c)
  {
  }

  // ------------------------------------------------------------- structures

  /** What a value's text begins with is none of what stands between values. */
  lemma TextStarts(w: Spelled)
    requires Good(w)
    ensures TextOf(w) != "" && var c := TextOf(w)[0]; NumberStart(c) || c in "\"{[ntf"
  {
    match w
    case Whole(sign, ds) => WholeText(sign, ds);
    case Unsigned(ds) =>
      WholeText("", ds);
      assert "" + DecimalText(ds) == DecimalText(ds);
    case Floating(m, _, _) => assert PowerChar(m[0]) || m[0] == '.';
    case _ =>
  }

  lemma ColonRead(s: string, c: nat, key: Key, done: seq<Member>, v: Value, q: nat)
    requires c < |s| && s[c] == ':' && KeyIn(s, key, c) && !key.NoKey? && ParseValue(s, c + 1) == Got(v, q)
    ensures ParseMembers(s, c, key, done)
         == ParseMembers(s, q, NoKey, SetMember(done, s[key.start..if key.OpenKey? then c else key.end], v))
  {
    hide SetMember;
  }

  lemma CountRead(s: string, p: nat, vs: seq<Value>, last: Value, n: nat, q: nat)
    requires p < |s| && s[p] == ':' && ParseValue(s, p + 1) == Got(Int(n), q)
    ensures ParseItems(s, p, vs + [last], last) == ParseItems(s, q, vs + seq(n, _ => last), last)
  {
    if n > 0 {
      assert (vs + [last]) + Copies(last, n - 1) == vs + seq(n, _ => last);
    } else {
      assert (vs + [last])[..|vs|] == vs + seq(0, _ => last);
    }
  }

  lemma GapsBeforeValue(s: string, p: nat, gs: seq<Gap>)
    requires Stands(s, p, GapText(gs)) && GoodGaps(gs)
    ensures ParseValue(s, p) == ParseValue(s, p + |GapText(gs)|)
  {
    GapsSkipped(s, p, gs, NoKey, []);
  }

  /** The repetition count behind an element, or none. */
  lemma RepetitionRead(s: string, p: nat, it: Item, vs: seq<Value>, last: Value)
    requires GoodItem(it) && Stands(s, p, CountText(it.count)) && Delimits(s, p + |CountText(it.count)|)
    ensures ParseItems(s, p, vs + [last], last)
         == ParseItems(s, p + |CountText(it.count)|, vs + seq(CountOf(it), _ => last), last)
  {
    hide *;
    CountIs(it);
    var n := CountOf(it);
    if it.count.None? {
      assert seq(n, _ => last) == [last];
    } else {
      CountNumber(s, p, it);
      CountRead(s, p, vs, last, n, p + |CountText(it.count)|);
    }
  }

  lemma CountIs(it: Item)
    requires GoodItem(it)
    ensures it.count.Some? ==> GoodDigits(it.count.value.digits)
    ensures if it.count.None? then CountOf(it) == 1 && CountText(it.count) == ""
            else CountOf(it) == Number(it.count.value.digits, 10)
  {
    hide Good, Number;
  }

  lemma CountParts(it: Item)
    requires GoodItem(it) && it.count.Some?
    ensures var gap, ds := it.count.value.gap, it.count.value.digits;
            && GoodGaps(gap) && GoodDigits(ds) && Decimals(ds) && Number(ds, 10) < 0x8000_0000
            && CountText(it.count) == ":" + (GapText(gap) + DecimalText(ds))
  {
    hide Good, GoodGaps, Number, DecimalText, GapText;
  }

  lemma CountNumber(s: string, p: nat, it: Item)
    requires GoodItem(it) && Stands(s, p, CountText(it.count)) && Delimits(s, p + |CountText(it.count)|)
    requires it.count.Some?
    ensures p < |s| && s[p] == ':'
    ensures ParseValue(s, p + 1) == Got(Int(Number(it.count.value.digits, 10)), p + |CountText(it.count)|)
  {
    hide *;
    CountParts(it);
    var gap, ds := it.count.value.gap, it.count.value.digits;
    var text, digits := GapText(gap), DecimalText(ds);
    StandsSplit(s, p, ":", text + digits);
    StandsIs(s, p, ":");
    StandsAt(s, p, ":", 0);
    StandsSplit(s, p + 1, text, digits);
    StandsIs(s, p + 1, text);
    StandsIs(s, p + 1 + |text|, digits);
    GapsBeforeValue(s, p + 1, gap);
    var v := DigitsRead(s, p + 1 + |text|, ds);
  }

  lemma DigitsRead(s: string, p: nat, ds: seq<nat>) returns (v: Value)
    requires GoodDigits(ds) && Decimals(ds) && Number(ds, 10) < 0x8000_0000 && Stands(s, p, DecimalText(ds))
    requires Delimits(s, p + |DecimalText(ds)|)
    ensures ParseValue(s, p) == Got(Int(Number(ds, 10)), p + |DecimalText(ds)|) && v == Int(Number(ds, 10))
  {
    assert "" + DecimalText(ds) == DecimalText(ds) && Good(Whole("", ds));
    assert Signed("", Number(ds, 10)) == Number(ds, 10);
    hide DecimalText, Number, ParseValue, Signed;
    v := WholeRead(s, p, "", ds);
    SmallSame(v.i, Number(ds, 10));
  }

  lemma SmallSame(i: int, n: int)
    requires -0x8000_0000 <= i < 0x8000_0000 && 0 <= n < 0x8000_0000 && (i - n) % 0x1_0000_0000 == 0
    ensures i == n
  {
  }

  /** What follows the value of an element or entry delimits it. */
  lemma Followed(s: string, p: nat, ss: seq<Sep>, more: string, close: char)
    requires Stands(s, p, SepText(ss) + (more + [close])) && GoodSeps(ss) && close in "]}"
    requires ss == [] ==> more == ""
    ensures Delimits(s, p)
  {
    if ss == [] {
      assert SepText(ss) + (more + [close]) == [close];
      StandsAt(s, p, [close], 0);
    } else {
      StandsSplit(s, p, SepText(ss), more + [close]);
      SepDelimits(s, p, ss);
    }
  }

  lemma ListEnds(s: string, p: nat, done: seq<Value>, last: Value)
    requires Stands(s, p, "]")
    ensures ParseItems(s, p, done, last) == Got(Arr(done), p + 1)
  {
    StandsAt(s, p, "]", 0);
  }

  lemma BracesEnd(s: string, p: nat, done: seq<Member>)
    requires Stands(s, p, "}")
    ensures ParseMembers(s, p, NoKey, done) == Got(Obj(done), p + 1)
  {
    StandsAt(s, p, "}", 0);
  }

  lemma CountDelimits(s: string, p: nat, it: Item)
    requires GoodItem(it) && Stands(s, p, CountText(it.count)) && Delimits(s, p + |CountText(it.count)|)
    ensures Delimits(s, p)
  {
    if it.count.Some? {
      StandsAt(s, p, CountText(it.count), 0);
    }
  }

  /** One element, its count and what stands behind it. */
  lemma ItemMeans(it: Item, v: Value, done: seq<Value>, last: Value, s: string, p: nat, m: nat, q: nat, e: nat)
    requires GoodItem(it) && p <= m <= q <= e <= |s|
    requires m == p + |TextOf(it.val)| && q == m + |CountText(it.count)| && e == q + |SepText(it.seps)|
    requires Stands(s, p, TextOf(it.val)) && Stands(s, m, CountText(it.count)) && Stands(s, q, SepText(it.seps))
    requires Delimits(s, q) && ParseValue(s, p) == Got(v, m)
    ensures ParseItems(s, p, done, last) == ParseItems(s, e, done + seq(CountOf(it), _ => v), v)
  {
    hide *;
    ItemIsGood(it);
    TextStarts(it.val);
    StandsAt(s, p, TextOf(it.val), 0);
    ItemRead(s, p, done, last, v, m);
    RepetitionRead(s, m, it, done, v);
    SepsSkipped(s, q, it.seps, done + seq(CountOf(it), _ => v), v, []);
  }

  lemma ItemIsGood(it: Item)
    requires GoodItem(it)
    ensures Good(it.val) && GoodSeps(it.seps)
    ensures it.count.Some? ==> GoodDigits(it.count.value.digits)
  {
  }

  lemma {:induction false} ItemsMean(items: seq<Item>, done: seq<Value>, last: Value, s: string, p: nat)
    returns (vs: seq<Value>)
    requires GoodItems(items) && Stands(s, p, ItemsText(items) + "]")
    ensures MeantItems(items, vs)
    ensures ParseItems(s, p, done, last) == Got(Arr(done + Repeated(vs, items)), p + |ItemsText(items)| + 1)
    decreases items, 0
  {
    hide ParseItems, ParseValue, GoodItem, Meant, TextOf, CountText, SepText, Stands, Delimits, CountOf;
    if items == [] {
      vs := [];
      assert "" + "]" == "]" && done + [] == done;
      ListEnds(s, p, done, last);
    } else {
      hide ItemsText;
      var it, more := items[0], ItemsText(items[1..]);
      FirstGood(items);
      ItemParts(s, p, items);
      var m := p + |TextOf(it.val)|;
      var q := m + |CountText(it.count)|;
      Followed(s, q, it.seps, more, ']');
      CountDelimits(s, m, it);
      var v := ValueMeans(it.val, s, p);
      StandsIs(s, q, SepText(it.seps));
      ItemMeans(it, v, done, last, s, p, m, q, q + |SepText(it.seps)|);
      var rest := ItemsMean(items[1..], done + seq(CountOf(it), _ => v), v, s, q + |SepText(it.seps)|);
      vs := [v] + rest;
      MeantMore(items, v, rest);
      Assoc(done, seq(CountOf(it), _ => v), Repeated(rest, items[1..]));
    }
  }

  lemma FirstGood(items: seq<Item>)
    requires GoodItems(items) && items != []
    ensures GoodItem(items[0]) && GoodItems(items[1..]) && Good(items[0].val) && GoodSeps(items[0].seps)
    ensures items[0].seps == [] ==> items[1..] == []
  {
  }

  lemma MeantMore(items: seq<Item>, v: Value, rest: seq<Value>)
    requires items != [] && Meant(items[0].val, v) && MeantItems(items[1..], rest)
    ensures var vs := [v] + rest;
            && MeantItems(items, vs)
            && Repeated(vs, items) == seq(CountOf(items[0]), _ => v) + Repeated(rest, items[1..])
  {
    hide Meant, CountOf;
    assert forall i :: 0 < i < |items| ==> items[i] == items[1..][i - 1];
    assert ([v] + rest)[1..] == rest;
  }

  lemma NoItems()
    ensures ItemsText([]) == "" && EntriesText([]) == ""
  {
  }

  lemma ItemsTextIs(items: seq<Item>)
    requires GoodItems(items) && items != []
    ensures Good(items[0].val) && (items[0].count.Some? ==> GoodDigits(items[0].count.value.digits))
    ensures ItemsText(items) == TextOf(items[0].val)
                                + (CountText(items[0].count) + (SepText(items[0].seps) + ItemsText(items[1..])))
  {
    hide TextOf, CountText, SepText;
  }

  /** Where the parts of the first element stand. */
  lemma ItemParts(s: string, p: nat, items: seq<Item>)
    requires GoodItems(items) && items != [] && Stands(s, p, ItemsText(items) + "]")
    ensures GoodItem(items[0]) && GoodItems(items[1..])
    ensures var it, more := items[0], ItemsText(items[1..]);
            var m := p + |TextOf(it.val)|;
            var q := m + |CountText(it.count)|;
            && Stands(s, p, TextOf(it.val)) && Stands(s, m, CountText(it.count)) && Stands(s, q, SepText(it.seps))
            && Stands(s, q, SepText(it.seps) + (more + "]")) && Stands(s, q + |SepText(it.seps)|, more + "]")
            && |ItemsText(items)| == |TextOf(it.val)| + |CountText(it.count)| + |SepText(it.seps)| + |more|
            && (it.seps == [] ==> more == "")
  {
    hide TextOf, CountText, SepText, ItemsText, Stands, GoodItem;
    FirstGood(items);
    ItemsTextIs(items);
    NoItems();
    var it, more := items[0], ItemsText(items[1..]);
    ThreeParts(s, p, TextOf(it.val), CountText(it.count), SepText(it.seps), more, "]");
  }

  lemma ThreeParts(s: string, p: nat, a: string, b: string, c: string, more: string, end: string)
    requires Stands(s, p, (a + (b + (c + more))) + end)
    ensures var m, q := p + |a|, p + |a| + |b|;
            && Stands(s, p, a) && Stands(s, m, b) && Stands(s, q, c) && Stands(s, q, c + (more + end))
            && Stands(s, q + |c|, more + end)
  {
    hide Stands;
    Assoc(a, b + (c + more), end);
    Assoc(b, c + more, end);
    Assoc(c, more, end);
    StandsSplit(s, p, a, b + (c + (more + end)));
    StandsSplit(s, p + |a|, b, c + (more + end));
    StandsSplit(s, p + |a| + |b|, c, more + end);
  }

  lemma EntriesTextIs(ms: seq<Entry>)
    requires GoodEntries(ms) && ms != []
    ensures Good(ms[0].val) && GoodEntries(ms[1..])
    ensures EntriesText(ms)
         == KeyText(ms[0]) + (GapText(ms[0].gap) + (":" + (GapText(ms[0].inner)
              + (TextOf(ms[0].val) + (SepText(ms[0].seps) + EntriesText(ms[1..]))))))
  {
    hide TextOf, KeyText, GapText, SepText;
  }

  /** Where the parts of the first entry stand. */
  lemma EntryParts(s: string, p: nat, ms: seq<Entry>)
    requires GoodEntries(ms) && ms != [] && Stands(s, p, EntriesText(ms) + "}")
    ensures GoodEntry(ms[0]) && GoodEntries(ms[1..])
    ensures var m, more := ms[0], EntriesText(ms[1..]);
            var c := p + |KeyText(m)| + |GapText(m.gap)|;
            var b := c + 1 + |GapText(m.inner)|;
            var q := b + |TextOf(m.val)|;
            && Stands(s, p, KeyText(m) + (GapText(m.gap) + ":")) && Stands(s, c + 1, GapText(m.inner))
            && Stands(s, b, TextOf(m.val)) && Stands(s, q, SepText(m.seps))
            && Stands(s, q, SepText(m.seps) + (more + "}")) && Stands(s, q + |SepText(m.seps)|, more + "}")
            && p + |EntriesText(ms)| == q + |SepText(m.seps)| + |more|
            && (m.seps == [] ==> more == "")
  {
    hide TextOf, KeyText, GapText, SepText, EntriesText, Stands, GoodEntry;
    FirstEntryGood(ms);
    EntriesTextIs(ms);
    NoItems();
    var m, more := ms[0], EntriesText(ms[1..]);
    var front := KeyText(m) + (GapText(m.gap) + ":");
    var inner, text, seps := GapText(m.inner), TextOf(m.val), SepText(m.seps);
    EntryGlue(KeyText(m), GapText(m.gap), inner, text, seps, more);
    StandsSplit(s, p, front, (inner + (text + (seps + more))) + "}");
    ThreeParts(s, p + |front|, inner, text, seps, more, "}");
  }

  lemma EntryGlue(key: string, gap: string, inner: string, text: string, seps: string, more: string)
    ensures (key + (gap + (":" + (inner + (text + (seps + more)))))) + "}"
         == (key + (gap + ":")) + ((inner + (text + (seps + more))) + "}")
    ensures |key + (gap + (":" + (inner + (text + (seps + more)))))|
         == |key| + |gap| + 1 + |inner| + |text| + |seps| + |more|
  {
    var d := inner + (text + (seps + more));
    Assoc(":", d, "}");
    Assoc(gap, ":" + d, "}");
    Assoc(key, gap + (":" + d), "}");
    Assoc(gap, ":", d + "}");
    Assoc(key, gap + ":", d + "}");
  }

  /** One entry and what stands behind it. */
  lemma EntryMeans(m: Entry, v: Value, done: seq<Member>, s: string, p: nat, c: nat, b: nat, q: nat, e: nat)
    requires GoodEntry(m) && Stands(s, p, KeyText(m) + (GapText(m.gap) + ":")) && p <= c < b <= q <= e <= |s|
    requires c == p + |KeyText(m)| + |GapText(m.gap)| && b == c + 1 + |GapText(m.inner)| && e == q + |SepText(m.seps)|
    requires Stands(s, c + 1, GapText(m.inner)) && ParseValue(s, b) == Got(v, q) && Stands(s, q, SepText(m.seps))
    ensures ParseMembers(s, p, NoKey, done) == ParseMembers(s, e, NoKey, SetMember(done, m.key, v))
  {
    hide *;
    EntryIsGood(m);
    var key := KeyRead(s, p, m, done);
    GapsBeforeValue(s, c + 1, m.inner);
    ColonRead(s, c, key, done, v, q);
    SepsSkipped(s, q, m.seps, [], Null, SetMember(done, m.key, v));
  }

  lemma EntryIsGood(m: Entry)
    requires GoodEntry(m)
    ensures GoodKey(m) && GoodGaps(m.inner) && GoodSeps(m.seps)
  {
  }

  lemma {:induction false} EntriesMean(ms: seq<Entry>, done: seq<Member>, s: string, p: nat) returns (vs: seq<Value>)
    requires GoodEntries(ms) && Stands(s, p, EntriesText(ms) + "}")
    ensures |vs| == |ms| && forall i :: 0 <= i < |ms| ==> Meant(ms[i].val, vs[i])
    ensures ParseMembers(s, p, NoKey, done) == Got(Obj(Kept(done, ms, vs)), p + |EntriesText(ms)| + 1)
    decreases ms, 0
  {
    hide ParseMembers, ParseValue, GoodEntry, Meant, TextOf, KeyText, GapText, SepText, SetMember, Stands, Delimits;
    if ms == [] {
      vs := [];
      assert "" + "}" == "}";
      BracesEnd(s, p, done);
    } else {
      hide EntriesText;
      FirstEntryGood(ms);
      var m, more := ms[0], EntriesText(ms[1..]);
      var b := p + |KeyText(m)| + |GapText(m.gap)| + 1 + |GapText(m.inner)|;
      var q := b + |TextOf(m.val)|;
      EntryParts(s, p, ms);
      Followed(s, q, m.seps, more, '}');
      var v := ValueMeans(m.val, s, b);
      StandsIs(s, q, SepText(m.seps));
      EntryMeans(m, v, done, s, p, b - 1 - |GapText(m.inner)|, b, q, q + |SepText(m.seps)|);
      var rest := EntriesMean(ms[1..], SetMember(done, m.key, v), s, q + |SepText(m.seps)|);
      vs := [v] + rest;
      EntriesMore(ms, v, rest);
    }
  }

  lemma EntriesMore(ms: seq<Entry>, v: Value, rest: seq<Value>)
    requires |ms| == |rest| + 1 && Meant(ms[0].val, v) && forall i :: 0 <= i < |rest| ==> Meant(ms[1..][i].val, rest[i])
    ensures var vs := [v] + rest;
            vs[1..] == rest && forall i :: 0 <= i < |ms| ==> Meant(ms[i].val, vs[i])
  {
    hide Meant;
    forall i | 0 <= i < |ms|
      ensures Meant(ms[i].val, ([v] + rest)[i])
    {
      if i > 0 {
        assert ms[i] == ms[1..][i - 1];
      }
    }
  }

  lemma FirstEntryGood(ms: seq<Entry>)
    requires GoodEntries(ms) && ms != []
    ensures GoodEntry(ms[0]) && GoodEntries(ms[1..]) && Good(ms[0].val) && GoodSeps(ms[0].seps)
    ensures ms[0].seps == [] ==> ms[1..] == []
  {
  }

  lemma ListedText(w: Spelled)
    requires w.Listed? && Good(w)
    ensures GoodGaps(w.gap) && GoodItems(w.items)
    ensures TextOf(w) == "[" + (GapText(w.gap) + (ItemsText(w.items) + "]"))
  {
    hide GapText, ItemsText, GoodGaps, GoodItems;
  }

  lemma BracedText(w: Spelled)
    requires w.Braced? && Good(w)
    ensures GoodGaps(w.gap) && GoodEntries(w.members)
    ensures TextOf(w) == "{" + (GapText(w.gap) + (EntriesText(w.members) + "}"))
  {
    hide GapText, EntriesText, GoodGaps, GoodEntries;
  }

  lemma ListedMeant(w: Spelled, vs: seq<Value>)
    requires w.Listed? && MeantItems(w.items, vs)
    ensures Meant(w, Arr(Repeated(vs, w.items)))
  {
    hide Repeated;
  }

  lemma BracedMeant(w: Spelled, members: seq<Member>)
    requires w.Braced? && MeantEntries(w.members, members)
    ensures Meant(w, Obj(members))
  {
    hide MeantEntries;
  }

  lemma OneForEach(items: seq<Item>, vs: seq<Value>)
    requires MeantItems(items, vs)
    ensures |vs| == |items|
  {
  }

  lemma {:induction false} ListedMeans(w: Spelled, s: string, p: nat) returns (v: Value)
    requires w.Listed? && Good(w) && Stands(s, p, TextOf(w))
    ensures ParseValue(s, p) == Got(v, p + |TextOf(w)|) && Meant(w, v)
    decreases w, 0
  {
    hide *;
    ListedText(w);
    var gap, items := GapText(w.gap), ItemsText(w.items);
    StandsSplit(s, p, "[", gap + (items + "]"));
    StandsSplit(s, p + 1, gap, items + "]");
    BracketRead(s, p, '[', w.gap);
    var vs := ItemsMean(w.items, [], Null, s, p + 1 + |gap|);
    OneForEach(w.items, vs);
    ListedMeant(w, vs);
    assert [] + Repeated(vs, w.items) == Repeated(vs, w.items);
    v := Arr(Repeated(vs, w.items));
  }

  lemma {:induction false} BracedMeans(w: Spelled, s: string, p: nat) returns (v: Value)
    requires w.Braced? && Good(w) && Stands(s, p, TextOf(w))
    ensures ParseValue(s, p) == Got(v, p + |TextOf(w)|) && Meant(w, v)
    decreases w, 0
  {
    hide *;
    BracedText(w);
    var gap, entries := GapText(w.gap), EntriesText(w.members);
    StandsSplit(s, p, "{", gap + (entries + "}"));
    StandsSplit(s, p + 1, gap, entries + "}");
    BracketRead(s, p, '{', w.gap);
    var vs := EntriesMean(w.members, [], s, p + 1 + |gap|);
    KeptMeant(w.members, vs);
    v := Obj(Kept([], w.members, vs));
    BracedMeant(w, v.members);
  }

  /** Values that hold no others. */
  lemma LeafMeans(w: Spelled, s: string, p: nat) returns (v: Value)
    requires !w.Listed? && !w.Braced? && Good(w) && Stands(s, p, TextOf(w)) && Delimits(s, p + |TextOf(w)|)
    ensures ParseValue(s, p) == Got(v, p + |TextOf(w)|) && Meant(w, v)
  {
    hide ParseValue, Stands, Delimits, HexText, DecimalText, PieceText, ExponentText, Number, AllMantissa, AllPower;
    match w
    case Word(text) =>
      WordRead(s, p, text);
      v := if text == "true" then Bool(true) else if text == "false" then Bool(false) else Null;
    case Whole(sign, ds) => v := WholeRead(s, p, sign, ds);
    case Unsigned(ds) => v := UnsignedRead(s, p, ds);
    case Hexadecimal(ns) => v := HexRead(s, p, ns);
    case Floating(_, _, _) => v := FloatingRead(s, p, w);
    case Quoted(ps) => v := QuotedRead(s, p, ps);
  }

  /** The text of a value, in front of what delimits it, is read as what it means. */
  lemma {:induction false} ValueMeans(w: Spelled, s: string, p: nat) returns (v: Value)
    requires Good(w) && Stands(s, p, TextOf(w)) && Delimits(s, p + |TextOf(w)|)
    ensures ParseValue(s, p) == Got(v, p + |TextOf(w)|) && Meant(w, v)
    decreases w, 1
  {
    hide ParseValue, Stands, Delimits, TextOf, Good, Meant;
    match w
    case Listed(_, _) => v := ListedMeans(w, s, p);
    case Braced(_, _) => v := BracedMeans(w, s, p);
    case _ => v := LeafMeans(w, s, p);
  }

  lemma BracketRead(s: string, p: nat, c: char, gap: seq<Gap>)
    requires Stands(s, p, [c]) && Stands(s, p + 1, GapText(gap)) && GoodGaps(gap)
    ensures p + 1 + |GapText(gap)| <= |s|
    ensures c == '[' ==> ParseValue(s, p) == ParseItems(s, p + 1 + |GapText(gap)|, [], Null)
    ensures c == '{' ==> ParseValue(s, p) == ParseMembers(s, p + 1 + |GapText(gap)|, NoKey, [])
  {
    hide ParseValue, ParseItems, ParseMembers, GapText;
    StandsAt(s, p, [c], 0);
    FirstCharacter(s, p);
    GapsSkipped(s, p + 1, gap, NoKey, []);
  }

  /** Behind gaps, and in front of a delimiter or the end of the text, a value is read as what was meant. */
  lemma ReadAsMeant(gap: seq<Gap>, w: Spelled, rest: string) returns (v: Value)
    requires GoodGaps(gap) && Good(w) && Delimits(rest, 0)
    ensures Meant(w, v)
    ensures ParseValue(GapText(gap) + (TextOf(w) + rest), 0) == Got(v, |GapText(gap)| + |TextOf(w)|)
  {
    hide ParseValue, GapText, TextOf, Good, Meant;
    var g, t := GapText(gap), TextOf(w);
    var s := g + (t + rest);
    assert s[0..|s|] == s;
    assert Stands(s, 0, s);
    StandsSplit(s, 0, g, t + rest);
    StandsSplit(s, |g|, t, rest);
    assert rest != "" ==> s[|g| + |t|] == rest[0];
    GapsBeforeValue(s, 0, gap);
    v := ValueMeans(w, s, |g|);
  }

  lemma OneDigit(d: nat)
    requires d < 10
    ensures Number([d], 10) == d && DecimalText([d]) == [DECIMALS[d]] && GoodDigits([d])
  {
    assert [d][..0] == [];
  }

  /** `{b:1,a:2}` has both members, in the order of their keys. */
  lemma BothMembers()
    ensures ParseValue("{b:1,a:2}", 0) == Got(Obj([Member("a", Int(2)), Member("b", Int(1))]), 9)
  {
    var b, a := Entry("b", false, [], [], Whole("", [1]), [Comma]), Entry("a", false, [], [], Whole("", [2]), []);
    TextOfBoth(b, a);
    hide ParseValue, TextOf, EntriesText, Good;
    var v := ReadAsMeant([], Braced([], [b, a]), "");
    assert "" + ("{b:1,a:2}" + "") == "{b:1,a:2}";
    TwoMembers(b, a, v.members);
  }

  /** One more entry with a digit in front. */
  lemma DigitEntry(key: string, d: nat, seps: seq<Sep>, ms: seq<Entry>)
    requires GoodWord(key) && d < 10 && GoodSeps(seps) && GoodEntries(ms) && (ms != [] ==> seps != [])
    ensures var more := [Entry(key, false, [], [], Whole("", [d]), seps)] + ms;
            GoodEntries(more)
            && EntriesText(more) == key + (":" + ([DECIMALS[d]] + (SepText(seps) + EntriesText(ms))))
  {
    hide SepText, EntriesText, Good, TextOf, GoodEntry, KeyText, GapText;
    var m := Entry(key, false, [], [], Whole("", [d]), seps);
    DigitText(d);
    PlainEntry(key, Whole("", [d]), seps);
    EntryInFront(m, ms);
    var rest := [DECIMALS[d]] + (SepText(seps) + EntriesText(ms));
    assert "" + (":" + ("" + rest)) == ":" + rest;
  }

  lemma EntryInFront(m: Entry, ms: seq<Entry>)
    requires GoodEntry(m) && GoodEntries(ms) && (ms != [] ==> m.seps != [])
    ensures Good(m.val) && GoodEntries([m] + ms)
    ensures EntriesText([m] + ms)
         == KeyText(m) + (GapText(m.gap) + (":" + (GapText(m.inner)
              + (TextOf(m.val) + (SepText(m.seps) + EntriesText(ms))))))
  {
    hide KeyText, GapText, TextOf, SepText, EntriesText;
    var more := [m] + ms;
    assert more[1..] == ms && more[0] == m && forall i :: 0 < i < |more| ==> more[i] == ms[i - 1];
    EntriesTextIs(more);
  }

  lemma DigitText(d: nat)
    requires d < 10
    ensures Good(Whole("", [d])) && TextOf(Whole("", [d])) == [DECIMALS[d]]
  {
    OneDigit(d);
    assert "" + [DECIMALS[d]] == [DECIMALS[d]];
  }

  lemma PlainEntry(key: string, w: Spelled, seps: seq<Sep>)
    requires GoodWord(key) && Good(w) && GoodSeps(seps)
    ensures var m := Entry(key, false, [], [], w, seps);
            GoodEntry(m) && KeyText(m) == key && GapText(m.gap) == "" && GapText(m.inner) == ""
  {
  }

  lemma TextOfBoth(b: Entry, a: Entry)
    requires b == Entry("b", false, [], [], Whole("", [1]), [Comma])
    requires a == Entry("a", false, [], [], Whole("", [2]), [])
    ensures Good(Braced([], [b, a])) && TextOf(Braced([], [b, a])) == "{b:1,a:2}"
  {
    hide *;
    assert [a] + [] == [a] && [b] + [a] == [b, a];
    TextOfA(a);
    TextOfB(b, a);
    BracedIs([b, a]);
  }

  lemma TextOfA(a: Entry)
    requires a == Entry("a", false, [], [], Whole("", [2]), [])
    ensures GoodEntries([a]) && EntriesText([a]) == "a:2"
  {
    hide Good, TextOf, EntriesText, GoodEntries;
    NoEntries();
    assert SepText([]) == "" && GoodWord("a") && [a] + [] == [a];
    DigitEntry("a", 2, [], []);
  }

  lemma TextOfB(b: Entry, a: Entry)
    requires b == Entry("b", false, [], [], Whole("", [1]), [Comma]) && GoodEntries([a]) && EntriesText([a]) == "a:2"
    ensures GoodEntries([b] + [a]) && EntriesText([b] + [a]) == "b:1,a:2"
  {
    hide Good, TextOf, EntriesText, GoodEntries;
    assert SepText([Comma]) == "," + "" && GoodWord("b");
    DigitEntry("b", 1, [Comma], [a]);
  }

  lemma BracedIs(ms: seq<Entry>)
    requires GoodEntries(ms)
    ensures Good(Braced([], ms)) && TextOf(Braced([], ms)) == "{" + ("" + (EntriesText(ms) + "}"))
  {
    hide GoodEntries, EntriesText;
  }

  lemma NoEntries()
    ensures GoodEntries([]) && EntriesText([]) == ""
  {
  }

  lemma TwoMembers(b: Entry, a: Entry, members: seq<Member>)
    requires b == Entry("b", false, [], [], Whole("", [1]), [Comma])
    requires a == Entry("a", false, [], [], Whole("", [2]), [])
    requires MeantEntries([b, a], members)
    ensures members == [Member("a", Int(2)), Member("b", Int(1))]
  {
    hide Meant, LastWith, Before, Dictionary;
    var ms := [b, a];
    assert ms[0] == b && ms[1] == a;
    forall j | 0 <= j < |members|
      ensures members[j] == Member("b", Int(1)) || members[j] == Member("a", Int(2))
    {
      assert MeantLast(ms, members[j]);
      var i :| 0 <= i < |ms| && LastWith(ms, members[j].key, i) && Meant(ms[i].val, members[j].val);
      LastHasKey(ms, members[j].key, i);
      DigitMeant(if i == 0 then 1 else 2, members[j].val);
    }
    assert HasKey(members, ms[0].key) && HasKey(members, ms[1].key);
    hide MeantLast, EachLast, AllKeys;
    TwoKeys(members);
  }

  lemma TwoKeys(members: seq<Member>)
    requires Dictionary(members) && HasKey(members, "a") && HasKey(members, "b")
    requires forall j :: 0 <= j < |members| ==> members[j] == Member("b", Int(1)) || members[j] == Member("a", Int(2))
    ensures members == [Member("a", Int(2)), Member("b", Int(1))]
  {
    hide Before;
    OneLetter("b", "a");
    OneLetter("a", "a");
    OneLetter("b", "b");
    forall i, j | 0 <= i < j < |members|
      ensures members[i].key == "a" && members[j].key == "b"
    {
      assert Before(members[i].key, members[j].key);
    }
    var i :| 0 <= i < |members| && members[i].key == "a";
    var j :| 0 <= j < |members| && members[j].key == "b";
    assert i < j;
    assert members[0].key == "a" && members[|members| - 1].key == "b";
    assert i + 1 == j by { var next := members[i + 1]; }
  }

  lemma DigitMeant(d: nat, v: Value)
    requires d < 10 && Meant(Whole("", [d]), v)
    ensures v == Int(d)
  {
    OneDigit(d);
    SmallSame(v.i, d);
  }

  lemma OneLetter(a: string, b: string)
    requires |a| == |b| == 1 && a[0] >= b[0]
    ensures !Before(a, b)
  {
  }

  // -------------------------------------------------------------- the writer

  /** The writer escapes what an escape stands for, writes other ASCII characters as they are, and no others. */
  lemma WriterEscapes(c: char)
    ensures forall k: nat :: k < |MEANINGS| && MEANINGS[k] == c ==> EscapedChar(c) == Some(['\\', ESCAPES[k]])
    ensures c !in MEANINGS && ' ' <= c <= '\U{7F}' ==> EscapedChar(c) == Some([c])
    ensures c !in MEANINGS && (c < ' ' || c > '\U{7F}') ==> EscapedChar(c) == None
  {
    TableOfMeanings();
  }

  lemma TableOfMeanings()
    ensures |MEANINGS| == |ESCAPES| == 8
    ensures MEANINGS[0] == '"' == ESCAPES[0] && MEANINGS[1] == '\\' == ESCAPES[1] && MEANINGS[2] == '/' == ESCAPES[2]
    ensures MEANINGS[3] == '\U{8}' && MEANINGS[4] == '\U{C}' && MEANINGS[5] == '\n' && MEANINGS[6] == '\r'
    ensures MEANINGS[7] == '\t' && ESCAPES[3] == 'b' && ESCAPES[4] == 'f' && ESCAPES[5] == 'n' && ESCAPES[6] == 'r'
    ensures ESCAPES[7] == 't'
  {
  }

  /** The layout of an object: a line for each member, with a comma behind each. */
  lemma ObjectLayout(k: string, v: Value, l: string, w: Value)
    requires Printable(v) && Printable(w)
    ensures Printable(Obj([Member(k, v), Member(l, w)]))
    ensures Render(Obj([Member(k, v), Member(l, w)]))
         == "{\n" + (("\"" + (k + ("\" : " + (Render(v) + ",\n"))))
                     + ("\"" + (l + ("\" : " + (Render(w) + ",\n"))))) + "}"
  {
    var ms := [Member(k, v), Member(l, w)];
    assert ms[1..] == [ms[1]] && [ms[1]][1..] == [];
    MembersText([ms[1]]);
    MembersText(ms);
    hide Printable;
    assert RenderMembers([]) == "" && MemberText(ms[1]) + "" == MemberText(ms[1]);
  }

  /** The layout of an array: a comma and a blank behind each element. */
  lemma ArrayLayout(v: Value, w: Value)
    requires Printable(v) && Printable(w)
    ensures Printable(Arr([v, w]))
    ensures Render(Arr([v, w])) == "[" + (Render(v) + (", " + (Render(w) + ", "))) + "]"
  {
    var vs := [v, w];
    assert vs[1..] == [w] && [w][1..] == [];
    JsonRoundTrip.ItemsText([w]);
    JsonRoundTrip.ItemsText(vs);
    assert RenderItems([]) == "" && ", " + "" == ", ";
  }

  lemma LeafLayout(t: string)
    requires Escaped(t).Some?
    ensures Render(Null) == "null" && Render(Bool(true)) == "true" && Render(Bool(false)) == "false"
    ensures Render(Str(t)) == "\"" + Escaped(t).value + "\"" && RenderAll([Null]) == "null\n"
  {
    assert [Null][1..] == [] && RenderAll([]) == "" && "\n" + "" == "\n";
    AllText([Null]);
  }
}
