/** What the writer prints, and that the reader makes the same value of it. */
module JsonRoundTrip {
  import opened Wrappers
  import opened Sequences
  import opened JsonText

  // ------------------------------------------------------------ the printer

  const DIGITS: string := "0123456789"

  function DecimalNat(n: nat): (s: string)
    ensures s != "" && forall i :: 0 <= i < |s| ==> Digit(s[i])
  {
    if n < 10 then [DIGITS[n]] else DecimalNat(n / 10) + [DIGITS[n % 10]]
  }

  function Decimal(i: int): (s: string)
    ensures s != "" && (Digit(s[0]) || s[0] == '-')
    ensures forall k :: 1 <= k < |s| ==> Digit(s[k])
  {
    if i < 0 then "-" + DecimalNat(-i) else DecimalNat(i)
  }

  /** The writer's escapes; None where it gives up on a control character or a byte above 127. */
  function EscapedChar(c: char): Option<string> {
    if c == '"' || c == '\\' || c == '/' then Some(['\\', c])
    else if c == '\U{8}' then Some("\\b")
    else if c == '\U{C}' then Some("\\f")
    else if c == '\n' then Some("\\n")
    else if c == '\r' then Some("\\r")
    else if c == '\t' then Some("\\t")
    else if ' ' <= c < '\U{80}' then Some([c])
    else None
  }

  function Escaped(s: string): Option<string> {
    if s == "" then Some("")
    else
      var c, rest := EscapedChar(s[0]), Escaped(s[1..]);
      if c.None? || rest.None? then None else Some(c.value + rest.value)
  }

  /** Whether the writer prints v to the end. (How it prints reals is not modelled.) */
  predicate Printable(v: Value) {
    match v
    case Real(_) => false
    case Str(s) => Escaped(s).Some?
    case Arr(items) => forall i :: 0 <= i < |items| ==> Printable(items[i])
    case Obj(ms) => forall i :: 0 <= i < |ms| ==> Printable(ms[i].val)
    case _ => true
  }

  function Render(v: Value): string
    requires Printable(v)
    decreases v
  {
    match v
    case Null => "null"
    case Bool(b) => if b then "true" else "false"
    case Int(i) => Decimal(i)
    case UInt(u) => Decimal(u) + "u"
    case Str(s) => "\"" + Escaped(s).value + "\""
    case Arr(items) => "[" + RenderItems(items) + "]"
    case Obj(ms) => "{\n" + RenderMembers(ms) + "}"
  }

  function RenderItems(vs: seq<Value>): string
    requires forall i :: 0 <= i < |vs| ==> Printable(vs[i])
    decreases vs
  {
    if vs == [] then "" else Render(vs[0]) + (", " + RenderItems(vs[1..]))
  }

  function RenderMembers(ms: seq<Member>): string
    requires forall i :: 0 <= i < |ms| ==> Printable(ms[i].val)
    decreases ms
  {
    if ms == [] then "" else MemberText(ms[0]) + RenderMembers(ms[1..])
  }

  function MemberText(m: Member): string
    requires Printable(m.val)
    decreases m
  {
    "\"" + (m.key + ("\" : " + (Render(m.val) + ",\n")))
  }

  /** Successive values, as `putValue` writes them. */
  function RenderAll(vs: seq<Value>): string
    requires forall i :: 0 <= i < |vs| ==> Printable(vs[i])
  {
    if vs == [] then "" else Render(vs[0]) + ("\n" + RenderAll(vs[1..]))
  }

  // ---------------------------------------------------- what is read back

  /** The text has a quote that no backslash escapes. */
  predicate BareQuote(t: string) {
    t != "" && if t[0] == '\\' then |t| > 1 && BareQuote(t[2..]) else t[0] == '"' || BareQuote(t[1..])
  }

  /** The characters of a key behind the first, which is read whatever it is. */
  function Tail(k: string): string {
    if k == "" then "" else k[1..]
  }

  /** The text ends in a backslash with nothing behind it to escape. */
  predicate Dangling(t: string) {
    t != "" && if t[0] == '\\' then |t| == 1 || Dangling(t[2..]) else Dangling(t[1..])
  }

  /** A key that is not empty and that no quote behind its first character ends early. */
  predicate ClosedKeyText(k: string) {
    k != "" && !BareQuote(Tail(k))
  }

  /** Keys are written and read raw; behind the first character each backslash has to make an escape. */
  predicate PlainKey(k: string) {
    NUL !in k && ClosedKeyText(k) && Unescape(Tail(k)).Some?
  }

  ghost predicate Ascending(ms: seq<Member>) {
    forall i, j :: 0 <= i < j < |ms| ==> Less(ms[i].key, ms[j].key)
  }

  ghost predicate Readable(v: Value)
    decreases v
  {
    match v
    case Null => true
    case Bool(_) => true
    case Int(i) => -TWO31 <= i < TWO31
    case UInt(u) => 0 <= u < TWO32
    case Real(_) => false
    case Str(s) => Escaped(s).Some?
    case Arr(items) => AllReadable(items)
    case Obj(ms) => Ascending(ms) && MembersReadable(ms)
  }

  ghost predicate AllReadable(vs: seq<Value>)
    decreases vs
  {
    forall i :: 0 <= i < |vs| ==> Readable(vs[i])
  }

  ghost predicate MembersReadable(ms: seq<Member>)
    decreases ms
  {
    forall i :: 0 <= i < |ms| ==> PlainKey(ms[i].key) && Readable(ms[i].val)
  }

  lemma {:induction false} ReadablePrints(v: Value)
    requires Readable(v)
    ensures Printable(v)
    decreases v
  {
    match v
    case Arr(items) =>
      forall i | 0 <= i < |items|
        ensures Printable(items[i])
      {
        ReadablePrints(items[i]);
      }
    case Obj(ms) =>
      forall i | 0 <= i < |ms|
        ensures Printable(ms[i].val)
      {
        ReadablePrints(ms[i].val);
      }
    case _ =>
  }

  // ------------------------------------------------------------- numbers

  lemma {:induction false} DigitsAppend(a: string, c: char, val: nat)
    requires Digit(c) && forall i :: 0 <= i < |a| ==> Digit(a[i])
    ensures Digits(a + [c], val) == 10 * Digits(a, val) + DigitValue(c)
    decreases |a|
  {
    if a == "" {
      assert ("" + [c])[1..] == "" && ("" + [c])[0] == c;
    } else {
      assert (a + [c])[1..] == a[1..] + [c];
      DigitsAppend(a[1..], c, 10 * val + DigitValue(a[0]));
    }
  }

  lemma {:induction false} DecimalDigits(n: nat)
    ensures Digits(DecimalNat(n), 0) == n
  {
    if n >= 10 {
      DecimalDigits(n / 10);
      DigitsAppend(DecimalNat(n / 10), DIGITS[n % 10], 0);
    } else {
      assert [DIGITS[n]][1..] == "";
    }
  }

  lemma AtoiDecimal(i: int)
    requires -TWO31 <= i < TWO32
    ensures Atoi(Decimal(i)) == Wrap(i) && (i >= 0 ==> Unsigned(Wrap(i)) == i)
  {
    DecimalDigits(if i < 0 then -i else i);
    hide Digits, DecimalNat, Wrap;
    if i < 0 {
      assert ("-" + DecimalNat(-i))[1..] == DecimalNat(-i);
    } else {
      UnsignedBack(i);
    }
  }

  lemma UnsignedBack(i: nat)
    requires i < TWO32
    ensures Unsigned(Wrap(i)) == i
  {
  }

  /** Digits are read up to the first character that is not one. */
  lemma {:induction false} NumberRuns(s: string, start: nat, p: nat, q: nat)
    requires start <= p <= q <= |s| && forall i :: p <= i < q ==> Digit(s[i])
    ensures ParseNumber(s, start, p, false, false) == ParseNumber(s, start, q, false, false)
    decreases q - p
  {
    if p < q {
      NumberRuns(s, start, p + 1, q);
    }
  }

  predicate Delimiter(c: char) {
    c == ',' || c == '\n' || c == ':'
  }

  lemma NumberBack(i: int, s: string, p: nat, q: nat)
    requires -TWO31 <= i < TWO32 && p <= q < |s| && s[p..q] == Decimal(i)
    ensures Delimiter(s[q]) && i < TWO31 ==> ParseValue(s, p) == Got(Int(i), q)
    ensures s[q] == 'u' && i >= 0 ==> ParseValue(s, p) == Got(UInt(i), q + 1)
  {
    var d := Decimal(i);
    forall k | p <= k < q
      ensures s[k] == d[k - p]
    {
      assert s[k] == s[p..q][k - p];
    }
    NumberRuns(s, p, p + 1, q);
    AtoiDecimal(i);
    assert Respelled(d) == d;
  }

  // ------------------------------------------------------------- strings

  /** An escape is one plain character or a backslash and what stands for the character. */
  lemma EscapeIs(x: char)
    requires EscapedChar(x).Some?
    ensures var c := EscapedChar(x).value;
            (c == [x] && x != '\\') || (|c| == 2 && c[0] == '\\' && Unescaped(c[1]) == Some(x))
  {
  }

  lemma EscapeBack(x: char, rest: string)
    requires EscapedChar(x).Some? && Unescape(rest).Some?
    ensures Unescape(EscapedChar(x).value + rest) == Some([x] + Unescape(rest).value)
  {
    EscapeIs(x);
    hide EscapedChar, Unescaped;
    var c := EscapedChar(x).value;
    assert (c + rest)[|c|..] == rest;
  }

  lemma {:induction false} EscapedBack(t: string)
    requires Escaped(t).Some?
    ensures Unescape(Escaped(t).value) == Some(t)
  {
    hide Unescape, EscapedChar;
    if t == "" {
      assert Unescape("") == Some("") by { UnescapeNothing(); }
    } else {
      EscapedBack(t[1..]);
      EscapeBack(t[0], Escaped(t[1..]).value);
      assert t == [t[0]] + t[1..];
    }
  }

  lemma UnescapeNothing()
    ensures Unescape("") == Some("")
  {
  }

  /** No escape ends the string early. */
  lemma {:induction false} ClosedAfterEscapes(t: string, s: string, p: nat)
    requires Escaped(t).Some? && p + |Escaped(t).value| < |s|
    requires s[p..p + |Escaped(t).value|] == Escaped(t).value && s[p + |Escaped(t).value|] == '"'
    ensures CloseQuote(s, p) == Got(p + |Escaped(t).value|, p + |Escaped(t).value| + 1)
    decreases |t|
  {
    if t != "" {
      var c, rest := EscapedChar(t[0]).value, Escaped(t[1..]).value;
      var q := p + |Escaped(t).value|;
      assert s[p..q][..|c|] == c && s[p..q][|c|..] == rest;
      assert s[p] == s[p..q][0] == c[0];
      assert s[p + |c|..q] == s[p..q][|c|..];
      if |c| == 2 {
        assert s[p + 1] == s[p..q][1] == c[1];
      }
      ClosedAfterEscapes(t[1..], s, p + |c|);
    }
  }

  /** The two parts of a text found at p. */
  lemma Parts(s: string, p: nat, q: nat, a: string, b: string)
    requires p <= q <= |s| && s[p..q] == a + b
    ensures p + |a| <= q && s[p..p + |a|] == a && s[p + |a|..q] == b
  {
    var t := s[p..q];
    assert t[..|a|] == a && t[|a|..] == b;
    assert forall i :: 0 <= i < |t| ==> s[p + i] == t[i];
  }

  /** A quoted escaped string reads back, whatever text follows. */
  lemma StringBack(t: string, s: string, p: nat, q: nat)
    requires Escaped(t).Some? && p <= q <= |s| && s[p..q] == "\"" + Escaped(t).value + "\""
    ensures ParseString(s, p + 1) == Got(Str(t), q)
  {
    hide Escaped, CloseQuote, Unescape;
    var e := Escaped(t).value;
    Assoc("\"", e, "\"");
    Parts(s, p, q, "\"", e + "\"");
    Parts(s, p + 1, q, e, "\"");
    assert |s[p + 1 + |e|..q]| == 1 && s[q - 1] == s[p + 1 + |e|..q][0];
    ClosedAfterEscapes(t, s, p + 1);
    EscapedBack(t);
  }

  // --------------------------------------------------- arrays and objects

  /** What a printed value starts with. */
  lemma RenderStarts(v: Value)
    requires Printable(v)
    ensures Render(v) != "" && var c := Render(v)[0];
            NumberStart(c) || c == '"' || c == '{' || c == '[' || c == 'n' || c == 't' || c == 'f'
  {
  }

  /** A value in front of a comma, colon or line end reads back. */
  lemma {:induction false} ReadsBack(v: Value, s: string, p: nat, q: nat)
    requires Readable(v) && Printable(v) && p <= q < |s| && s[p..q] == Render(v)
    requires Delimiter(s[q])
    ensures ParseValue(s, p) == Got(v, q)
    decreases v, 1
  {
    hide ParseValue, ParseItems, ParseMembers, Escaped, Decimal, RenderItems, RenderMembers;
    RenderStarts(v);
    assert s[p] == s[p..q][0];
    FirstCharacter(s, p);
    match v
    case Null => WordBack(v, s, p, q);
    case Bool(b) => WordBack(v, s, p, q);
    case Int(i) => NumberBack(i, s, p, q);
    case UInt(u) =>
      Parts(s, p, q, Decimal(u), "u");
      assert s[q - 1] == s[p + |Decimal(u)|..q][0];
      NumberBack(u, s, p, q - 1);
    case Str(t) => StringBack(t, s, p, q);
    case Arr(items) =>
      Assoc("[", RenderItems(items), "]");
      Parts(s, p, q, "[", RenderItems(items) + "]");
      ItemsBack(items, [], Null, s, p + 1, q);
      assert [] + items == items;
    case Obj(ms) => ObjectBack(ms, s, p, q);
  }

  lemma {:induction false} ObjectBack(ms: seq<Member>, s: string, p: nat, q: nat)
    requires Ascending(ms) && MembersReadable(ms) && (forall i :: 0 <= i < |ms| ==> Printable(ms[i].val))
    requires p <= q <= |s| && s[p..q] == "{\n" + RenderMembers(ms) + "}"
    ensures ParseValue(s, p) == Got(Obj(ms), q)
    decreases ms, 1
  {
    hide ParseValue, ParseMembers, RenderMembers;
    var rest := RenderMembers(ms) + "}";
    Assoc("{\n", RenderMembers(ms), "}");
    Parts(s, p, q, "{\n", rest);
    TwoAt(s, p, "{\n");
    assert [] + ms == ms;
    MembersBack(ms, [], s, p + 2, q);
    BlankInMembers(s, p + 1, []);
    FirstCharacter(s, p);
  }

  lemma FirstCharacter(s: string, p: nat)
    requires p < |s|
    ensures s[p] == '[' ==> ParseValue(s, p) == ParseItems(s, p + 1, [], Null)
    ensures s[p] == '{' ==> ParseValue(s, p) == ParseMembers(s, p + 1, NoKey, [])
    ensures s[p] == '"' ==> ParseValue(s, p) == ParseString(s, p + 1)
  {
  }

  lemma WordBack(v: Value, s: string, p: nat, q: nat)
    requires v.Null? || v.Bool?
    requires p <= q < |s| && s[p..q] == Render(v)
    ensures ParseValue(s, p) == Got(v, q)
  {
    hide ParseMembers, ParseItems, ParseNumber, ParseString, SkipComment;
    assert s[p] == s[p..q][0];
  }

  lemma BlankInMembers(s: string, p: nat, done: seq<Member>)
    requires p < |s| && s[p] == '\n'
    ensures ParseMembers(s, p, NoKey, done) == ParseMembers(s, p + 1, NoKey, done)
  {
  }

  /** Reading goes on behind an element. */
  lemma ItemRead(s: string, p: nat, done: seq<Value>, last: Value, v: Value, m: nat)
    requires p < |s| && (NumberStart(s[p]) || s[p] in "\"{[ntf")
    requires ParseValue(s, p) == Got(v, m)
    ensures ParseItems(s, p, done, last) == ParseItems(s, m, done + [v], v)
  {
  }

  lemma {:induction false} ItemsBack(vs: seq<Value>, done: seq<Value>, last: Value, s: string, p: nat, q: nat)
    requires AllReadable(vs) && (forall i :: 0 <= i < |vs| ==> Printable(vs[i]))
    requires p <= q <= |s| && s[p..q] == RenderItems(vs) + "]"
    ensures ParseItems(s, p, done, last) == Got(Arr(done + vs), q)
    decreases vs, 0
  {
    hide ParseItems, ParseValue, Render;
    if vs == [] {
      ItemsEnd(s, p, q, done, last);
      assert done + vs == done;
    } else {
      hide RenderItems;
      var v := vs[0];
      RenderStarts(v);
      var m := ItemParts(vs, s, p, q);
      ReadsBack(v, s, p, m);
      ItemRead(s, p, done, last, v, m);
      SkipSeparator(s, m, done + [v], v);
      ItemsBack(vs[1..], done + [v], v, s, m + 2, q);
      assert (done + [v]) + vs[1..] == done + vs;
    }
  }

  lemma ItemsEnd(s: string, p: nat, q: nat, done: seq<Value>, last: Value)
    requires p <= q <= |s| && s[p..q] == "]"
    ensures ParseItems(s, p, done, last) == Got(Arr(done), q)
  {
  }

  lemma MembersEnd(s: string, p: nat, q: nat, done: seq<Member>)
    requires p <= q <= |s| && s[p..q] == "}"
    ensures ParseMembers(s, p, NoKey, done) == Got(Obj(done), q)
  {
  }

  lemma ItemsText(vs: seq<Value>)
    requires vs != [] && (forall i :: 0 <= i < |vs| ==> Printable(vs[i]))
    ensures RenderItems(vs) == Render(vs[0]) + (", " + RenderItems(vs[1..]))
  {
    hide Render;
  }

  lemma MembersText(ms: seq<Member>)
    requires ms != [] && (forall i :: 0 <= i < |ms| ==> Printable(ms[i].val))
    ensures RenderMembers(ms) == MemberText(ms[0]) + RenderMembers(ms[1..])
    ensures MemberText(ms[0]) == "\"" + (ms[0].key + ("\" : " + (Render(ms[0].val) + ",\n")))
  {
    hide Render;
  }

  /** Where the text of the first element ends. */
  lemma ItemParts(vs: seq<Value>, s: string, p: nat, q: nat) returns (m: nat)
    requires vs != [] && (forall i :: 0 <= i < |vs| ==> Printable(vs[i]))
    requires p <= q <= |s| && s[p..q] == RenderItems(vs) + "]"
    ensures p <= m && m + 2 <= q && s[p..m] == Render(vs[0]) && s[m] == ',' && s[m + 1] == ' '
    ensures s[m + 2..q] == RenderItems(vs[1..]) + "]"
    ensures s[p] == if Render(vs[0]) == "" then ',' else Render(vs[0])[0]
  {
    hide Render, RenderItems;
    ItemsText(vs);
    var text, rest := Render(vs[0]), RenderItems(vs[1..]);
    m := p + |text|;
    SeparatedParts(s, p, q, text, ", ", rest, "]");
  }

  /** Two texts with two characters between them. */
  lemma SeparatedParts(s: string, p: nat, q: nat, text: string, sep: string, rest: string, end: string)
    requires |sep| == 2 && p <= q <= |s| && s[p..q] == (text + (sep + rest)) + end
    ensures var m := p + |text|;
            m + 2 <= q && s[p..m] == text && s[m] == sep[0] && s[m + 1] == sep[1] && s[m + 2..q] == rest + end
    ensures s[p] == if text == "" then sep[0] else text[0]
  {
    var m := p + |text|;
    Assoc(text, sep + rest, end);
    Assoc(sep, rest, end);
    Parts(s, p, q, text, sep + (rest + end));
    Parts(s, m, q, sep, rest + end);
    TwoAt(s, m, sep);
    if text != "" {
      assert s[p] == s[p..m][0];
    }
  }

  lemma TwoAt(s: string, m: nat, t: string)
    requires |t| == 2 && m + 2 <= |s| && s[m..m + 2] == t
    ensures s[m] == t[0] && s[m + 1] == t[1]
  {
  }

  lemma SkipSeparator(s: string, m: nat, done: seq<Value>, last: Value)
    requires m + 2 <= |s| && s[m] == ',' && s[m + 1] == ' '
    ensures ParseItems(s, m, done, last) == ParseItems(s, m + 2, done, last)
  {
  }

  lemma {:induction false} MembersBack(ms: seq<Member>, done: seq<Member>, s: string, p: nat, q: nat)
    requires MembersReadable(ms) && (forall i :: 0 <= i < |ms| ==> Printable(ms[i].val))
    requires Ascending(done + ms)
    requires p <= q <= |s| && s[p..q] == RenderMembers(ms) + "}"
    ensures ParseMembers(s, p, NoKey, done) == Got(Obj(done + ms), q)
    decreases ms, 0
  {
    hide ParseMembers, ParseValue, Render, SetMember, Less, PlainKey, Escaped;
    if ms == [] {
      MembersEnd(s, p, q, done);
      assert done + ms == done;
    } else {
      hide RenderMembers;
      var key, v := ms[0].key, ms[0].val;
      var k, m := MemberParts(ms, s, p, q);
      RenderStarts(v);
      KeyBack(key, s, p, done);
      ReadsBack(v, s, k + 4, m);
      AfterKey(v, key, s, p, k, m, done);
      AppendMember(done, ms);
      assert (done + [ms[0]]) + ms[1..] == done + ms;
      MembersBack(ms[1..], done + [ms[0]], s, m + 2, q);
    }
  }

  /** Where the key and the value of the first member end. */
  lemma MemberParts(ms: seq<Member>, s: string, p: nat, q: nat) returns (k: nat, m: nat)
    requires ms != [] && (forall i :: 0 <= i < |ms| ==> Printable(ms[i].val))
    requires p <= q <= |s| && s[p..q] == RenderMembers(ms) + "}"
    ensures k == p + 1 + |ms[0].key| && k + 4 <= m && m + 2 <= q
    ensures s[p] == '"' && s[p + 1..k] == ms[0].key && s[k..k + 4] == "\" : " && s[k] == '"'
    ensures s[k + 4..m] == Render(ms[0].val) && s[m] == ',' && s[m + 1] == '\n'
    ensures s[m + 2..q] == RenderMembers(ms[1..]) + "}"
  {
    hide Render, RenderMembers, MemberText;
    MembersText(ms);
    var key, text, rest := ms[0].key, Render(ms[0].val), RenderMembers(ms[1..]);
    var member := MemberText(ms[0]);
    Assoc(member, rest, "}");
    Parts(s, p, q, member, rest + "}");
    k, m := p + 1 + |key|, p + |member| - 2;
    KeyParts(s, p, p + |member|, key, text);
  }

  lemma KeyParts(s: string, p: nat, q: nat, key: string, text: string)
    requires p <= q <= |s| && s[p..q] == "\"" + (key + ("\" : " + (text + ",\n")))
    ensures var k, m := p + 1 + |key|, q - 2;
            && k + 4 <= m && s[p] == '"' && s[p + 1..k] == key && s[k..k + 4] == "\" : " && s[k] == '"'
            && s[k + 4..m] == text && s[m] == ',' && s[m + 1] == '\n'
  {
    var k, rest := p + 1 + |key|, "\" : " + (text + ",\n");
    Parts(s, p, q, "\"", key + rest);
    Parts(s, p + 1, q, key, rest);
    ValueParts(s, k, q, text);
    assert s[p] == s[p..p + 1][0];
  }

  lemma ValueParts(s: string, k: nat, q: nat, text: string)
    requires k <= q <= |s| && s[k..q] == "\" : " + (text + ",\n")
    ensures k + 6 <= q && s[k..k + 4] == "\" : " && s[k] == '"'
    ensures s[k + 4..q - 2] == text && s[q - 2] == ',' && s[q - 1] == '\n'
  {
    Parts(s, k, q, "\" : ", text + ",\n");
    Parts(s, k + 4, q, text, ",\n");
    TwoAt(s, q - 2, ",\n");
    assert s[k] == s[k..k + 4][0];
  }

  /** A plain key is read whole. */
  lemma KeyBack(key: string, s: string, p: nat, done: seq<Member>)
    requires PlainKey(key) && p + |key| + 2 <= |s| && s[p] == '"'
    requires s[p + 1..p + 1 + |key|] == key && s[p + 1 + |key|] == '"'
    ensures var k := p + 1 + |key|;
            ParseMembers(s, p, NoKey, done) == ParseMembers(s, k + 1, ClosedKey(p + 1, k), done)
  {
    var k := p + 1 + |key|;
    hide *;
    PlainTail(key);
    assert s[p + 2..k] == s[p + 1..k][1..];
    EscapesPaired(Tail(key));
    QuoteClosesAt(s, p + 2, k);
    KeyCloses(s, p, k, done);
  }

  lemma PlainTail(key: string)
    requires PlainKey(key)
    ensures key != "" && Tail(key) == key[1..] && Unescape(Tail(key)).Some? && !BareQuote(Tail(key))
  {
    hide Unescape, BareQuote;
  }

  lemma KeyCloses(s: string, p: nat, k: nat, done: seq<Member>)
    requires p + 2 <= k < |s| && s[p] == '"' && CloseQuote(s, p + 2) == Got(k, k + 1) && Unescape(s[p + 2..k]).Some?
    ensures ParseMembers(s, p, NoKey, done) == ParseMembers(s, k + 1, ClosedKey(p + 1, k), done)
  {
    hide CloseQuote, Unescape;
  }

  lemma {:induction false} EscapesPaired(t: string)
    requires Unescape(t).Some?
    ensures !Dangling(t)
  {
    if t != "" {
      EscapesPaired(if t[0] == '\\' then t[2..] else t[1..]);
    }
  }

  /** A text without a bare quote is closed by the quote behind it. */
  lemma {:induction false} QuoteClosesAt(s: string, p: nat, q: nat)
    requires p <= q < |s| && s[q] == '"' && !BareQuote(s[p..q]) && !Dangling(s[p..q])
    ensures CloseQuote(s, p) == Got(q, q + 1)
    decreases q - p
  {
    if p < q {
      var t := s[p..q];
      assert t[0] == s[p] && t[1..] == s[p + 1..q];
      if s[p] == '\\' {
        assert t[2..] == s[p + 2..q];
        QuoteClosesAt(s, p + 2, q);
      } else {
        QuoteClosesAt(s, p + 1, q);
      }
    }
  }

  lemma AfterKey(v: Value, key: string, s: string, p: nat, k: nat, m: nat, done: seq<Member>)
    requires p + 1 <= k && k + 4 <= m && m + 2 <= |s| && s[p + 1..k] == key
    requires s[k..k + 4] == "\" : " && s[m] == ',' && s[m + 1] == '\n'
    requires ParseValue(s, k + 4) == Got(v, m)
    ensures ParseMembers(s, k + 1, ClosedKey(p + 1, k), done) == ParseMembers(s, m + 2, NoKey, SetMember(done, key, v))
  {
    var t := s[k..k + 4];
    assert s[k + 1] == t[1] == ' ' && s[k + 2] == t[2] == ':' && s[k + 3] == t[3] == ' ';
    assert ParseMembers(s, k + 1, ClosedKey(p + 1, k), done) == ParseMembers(s, k + 2, ClosedKey(p + 1, k), done);
    assert ParseValue(s, k + 3) == ParseValue(s, k + 4);
    var ms := SetMember(done, key, v);
    assert ParseMembers(s, k + 2, ClosedKey(p + 1, k), done) == ParseMembers(s, m, NoKey, ms);
    assert ParseMembers(s, m, NoKey, ms) == ParseMembers(s, m + 1, NoKey, ms);
  }

  lemma {:induction false} LessIsStrict(a: string, b: string)
    requires Less(a, b)
    ensures !Less(b, a) && a != b
    decreases |a|
  {
    if a != "" && a[0] == b[0] {
      LessIsStrict(a[1..], b[1..]);
    }
  }

  lemma {:induction false} AppendMember(done: seq<Member>, ms: seq<Member>)
    requires ms != [] && Ascending(done + ms)
    ensures SetMember(done, ms[0].key, ms[0].val) == done + [ms[0]]
    decreases |done|
  {
    if done != [] {
      var all := done + ms;
      assert all[0] == done[0] && all[|done|] == ms[0];
      LessIsStrict(done[0].key, ms[0].key);
      assert done[1..] + ms == all[1..];
      AppendMember(done[1..], ms);
      assert [done[0]] + (done[1..] + [ms[0]]) == done + [ms[0]];
    }
  }

  // ------------------------------------------------------------ whole runs

  /** All values of a text, as `getValue` gives them out until it returns false. */
  function ParseAll(s: string, p: nat): Option<seq<Value>>
    requires p <= |s|
    decreases |s| - p
  {
    match ParseValue(s, p)
    case Eof => Some([])
    case Fail(_) => None
    case Got(v, q) =>
      var rest := ParseAll(s, q);
      if rest.None? then None else Some([v] + rest.value)
  }

  /** Whatever list of readable values has been written with `putValue`, the reader gives it back. */
  lemma {:induction false} RoundTrip(vs: seq<Value>)
    requires AllReadable(vs)
    ensures forall i :: 0 <= i < |vs| ==> Printable(vs[i])
    ensures ParseAll(RenderAll(vs), 0) == Some(vs)
  {
    forall i | 0 <= i < |vs|
      ensures Printable(vs[i])
    {
      ReadablePrints(vs[i]);
    }
    var s := RenderAll(vs);
    assert s[0..] == s;
    RoundTripFrom(vs, s, 0);
  }

  lemma {:induction false} RoundTripFrom(vs: seq<Value>, s: string, p: nat)
    requires AllReadable(vs) && (forall i :: 0 <= i < |vs| ==> Printable(vs[i]))
    requires p <= |s| && s[p..] == RenderAll(vs)
    ensures ParseAll(s, p) == Some(vs)
    ensures p > 0 && s[p - 1] == '\n' ==> ParseAll(s, p - 1) == Some(vs)
    decreases |vs|
  {
    hide ParseValue, Render, RenderAll;
    AllText(vs);
    if p > 0 && s[p - 1] == '\n' {
      LineSkipped(s, p - 1);
    }
    if vs == [] {
      assert ParseValue(s, p) == Eof by { AtTheEnd(s); }
    } else {
      var text, rest := Render(vs[0]), RenderAll(vs[1..]);
      var m := p + |text|;
      LineParts(s, p, text, rest);
      ReadsBack(vs[0], s, p, m);
      RoundTripFrom(vs[1..], s, m + 1);
      assert vs == [vs[0]] + vs[1..];
    }
  }

  lemma AllText(vs: seq<Value>)
    requires forall i :: 0 <= i < |vs| ==> Printable(vs[i])
    ensures RenderAll(vs) == if vs == [] then "" else Render(vs[0]) + ("\n" + RenderAll(vs[1..]))
  {
    hide Render;
  }

  lemma LineParts(s: string, p: nat, text: string, rest: string)
    requires p <= |s| && s[p..] == text + ("\n" + rest)
    ensures var m := p + |text|;
            m < |s| && s[p..m] == text && s[m] == '\n' && s[m + 1..] == rest
  {
    var m := p + |text|;
    assert s[p..|s|] == s[p..];
    Parts(s, p, |s|, text, "\n" + rest);
    Parts(s, m, |s|, "\n", rest);
    assert s[m] == s[m..m + 1][0];
    assert s[m + 1..] == s[m + 1..|s|];
  }

  lemma AtTheEnd(s: string)
    ensures ParseValue(s, |s|) == Eof
  {
  }

  lemma LineSkipped(s: string, p: nat)
    requires p < |s| && s[p] == '\n'
    ensures ParseAll(s, p) == ParseAll(s, p + 1)
  {
  }
}
