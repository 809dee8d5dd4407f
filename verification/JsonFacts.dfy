/** Exactly which values survive a trip through text, and what repetition counts mean. */
module JsonFacts {
  import opened Sequences
  import opened JsonText
  import opened JsonRoundTrip

  /** Readable but for its keys. */
  ghost predicate Writable(v: Value)
    decreases v
  {
    match v
    case Null => true
    case Bool(_) => true
    case Int(i) => -TWO31 <= i < TWO31
    case UInt(u) => 0 <= u < TWO32
    case Real(_) => false
    case Str(s) => Escaped(s).Some?
    case Arr(items) => AllWritable(items)
    case Obj(ms) => Ascending(ms) && MembersWritable(ms)
  }

  ghost predicate AllWritable(vs: seq<Value>)
    decreases vs
  {
    forall i :: 0 <= i < |vs| ==> Writable(vs[i])
  }

  ghost predicate MembersWritable(ms: seq<Member>)
    decreases ms
  {
    forall i :: 0 <= i < |ms| ==> CleanKey(ms[i].key) && Writable(ms[i].val)
  }

  /** A key that escapes nothing by its last character, and does not hold both a bare quote and a slash. */
  predicate CleanKey(k: string) {
    NUL !in k && !Dangling(Tail(k)) && (BareQuote(Tail(k)) ==> '/' !in k)
  }

  /** A key that no quote ends early and in which, behind the first character, each backslash makes an escape. */
  predicate KeyReadable(k: string) {
    ClosedKeyText(k) && Unescape(Tail(k)).Some?
  }

  /** What the reader makes keys of: a bare quote can only come from a comment in an unquoted key. */
  predicate KeyMade(k: string) {
    k != "" && (BareQuote(Tail(k)) ==> '/' in k)
  }

  /** All keys in v, however deep, are ok. */
  predicate KeysHold(v: Value, ok: string -> bool)
    decreases v
  {
    match v
    case Arr(items) => ItemsHold(items, ok)
    case Obj(ms) => MembersHold(ms, ok)
    case _ => true
  }

  predicate ItemsHold(vs: seq<Value>, ok: string -> bool)
    decreases vs
  {
    forall i :: 0 <= i < |vs| ==> KeysHold(vs[i], ok)
  }

  predicate MembersHold(ms: seq<Member>, ok: string -> bool)
    decreases ms
  {
    forall i :: 0 <= i < |ms| ==> ok(ms[i].key) && KeysHold(ms[i].val, ok)
  }

  /** Keys that can be written and that the reader makes end at their own quote. */
  lemma {:induction false} MadeClosed(v: Value)
    requires Writable(v) && KeysHold(v, KeyMade)
    ensures KeysHold(v, ClosedKeyText)
    decreases v
  {
    match v
    case Arr(items) =>
      forall i | 0 <= i < |items|
        ensures KeysHold(items[i], ClosedKeyText)
      {
        MadeClosed(items[i]);
      }
    case Obj(ms) =>
      forall i | 0 <= i < |ms|
        ensures ClosedKeyText(ms[i].key) && KeysHold(ms[i].val, ClosedKeyText)
      {
        MadeClosed(ms[i].val);
      }
    case _ =>
  }

  lemma {:induction false} WritableReads(v: Value)
    requires Writable(v) && KeysHold(v, KeyReadable)
    ensures Readable(v)
    decreases v
  {
    match v
    case Arr(items) =>
      forall i | 0 <= i < |items|
        ensures Readable(items[i])
      {
        WritableReads(items[i]);
      }
    case Obj(ms) =>
      forall i | 0 <= i < |ms|
        ensures Readable(ms[i].val)
      {
        WritableReads(ms[i].val);
      }
    case _ =>
  }

  lemma {:induction false} WritablePrints(v: Value)
    requires Writable(v)
    ensures Printable(v)
    decreases v
  {
    match v
    case Arr(items) =>
      forall i | 0 <= i < |items|
        ensures Printable(items[i])
      {
        WritablePrints(items[i]);
      }
    case Obj(ms) =>
      forall i | 0 <= i < |ms|
        ensures Printable(ms[i].val)
      {
        WritablePrints(ms[i].val);
      }
    case _ =>
  }

  lemma {:induction false} SetKeyed(ms: seq<Member>, key: string, v: Value)
    requires MembersHold(ms, KeyMade) && KeyMade(key) && KeysHold(v, KeyMade)
    ensures MembersHold(SetMember(ms, key, v), KeyMade)
    decreases |ms|
  {
    if ms != [] && ms[0].key != key && !Less(key, ms[0].key) {
      SetKeyed(ms[1..], key, v);
    }
  }

  lemma NumberKeyed(s: string, start: nat, p: nat, frac: bool, exp: bool)
    requires start <= p <= |s|
    ensures var r := ParseNumber(s, start, p, frac, exp); r.Got? ==> KeysHold(r.value, KeyMade)
    decreases |s| - p
  {
    hide Atoi, Hex, HexEnd, Respelled, Unsigned;
  }

  /** What is known of a key while it is read: quotes in one that is written without them stand in comments. */
  predicate KeyBegun(s: string, key: Key, p: nat)
    requires p <= |s| && KeyIn(s, key, p)
  {
    match key
    case NoKey => true
    case OpenKey(k) => '"' in s[k..p] ==> '/' in s[k..p]
    case ClosedKey(k, e) => KeyMade(s[k..e])
  }

  lemma {:induction false} BareIsQuote(t: string)
    ensures BareQuote(t) ==> '"' in t
    decreases |t|
  {
    if t != "" {
      if |t| > 1 {
        BareIsQuote(t[2..]);
      }
      BareIsQuote(t[1..]);
    }
  }

  /** The quote that closes a text is the first bare one. */
  lemma {:induction false} ClosedNotBare(s: string, p: nat, q: nat)
    requires CloseQuote(s, p) == Got(q, q + 1)
    ensures !BareQuote(s[p..q])
    decreases |s| - p
  {
    if p < q {
      var t := s[p..q];
      assert t[0] == s[p] && t[1..] == s[p + 1..q];
      if s[p] == '\\' {
        assert t[2..] == s[p + 2..q];
        ClosedNotBare(s, p + 2, q);
      } else {
        ClosedNotBare(s, p + 1, q);
      }
    }
  }

  /** A quoted key that was read. */
  lemma QuotedKey(s: string, p: nat)
    requires p < |s| && s[p] == '"'
    ensures var r := ParseString(s, p + 2); r.Got? ==> KeyBegun(s, ClosedKey(p + 1, r.next - 1), r.next)
  {
    var r := ParseString(s, p + 2);
    if r.Got? {
      hide BareQuote, Unescape;
      var q := r.next - 1;
      ClosedNotBare(s, p + 2, q);
      assert s[p + 1..q][1..] == s[p + 2..q];
    }
  }

  /** A key without quotes that ends at p. */
  lemma OpenKeyEnds(s: string, k: nat, p: nat)
    requires k < p <= |s| && KeyBegun(s, OpenKey(k), p)
    ensures KeyMade(s[k..p])
  {
    var t := s[k..p];
    hide BareQuote;
    BareIsQuote(Tail(t));
    assert forall i :: 1 <= i < |t| ==> t[i] == t[1..][i - 1];
  }

  /** A key without quotes that goes on from p to q. */
  lemma OpenKeyGrows(s: string, k: nat, p: nat, q: nat)
    requires k <= p < q <= |s| && (k < p ==> KeyBegun(s, OpenKey(k), p))
    requires s[p] == '/' || (q == p + 1 && s[p] != '"')
    ensures KeyBegun(s, OpenKey(k), q)
  {
    var t, u := s[k..p], s[k..q];
    assert u[p - k] == s[p];
    assert forall i :: 0 <= i < |t| ==> u[i] == t[i];
    if '"' in u && s[p] != '/' {
      var i: nat :| i < |u| && u[i] == '"';
      assert t[i] == '"';
    }
  }

  /** Whatever the text, the reader makes no empty key, and no key with a bare quote outside a comment. */
  lemma {:induction false} ValueKeyed(s: string, p: nat)
    requires p <= |s|
    ensures var r := ParseValue(s, p); r.Got? ==> KeysHold(r.value, KeyMade)
    decreases |s| - p, 0
  {
    hide ParseNumber, ParseString, ParseItems, ParseMembers, SkipComment;
    if p < |s| {
      var c := s[p];
      if Blank(c) {
        ValueKeyed(s, p + 1);
      } else if NumberStart(c) {
        NumberKeyed(s, p, p + 1, c == '.', false);
      } else if c == '{' {
        MembersRead(s, p + 1, NoKey, []);
      } else if c == '[' {
        ItemsRead(s, p + 1, [], Null);
      } else if c == '"' {
        StringKeyed(s, p + 1);
      } else if c == '/' {
        match SkipComment(s, p)
        case Got(_, q) => ValueKeyed(s, q);
        case Fail(_) =>
      }
    }
  }

  lemma StringKeyed(s: string, p: nat)
    ensures var r := ParseString(s, p); r.Got? ==> r.value.Str?
  {
  }

  lemma {:induction false} ItemsRead(s: string, p: nat, vs: seq<Value>, last: Value)
    requires p <= |s| && ItemsHold(vs, KeyMade) && KeysHold(last, KeyMade)
    ensures var r := ParseItems(s, p, vs, last); r.Got? ==> KeysHold(r.value, KeyMade)
    decreases |s| - p, 1
  {
    hide ParseValue, SkipComment;
    var c := At(s, p);
    if p < |s| {
      if c == '/' {
        match SkipComment(s, p)
        case Got(_, q) => ItemsRead(s, q, vs, last);
        case Fail(_) =>
      } else if Blank(c) || c == ',' {
        ItemsRead(s, p + 1, vs, last);
      } else if c == ':' {
        match ParseValue(s, p + 1)
        case Got(v, q) =>
          if v.Int? && v.i > 0 {
            ItemsRead(s, q, vs + Copies(last, v.i - 1), last);
          } else if v.Int? && v.i == 0 && vs != [] {
            ItemsRead(s, q, vs[..|vs| - 1], last);
          }
        case _ =>
      } else if c != ']' {
        ValueKeyed(s, p);
        match ParseValue(s, p)
        case Got(v, q) => ItemsRead(s, q, vs + [v], v);
        case _ =>
      }
    }
  }

  lemma {:induction false} MembersRead(s: string, p: nat, key: Key, ms: seq<Member>)
    requires p <= |s| && KeyIn(s, key, p) && KeyBegun(s, key, p) && MembersHold(ms, KeyMade)
    ensures var r := ParseMembers(s, p, key, ms); r.Got? ==> KeysHold(r.value, KeyMade)
    decreases |s| - p, 1
  {
    hide ParseValue, ParseString, SkipComment, SetMember, KeyBegun, KeyMade;
    var c := At(s, p);
    if p < |s| {
      if c == '/' {
        match SkipComment(s, p)
        case Got(_, q) =>
          KeyGrows(s, key, p, q);
          MembersRead(s, q, key, ms);
        case Fail(_) =>
      } else if Blank(c) {
        KeyGrows(s, key, p, p + 1);
        if key.OpenKey? {
          KeyEnds(s, key, p, p + 1);
        }
        MembersRead(s, p + 1, if key.OpenKey? then ClosedKey(key.start, p) else key, ms);
      } else if c == '}' {
      } else if c == ',' {
        if key.NoKey? {
          KeyGrows(s, key, p, p + 1);
          MembersRead(s, p + 1, key, ms);
        }
      } else if c == ':' {
        if !key.NoKey? {
          var end := if key.OpenKey? then p else key.end;
          ValueKeyed(s, p + 1);
          match ParseValue(s, p + 1)
          case Got(v, q) =>
            KeyEnds(s, key, p, q);
            SetKeyed(ms, s[key.start..end], v);
            MembersRead(s, q, NoKey, SetMember(ms, s[key.start..end], v));
          case _ =>
        }
      } else if c == '"' {
        QuotedKey(s, p);
        match ParseString(s, p + 2)
        case Got(_, q) => MembersRead(s, q, ClosedKey(p + 1, q - 1), ms);
        case _ =>
      } else if !key.ClosedKey? {
        KeyGrows(s, key, p, p + 1);
        OpenKeyGrows(s, p, p, p + 1);
        MembersRead(s, p + 1, if key.NoKey? then OpenKey(p) else key, ms);
      }
    }
  }

  /** Reading on keeps what is known of the key. */
  lemma KeyGrows(s: string, key: Key, p: nat, q: nat)
    requires p < q <= |s| && KeyIn(s, key, p) && KeyBegun(s, key, p)
    requires s[p] == '/' || (q == p + 1 && s[p] != '"')
    ensures KeyBegun(s, key, q)
  {
    if key.OpenKey? {
      OpenKeyGrows(s, key.start, p, q);
    }
  }

  lemma KeyEnds(s: string, key: Key, p: nat, q: nat)
    requires p < q <= |s| && KeyIn(s, key, p) && KeyBegun(s, key, p) && !key.NoKey?
    ensures KeyMade(s[key.start..if key.OpenKey? then p else key.end])
    ensures key.OpenKey? ==> KeyBegun(s, ClosedKey(key.start, p), q)
    ensures KeyBegun(s, NoKey, q)
  {
    if key.OpenKey? {
      OpenKeyEnds(s, key.start, p);
    }
  }

  // --------------------------------------------- keys with a backslash too many

  /** A key that ends at its own quote, with a backslash that makes no escape, stops the reader. */
  lemma KeyFails(key: string, s: string, p: nat, done: seq<Member>)
    requires CleanKey(key) && ClosedKeyText(key) && !KeyReadable(key) && p + |key| + 2 <= |s| && s[p] == '"'
    requires s[p + 1..p + 1 + |key|] == key && s[p + 1 + |key|] == '"'
    ensures ParseMembers(s, p, NoKey, done) == Fail(InvalidEscape)
  {
    var k := p + 1 + |key|;
    assert s[p + 2..k] == s[p + 1..k][1..];
    hide CloseQuote, Unescape, BareQuote, Dangling;
    QuoteClosesAt(s, p + 2, k);
  }

  lemma ItemFails(s: string, p: nat, done: seq<Value>, last: Value, e: Error)
    requires p < |s| && (NumberStart(s[p]) || s[p] in "\"{[ntf") && ParseValue(s, p) == Fail(e)
    ensures ParseItems(s, p, done, last) == Fail(e)
  {
  }

  lemma MemberFails(s: string, start: nat, k: nat, done: seq<Member>, e: Error)
    requires start <= k && k + 4 < |s| && s[k..k + 4] == "\" : " && ParseValue(s, k + 4) == Fail(e)
    ensures ParseMembers(s, k + 1, ClosedKey(start, k), done) == Fail(e)
  {
    var t := s[k..k + 4];
    assert s[k + 1] == t[1] == ' ' && s[k + 2] == t[2] == ':' && s[k + 3] == t[3] == ' ';
    assert ParseMembers(s, k + 1, ClosedKey(start, k), done) == ParseMembers(s, k + 2, ClosedKey(start, k), done);
    assert ParseValue(s, k + 3) == ParseValue(s, k + 4);
  }

  /** Wherever the first such key is, nothing comes back. */
  lemma {:induction false} BadEscapeFails(v: Value, s: string, p: nat, q: nat)
    requires Writable(v) && Printable(v) && p <= q < |s| && s[p..q] == Render(v)
    requires KeysHold(v, ClosedKeyText) && !KeysHold(v, KeyReadable)
    ensures ParseValue(s, p) == Fail(InvalidEscape)
    decreases v, 1
  {
    hide ParseValue, ParseItems, ParseMembers, Escaped, Decimal, RenderItems, RenderMembers;
    RenderStarts(v);
    assert s[p] == s[p..q][0];
    FirstCharacter(s, p);
    match v
    case Arr(items) =>
      Assoc("[", RenderItems(items), "]");
      Parts(s, p, q, "[", RenderItems(items) + "]");
      ItemsFail(items, [], Null, s, p + 1, q);
    case Obj(ms) =>
      Assoc("{\n", RenderMembers(ms), "}");
      Parts(s, p, q, "{\n", RenderMembers(ms) + "}");
      TwoAt(s, p, "{\n");
      MembersFail(ms, [], s, p + 2, q);
      BlankInMembers(s, p + 1, []);
    case _ =>
  }

  lemma {:induction false} ItemsFail(vs: seq<Value>, done: seq<Value>, last: Value, s: string, p: nat, q: nat)
    requires AllWritable(vs) && (forall i :: 0 <= i < |vs| ==> Printable(vs[i]))
    requires ItemsHold(vs, ClosedKeyText) && !ItemsHold(vs, KeyReadable)
    requires p <= q <= |s| && s[p..q] == RenderItems(vs) + "]"
    ensures ParseItems(s, p, done, last) == Fail(InvalidEscape)
    decreases vs, 0
  {
    hide ParseItems, ParseValue, Render, RenderItems;
    var v := vs[0];
    RenderStarts(v);
    var m := ItemParts(vs, s, p, q);
    if KeysHold(v, KeyReadable) {
      WritableReads(v);
      ReadsBack(v, s, p, m);
      ItemRead(s, p, done, last, v, m);
      SkipSeparator(s, m, done + [v], v);
      ItemsFail(vs[1..], done + [v], v, s, m + 2, q);
    } else {
      BadEscapeFails(v, s, p, m);
      ItemFails(s, p, done, last, InvalidEscape);
    }
  }

  lemma {:induction false} MembersFail(ms: seq<Member>, done: seq<Member>, s: string, p: nat, q: nat)
    requires MembersWritable(ms) && (forall i :: 0 <= i < |ms| ==> Printable(ms[i].val))
    requires MembersHold(ms, ClosedKeyText) && !MembersHold(ms, KeyReadable)
    requires p <= q <= |s| && s[p..q] == RenderMembers(ms) + "}"
    ensures ParseMembers(s, p, NoKey, done) == Fail(InvalidEscape)
    decreases ms, 0
  {
    hide ParseMembers, ParseValue, Render, RenderMembers, SetMember, Escaped, CleanKey, ClosedKeyText, KeyReadable;
    var key, v := ms[0].key, ms[0].val;
    var k, m := MemberParts(ms, s, p, q);
    RenderStarts(v);
    if !KeyReadable(key) {
      KeyFails(key, s, p, done);
    } else {
      PlainIsReadable(key);
      KeyBack(key, s, p, done);
      if KeysHold(v, KeyReadable) {
        WritableReads(v);
        ReadsBack(v, s, k + 4, m);
        AfterKey(v, key, s, p, k, m, done);
        MembersFail(ms[1..], SetMember(done, key, v), s, m + 2, q);
      } else {
        BadEscapeFails(v, s, k + 4, m);
        MemberFails(s, p + 1, k, done, InvalidEscape);
      }
    }
  }

  lemma PlainIsReadable(key: string)
    requires CleanKey(key) && KeyReadable(key)
    ensures PlainKey(key)
  {
  }

  // ------------------------------------------------------------------ exactly

  /** A writable value comes back from its own text exactly when all its keys can be read. */
  lemma RoundTripExactly(v: Value)
    requires Writable(v)
    ensures Printable(v)
    ensures var text := Render(v) + "\n"; ParseValue(text, 0) == Got(v, |text| - 1) <==> KeysHold(v, KeyReadable)
  {
    hide ParseValue, Render;
    WritablePrints(v);
    var text := Render(v) + "\n";
    assert text[0..|text| - 1] == Render(v);
    ValueKeyed(text, 0);
    if KeysHold(v, KeyReadable) {
      WritableReads(v);
      ReadsBack(v, text, 0, |text| - 1);
    } else if ParseValue(text, 0) == Got(v, |text| - 1) {
      MadeClosed(v);
      BadEscapeFails(v, text, 0, |text| - 1);
    }
  }

  /** An object with an empty key is written but cannot be read. */
  lemma EmptyKeyLost()
    ensures var v := Obj([Member("", Null)]);
            Writable(v) && Printable(v) && ParseValue(Render(v) + "\n", 0) != Got(v, |Render(v)|)
  {
    var v := Obj([Member("", Null)]);
    assert !KeysHold(v, KeyReadable) by { assert v.members[0].key == ""; }
    RoundTripExactly(v);
  }

  /** Nor can one with a key that a quote ends early, or with a backslash too many. */
  lemma OddKeyLost(key: string)
    requires key in {"x\"y", "x\\q"}
    ensures var v := Obj([Member(key, Null)]);
            Writable(v) && Printable(v) && ParseValue(Render(v) + "\n", 0) != Got(v, |Render(v)|)
  {
    var v, tail := Obj([Member(key, Null)]), Tail(key);
    if key == "x\\q" {
      assert tail[2..] == "";
    } else {
      assert tail[1..] == "y" && "y"[1..] == "";
    }
    assert CleanKey(key) && !KeyReadable(key);
    assert MembersWritable(v.members);
    assert !KeysHold(v, KeyReadable) by { assert v.members[0].key == key; }
    RoundTripExactly(v);
  }

  // ------------------------------------------------------- repetition counts

  datatype Repeat = Repeat(val: Value, count: int)

  ghost predicate Countable(rs: seq<Repeat>) {
    forall i :: 0 <= i < |rs| ==> Readable(rs[i].val) && Printable(rs[i].val) && 0 <= rs[i].count < TWO31
  }

  /** An array written as value:count, value:count, ... */
  ghost function RepeatsText(rs: seq<Repeat>): string
    requires Countable(rs)
  {
    if rs == [] then ""
    else Render(rs[0].val) + (":" + (Decimal(rs[0].count) + (", " + RepeatsText(rs[1..]))))
  }

  function Expanded(rs: seq<Repeat>): seq<Value>
    requires forall i :: 0 <= i < |rs| ==> 0 <= rs[i].count
  {
    if rs == [] then [] else Copies(rs[0].val, rs[0].count) + Expanded(rs[1..])
  }

  function Total(rs: seq<Repeat>): int {
    if rs == [] then 0 else rs[0].count + Total(rs[1..])
  }

  lemma {:induction false} ExpandedLength(rs: seq<Repeat>)
    requires forall i :: 0 <= i < |rs| ==> 0 <= rs[i].count
    ensures |Expanded(rs)| == Total(rs)
  {
    if rs != [] {
      ExpandedLength(rs[1..]);
    }
  }

  /** One value with its count: the value pushed first is taken back when the count is zero. */
  lemma RepeatBack(r: Repeat, done: seq<Value>, last: Value, s: string, p: nat, k: nat, m: nat)
    requires Readable(r.val) && Printable(r.val) && 0 <= r.count < TWO31 && p <= k < m && m + 2 <= |s|
    requires s[p..k] == Render(r.val) && s[k] == ':' && s[k + 1..m] == Decimal(r.count) && s[m] == ','
             && s[m + 1] == ' '
    ensures ParseItems(s, p, done, last) == ParseItems(s, m + 2, done + Copies(r.val, r.count), r.val)
  {
    hide ParseValue, ParseItems, Render, Decimal;
    RenderStarts(r.val);
    assert s[p] == s[p..k][0];
    ReadsBack(r.val, s, p, k);
    ItemRead(s, p, done, last, r.val, k);
    NumberBack(r.count, s, k + 1, m);
    CountRead(s, k, done + [r.val], r.val, r.count, m);
    SkipSeparator(s, m, done + Copies(r.val, r.count), r.val);
    if r.count == 0 {
      assert (done + [r.val])[..|done|] == done + Copies(r.val, 0);
    } else {
      assert done + [r.val] + Copies(r.val, r.count - 1) == done + Copies(r.val, r.count);
    }
  }

  lemma CountRead(s: string, k: nat, vs: seq<Value>, last: Value, n: int, m: nat)
    requires k < |s| && s[k] == ':' && vs != [] && n >= 0 && ParseValue(s, k + 1) == Got(Int(n), m)
    ensures ParseItems(s, k, vs, last)
         == ParseItems(s, m, if n == 0 then vs[..|vs| - 1] else vs + Copies(last, n - 1), last)
  {
  }

  lemma RepeatsTextIs(rs: seq<Repeat>)
    requires rs != [] && Countable(rs)
    ensures RepeatsText(rs)
         == Render(rs[0].val) + (":" + (Decimal(rs[0].count) + (", " + RepeatsText(rs[1..]))))
  {
    hide Render, Decimal;
  }

  lemma RepeatParts(rs: seq<Repeat>, s: string, p: nat, q: nat) returns (k: nat, m: nat)
    requires rs != [] && Countable(rs) && p <= q <= |s| && s[p..q] == RepeatsText(rs) + "]"
    ensures p <= k < m && m + 2 <= q && s[p..k] == Render(rs[0].val) && s[k] == ':'
    ensures s[k + 1..m] == Decimal(rs[0].count) && s[m] == ',' && s[m + 1] == ' '
    ensures s[m + 2..q] == RepeatsText(rs[1..]) + "]"
  {
    hide Render, Decimal, RepeatsText;
    RepeatsTextIs(rs);
    var a, b, rest := Render(rs[0].val), Decimal(rs[0].count), RepeatsText(rs[1..]);
    k, m := p + |a|, p + |a| + 1 + |b|;
    CountedParts(s, p, q, a, b, rest);
  }

  lemma CountedParts(s: string, p: nat, q: nat, a: string, b: string, rest: string)
    requires p <= q <= |s| && s[p..q] == (a + (":" + (b + (", " + rest)))) + "]"
    ensures var k, m := p + |a|, p + |a| + 1 + |b|;
            && m + 2 <= q && s[p..k] == a && s[k] == ':' && s[k + 1..m] == b && s[m] == ',' && s[m + 1] == ' '
            && s[m + 2..q] == rest + "]"
  {
    var k := p + |a|;
    Assoc(a, ":" + (b + (", " + rest)), "]");
    Assoc(":", b + (", " + rest), "]");
    Parts(s, p, q, a, ":" + ((b + (", " + rest)) + "]"));
    Parts(s, k, q, ":", (b + (", " + rest)) + "]");
    assert s[k] == s[k..k + 1][0];
    SeparatedParts(s, k + 1, q, b, ", ", rest, "]");
  }

  lemma {:induction false} RepeatsBack(rs: seq<Repeat>, done: seq<Value>, last: Value, s: string, p: nat, q: nat)
    requires Countable(rs) && p <= q <= |s| && s[p..q] == RepeatsText(rs) + "]"
    ensures ParseItems(s, p, done, last) == Got(Arr(done + Expanded(rs)), q)
    decreases |rs|
  {
    hide ParseItems, ParseValue, Render, Decimal;
    if rs == [] {
      ItemsEnd(s, p, q, done, last);
      assert done + Expanded(rs) == done;
    } else {
      hide RepeatsText;
      var k, m := RepeatParts(rs, s, p, q);
      RepeatBack(rs[0], done, last, s, p, k, m);
      RepeatsBack(rs[1..], done + Copies(rs[0].val, rs[0].count), rs[0].val, s, m + 2, q);
      Assoc(done, Copies(rs[0].val, rs[0].count), Expanded(rs[1..]));
    }
  }

  /** Counts mean copies: the array read has as many elements as the counts add up to. */
  lemma RepetitionExpands(rs: seq<Repeat>)
    requires Countable(rs)
    ensures var text := "[" + (RepeatsText(rs) + "]");
            ParseValue(text, 0) == Got(Arr(Expanded(rs)), |text|) && |Expanded(rs)| == Total(rs)
  {
    hide ParseValue, ParseItems, RepeatsText;
    var text := "[" + (RepeatsText(rs) + "]");
    assert text[1..|text|] == RepeatsText(rs) + "]";
    FirstCharacter(text, 0);
    RepeatsBack(rs, [], Null, text, 1, |text|);
    assert [] + Expanded(rs) == Expanded(rs);
    ExpandedLength(rs);
  }
}
