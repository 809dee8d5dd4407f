/** The writer as it works: onto a stream, piece by piece. */
module JsonWriter {
  import opened Wrappers
  import opened Sequences
  import opened JsonText
  import opened JsonRoundTrip
  import opened JsonReader

  /** No double anywhere in v: how a stream prints one is not part of this model. */
  predicate NoReals(v: Value) {
    match v
    case Real(_) => false
    case Arr(items) => forall i :: 0 <= i < |items| ==> NoReals(items[i])
    case Obj(ms) => forall i :: 0 <= i < |ms| ==> NoReals(ms[i].val)
    case _ => true
  }

  class Writer {
    var out: string

    constructor ()
      ensures out == ""
    {
      out := "";
    }

    method PutValue(v: Value) returns (ok: bool)
      requires NoReals(v)
      modifies this
      ensures ok == Printable(v)
      ensures ok ==> out == old(out) + Render(v) + "\n"
    {
      ok := WriteValue(v);
      if ok {
        out := out + "\n";
      }
    }

    /** False stands for the exception that escaping throws. */
    method WriteValue(v: Value) returns (ok: bool)
      requires NoReals(v)
      modifies this
      ensures ok == Printable(v)
      ensures ok ==> out == old(out) + Render(v)
      decreases v, 1
    {
      ok := true;
      match v
      case Int(i) => out := out + Decimal(i);
      case UInt(u) => out := out + (Decimal(u) + "u");
      case Str(s) =>
        var e := EscapeString(s);
        ok := e.Some?;
        if ok {
          out := out + ("\"" + e.value + "\"");
        }
      case Obj(ms) => ok := WriteObject(ms);
      case Arr(items) => ok := WriteArray(items);
      case Null => out := out + "null";
      case Bool(b) => out := out + if b then "true" else "false";
    }

    method WriteArray(items: seq<Value>) returns (ok: bool)
      requires NoReals(Arr(items))
      modifies this
      ensures ok == Printable(Arr(items))
      ensures ok ==> out == old(out) + Render(Arr(items))
      decreases items, 0
    {
      hide Render, RenderItems;
      ghost var was := out;
      out := out + "[";
      NoMembers();
      var i := 0;
      while i < |items|
        invariant i <= |items| && forall k :: 0 <= k < i ==> Printable(items[k])
        invariant out == was + ("[" + RenderItems(items[..i]))
      {
        ok := WriteValue(items[i]);
        if !ok {
          return;
        }
        out := out + ", ";
        ItemsAppend(items[..i], items[i]);
        assert items[..i + 1] == items[..i] + [items[i]];
        Glue(was, "[" + RenderItems(items[..i]), Render(items[i]), ", ");
        Regroup(was, "[", RenderItems(items[..i]), Render(items[i]) + ", ");
        i := i + 1;
      }
      assert items[..i] == items;
      out := out + "]";
      ArrayText(items);
      return true;
    }

    method WriteObject(ms: seq<Member>) returns (ok: bool)
      requires NoReals(Obj(ms))
      modifies this
      ensures ok == Printable(Obj(ms))
      ensures ok ==> out == old(out) + Render(Obj(ms))
      decreases ms, 0
    {
      hide Render, RenderMembers, MemberText;
      ghost var was := out;
      out := out + "{\n";
      NoMembers();
      var i := 0;
      while i < |ms|
        invariant i <= |ms| && forall k :: 0 <= k < i ==> Printable(ms[k].val)
        invariant out == was + ("{\n" + RenderMembers(ms[..i]))
      {
        ghost var now := out;
        out := out + ("\"" + (ms[i].key + "\" : "));
        ok := WriteValue(ms[i].val);
        if !ok {
          return;
        }
        out := out + ",\n";
        MembersAppend(ms[..i], ms[i]);
        assert ms[..i + 1] == ms[..i] + [ms[i]];
        MemberGlue(now, ms[i]);
        Regroup(was, "{\n", RenderMembers(ms[..i]), MemberText(ms[i]));
        i := i + 1;
      }
      assert ms[..i] == ms;
      out := out + "}";
      ObjectText(ms);
      return true;
    }

    /** Copies what needs no escape in whole pieces; None stands for the exception. */
    static method EscapeString(unescaped: string) returns (r: Option<string>)
      ensures r == Escaped(unescaped)
    {
      var last, pos, out := 0, 0, "";
      assert unescaped[..0] == "" && "" + unescaped[0..0] == "";
      while pos < |unescaped|
        invariant last <= pos <= |unescaped|
        invariant Escaped(unescaped[..pos]) == Some(out + unescaped[last..pos])
      {
        var c := unescaped[pos];
        EscapedAppend(unescaped[..pos], c);
        assert unescaped[..pos + 1] == unescaped[..pos] + [c];
        assert unescaped[last..pos + 1] == unescaped[last..pos] + [c];
        Assoc(out, unescaped[last..pos], [c]);
        var code: Option<string> := None;
        if c == '"' || c == '\\' || c == '/' {
          code := Some(['\\', c]);
        } else if c == '\U{8}' {
          code := Some("\\b");
        } else if c == '\U{C}' {
          code := Some("\\f");
        } else if c == '\n' {
          code := Some("\\n");
        } else if c == '\r' {
          code := Some("\\r");
        } else if c == '\t' {
          code := Some("\\t");
        } else if c < ' ' || c >= '\U{80}' {
          EscapedFails(unescaped, pos);
          return None;
        }
        if code.Some? {
          out := out + unescaped[last..pos] + code.value;
          last := pos + 1;
          assert out + unescaped[last..pos + 1] == out;
        }
        pos := pos + 1;
      }
      assert unescaped[..pos] == unescaped;
      r := Some(out + unescaped[last..pos]);
    }
  }

  lemma Glue(a: string, b: string, c: string, d: string)
    ensures a + b + c + d == a + (b + (c + d)) && c + "" == c
  {
  }

  lemma {:induction false} ItemsAppend(vs: seq<Value>, v: Value)
    requires (forall i :: 0 <= i < |vs| ==> Printable(vs[i])) && Printable(v)
    ensures RenderItems(vs + [v]) == RenderItems(vs) + (Render(v) + ", ")
    decreases |vs|
  {
    hide Render, RenderItems;
    NoMembers();
    ItemsText(vs + [v]);
    var text := Render(v) + ", ";
    if vs == [] {
      assert (vs + [v])[1..] == [] && "" + text == text && ", " + "" == ", ";
    } else {
      ItemsAppend(vs[1..], v);
      ItemsText(vs);
      assert (vs + [v])[1..] == vs[1..] + [v];
      Assoc(Render(vs[0]), ", " + RenderItems(vs[1..]), text);
      Assoc(", ", RenderItems(vs[1..]), text);
    }
  }

  lemma Regroup(a: string, b: string, c: string, d: string)
    ensures (a + (b + c)) + d == a + (b + (c + d))
    ensures a + ((b + c) + d) == a + (b + (c + d))
  {
  }

  lemma MemberGlue(a: string, m: Member)
    requires Printable(m.val)
    ensures a + ("\"" + (m.key + "\" : ")) + Render(m.val) + ",\n" == a + MemberText(m)
  {
  }

  lemma {:induction false} MembersAppend(ms: seq<Member>, m: Member)
    requires (forall i :: 0 <= i < |ms| ==> Printable(ms[i].val)) && Printable(m.val)
    ensures RenderMembers(ms + [m]) == RenderMembers(ms) + MemberText(m)
    decreases |ms|
  {
    hide Render, RenderMembers, MemberText;
    NoMembers();
    MembersText(ms + [m]);
    if ms == [] {
      assert (ms + [m])[1..] == [] && "" + MemberText(m) == MemberText(m) == MemberText(m) + "";
    } else {
      MembersAppend(ms[1..], m);
      MembersText(ms);
      assert (ms + [m])[1..] == ms[1..] + [m];
      Assoc(MemberText(ms[0]), RenderMembers(ms[1..]), MemberText(m));
    }
  }

  lemma NoMembers()
    ensures RenderMembers([]) == "" && RenderItems([]) == ""
    ensures forall a: string, b: string :: a + b == a + (b + "")
  {
  }

  lemma ArrayText(items: seq<Value>)
    requires Printable(Arr(items))
    ensures Render(Arr(items)) == ("[" + RenderItems(items)) + "]"
  {
  }

  lemma ObjectText(ms: seq<Member>)
    requires Printable(Obj(ms))
    ensures Render(Obj(ms)) == ("{\n" + RenderMembers(ms)) + "}"
  {
  }

  lemma {:induction false} EscapedAppend(s: string, c: char)
    ensures var e, f := Escaped(s), EscapedChar(c);
            Escaped(s + [c]) == if e.None? || f.None? then None else Some(e.value + f.value)
    decreases |s|
  {
    if s == "" {
      assert s + [c] == [c] && [c][1..] == "";
      if EscapedChar(c).Some? {
        assert "" + EscapedChar(c).value == EscapedChar(c).value + "";
      }
    } else {
      EscapedAppend(s[1..], c);
      assert (s + [c])[1..] == s[1..] + [c];
      var first, rest, last := EscapedChar(s[0]), Escaped(s[1..]), EscapedChar(c);
      if first.Some? && rest.Some? && last.Some? {
        Assoc(first.value, rest.value, last.value);
      }
    }
  }

  lemma {:induction false} EscapedFails(s: string, k: nat)
    requires k < |s| && EscapedChar(s[k]).None?
    ensures Escaped(s).None?
    decreases |s|
  {
    if k > 0 {
      EscapedFails(s[1..], k - 1);
    }
  }

  /** The loader of RATDB's JSON files: every document must be an object. None stands for giving up. */
  method ParseDocuments(data: string) returns (docs: Option<seq<Value>>)
    requires NUL !in data
    ensures var all := ParseAll(data, 0);
            docs == if all.Some? && forall i :: 0 <= i < |all.value| ==> all.value[i].Obj? then all else None
  {
    hide ParseAll, ParseValue;
    var reader := new Reader(data);
    var vs: seq<Value> := [];
    BehindNothing(ParseAll(data, 0));
    while true
      invariant fresh(reader) && fresh(reader.buf) && reader.Valid() && reader.src == data
      invariant forall i :: 0 <= i < |vs| ==> vs[i].Obj?
      invariant ParseAll(data, 0) == Behind(vs, ParseAll(data, reader.cur))
      decreases |data| - reader.cur
    {
      AllStep(data, reader.cur, vs);
      var r := reader.GetValue();
      match r {
        case Threw(_) => return None;
        case AtEnd => return Some(vs);
        case Done(v) =>
          if !v.Obj? {
            return None;
          }
          vs := vs + [v];
      }
    }
  }

  function Behind(vs: seq<Value>, rest: Option<seq<Value>>): Option<seq<Value>> {
    if rest.None? then None else Some(vs + rest.value)
  }

  lemma BehindNothing(rest: Option<seq<Value>>)
    ensures Behind([], rest) == rest
  {
    assert rest.Some? ==> [] + rest.value == rest.value;
  }

  lemma AllStep(s: string, p: nat, vs: seq<Value>)
    requires p <= |s|
    ensures var b := Behind(vs, ParseAll(s, p));
            match ParseValue(s, p)
            case Eof => b == Some(vs)
            case Fail(_) => b == None
            case Got(v, q) =>
              && b == Behind(vs + [v], ParseAll(s, q))
              && (b.Some? ==> |vs| < |b.value| && b.value[|vs|] == v)
  {
    hide ParseValue;
    match ParseValue(s, p)
    case Eof => assert vs + [] == vs;
    case Fail(_) =>
    case Got(v, q) =>
      var rest := ParseAll(s, q);
      if rest.Some? {
        assert vs + ([v] + rest.value) == (vs + [v]) + rest.value;
      }
  }
}
