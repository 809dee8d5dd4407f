/**
 The reader as it works: over a buffer of its own, into which it writes NULs
 (and `e` for `d`) so that library calls see the text they are meant to.
 Every method does what the function of `JsonText` does on the untouched text.
 */
module JsonReader {
  import opened Wrappers
  import opened JsonText

  /** How a reading method comes back. */
  datatype Outcome<+T> = Done(value: T) | AtEnd | Threw(error: Error)

  /** `ParseNumber`, one character on. */
  lemma NumberStep(s: string, start: nat, p: nat, frac: bool, exp: bool)
    requires start <= p <= |s| && NUL !in s
    ensures var r, c, text := ParseNumber(s, start, p, frac, exp), At(s, p), Respelled(s[start..p]);
            var power := c == 'd' && (Sign(At(s, p + 1)) || Digit(At(s, p + 1)));
            if c == 'x' then
              r == if p == start + 1 && s[start] == '0'
                   then Got(UInt(Hex(s[p + 1..HexEnd(s, p + 1)])), HexEnd(s, p + 1))
                   else Fail(MalformedHex)
            else if c == 'u' then r == Got(UInt(Unsigned(Atoi(text))), p + 1)
            else if power && exp then r == Fail(MalformedExponential)
            else if c == 'e' || power || (c == 'd' && exp) then r == ParseNumber(s, start, p + 1, frac, true)
            else if c == 'd' || c == 'f' then r == Got(Real(text), p + 1)
            else if c == '.' then r == ParseNumber(s, start, p + 1, true, exp)
            else if Sign(c) || Digit(c) then r == ParseNumber(s, start, p + 1, frac, exp)
            else r == Got(if frac || exp then Real(text) else Int(Atoi(text)), p)
  {
  }

  lemma NumberBegins(s: string, p: nat)
    requires p < |s| && NumberStart(s[p])
    ensures ParseNumber(s, p, p, false, false) == ParseNumber(s, p, p + 1, s[p] == '.', false)
  {
  }

  /** `ParseValue`, by its first character. */
  lemma ValueStep(s: string, p: nat)
    requires p <= |s| && NUL !in s
    ensures var r, c := ParseValue(s, p), At(s, p);
            if c == NUL then r == Eof
            else if Blank(c) then r == ParseValue(s, p + 1)
            else if NumberStart(c) then r == ParseNumber(s, p, p + 1, c == '.', false)
            else if c == '{' then r == ParseMembers(s, p + 1, NoKey, [])
            else if c == '[' then r == ParseItems(s, p + 1, [], Null)
            else if c == '"' then r == ParseString(s, p + 1)
            else if c == 'n' && At(s, p + 1) == 'u' && At(s, p + 2) == 'l' && At(s, p + 3) == 'l'
              then r == Got(Null, p + 4)
            else if c == 't' && At(s, p + 1) == 'r' && At(s, p + 2) == 'u' && At(s, p + 3) == 'e'
              then r == Got(Bool(true), p + 4)
            else if c == 'f' && At(s, p + 1) == 'a' && At(s, p + 2) == 'l' && At(s, p + 3) == 's' && At(s, p + 4) == 'e'
            then r == Got(Bool(false), p + 5)
            else if c == '/' then
              match JsonText.SkipComment(s, p)
              case Got(_, q) => r == ParseValue(s, q)
              case Fail(e) => r == Fail(e)
            else r == Fail(UnexpectedCharacter)
  {
  }

  lemma ItemsStep(s: string, p: nat, vs: seq<Value>, last: Value)
    requires p <= |s| && NUL !in s
    ensures var r, c := ParseItems(s, p, vs, last), At(s, p);
            if c == NUL then r == Fail(OpenArray)
            else if c == '/' then
              match JsonText.SkipComment(s, p)
              case Got(_, q) => r == ParseItems(s, q, vs, last)
              case Fail(e) => r == Fail(e)
            else if Blank(c) || c == ',' then r == ParseItems(s, p + 1, vs, last)
            else if c == ':' then
              match ParseValue(s, p + 1)
              case Got(v, q) =>
                r == if !v.Int? || v.i < 0 then Fail(BadRepetition)
                     else if v.i > 0 then ParseItems(s, q, vs + Copies(last, v.i - 1), last)
                     else if vs == [] then Fail(PopOfNothing)
                     else ParseItems(s, q, vs[..|vs| - 1], last)
              case Eof => r == Fail(BadRepetition)
              case Fail(e) => r == Fail(e)
            else if c == ']' then r == Got(Arr(vs), p + 1)
            else
              match ParseValue(s, p)
              case Got(v, q) => r == ParseItems(s, q, vs + [v], v)
              case Eof => r == Fail(OpenArray)
              case Fail(e) => r == Fail(e)
  {
  }

  lemma MembersStep(s: string, p: nat, key: Key, ms: seq<Member>)
    requires p <= |s| && NUL !in s && KeyIn(s, key, p)
    ensures var r, c := ParseMembers(s, p, key, ms), At(s, p);
            if c == NUL then r == Fail(OpenObject)
            else if c == '/' then
              match JsonText.SkipComment(s, p)
              case Got(_, q) => r == ParseMembers(s, q, key, ms)
              case Fail(e) => r == Fail(e)
            else if Blank(c) then r == ParseMembers(s, p + 1, if key.OpenKey? then ClosedKey(key.start, p) else key, ms)
            else if c == '}' then r == if key.NoKey? then Got(Obj(ms), p + 1) else Fail(ObjectSyntax)
            else if c == ',' then r == if key.NoKey? then ParseMembers(s, p + 1, key, ms) else Fail(ObjectSyntax)
            else if c == ':' then
              if key.NoKey? then r == Fail(ObjectSyntax)
              else
                var end := if key.OpenKey? then p else key.end;
                match ParseValue(s, p + 1)
                case Got(v, q) => r == ParseMembers(s, q, NoKey, SetMember(ms, s[key.start..end], v))
                case Eof => r == Fail(OpenObject)
                case Fail(e) => r == Fail(e)
            else if c == '"' then
              match ParseString(s, p + 2)
              case Got(_, q) => r == ParseMembers(s, q, ClosedKey(p + 1, q - 1), ms)
              case Fail(e) => r == Fail(e)
            else if key.ClosedKey? then r == Fail(ObjectSyntax)
            else r == ParseMembers(s, p + 1, if key.NoKey? then OpenKey(p) else key, ms)
  {
  }

  lemma NoNul(s: string)
    requires NUL !in s
    ensures forall i :: 0 <= i < |s| ==> s[i] != NUL
  {
    assert forall i :: 0 <= i < |s| ==> s[i] in s;
  }

  lemma RespelledPart(s: string, p: nat, q: nat)
    requires p <= q <= |s|
    ensures Respelled(s[p..q]) == Respelled(s)[p..q]
    ensures NUL !in s ==> NUL !in Respelled(s)
  {
    assert forall i :: 0 <= i < |s| && s[i] == NUL ==> s[i] in s;
  }

  class Reader {
    const buf: array<char>
    var cur: int
    ghost const src: string

    /** What has not been read is still the text, closed by a NUL. */
    ghost predicate Valid()
      reads this, buf
    {
      && NUL !in src && buf.Length == |src| + 1 && 0 <= cur <= |src|
      && forall i :: cur <= i < buf.Length ==> buf[i] == At(src, i)
    }

    /** What has been read before `from` is as it was. */
    twostate predicate Keeps(from: int)
      reads buf
    {
      forall i :: 0 <= i < from && i < buf.Length ==> buf[i] == old(buf[i])
    }

    ghost predicate Agrees<T>(r: Outcome<T>, spec: Parse<T>)
      reads this, buf
    {
      match spec
      case Got(v, q) => r == Done(v) && cur == q && Valid()
      case Eof => r == AtEnd && cur == |src| && Valid()
      case Fail(e) => r == Threw(e)
    }

    constructor (str: string)
      requires NUL !in str
      ensures Valid() && src == str && cur == 0 && fresh(buf)
    {
      buf := new char[|str| + 1](i => if 0 <= i < |str| then str[i] else NUL);
      cur := 0;
      src := str;
    }

    /** The C string at `at`, which `end` is known to close, and which is a part of `text`. */
    method CString(at: nat, ghost end: nat, ghost text: string) returns (t: string)
      requires at <= end < buf.Length && end <= |text| && buf[end] == NUL && NUL !in text
      requires forall i :: at <= i < end ==> buf[i] == text[i]
      ensures t == text[at..end]
    {
      NoNul(text);
      t := "";
      var i := at;
      while buf[i] != NUL
        invariant at <= i <= end && t == text[at..i]
        decreases end - i
      {
        assert text[at..i + 1] == text[at..i] + [text[i]];
        t := t + [buf[i]];
        i := i + 1;
      }
    }

    method SkipComment() returns (r: Outcome<()>)
      requires Valid() && cur < |src| && buf[cur] == '/'
      modifies this`cur
      ensures Agrees(r, JsonText.SkipComment(src, old(cur)))
    {
      if buf[cur + 1] == '/' {
        cur := cur + 1;
        ghost var from := cur;
        while buf[cur] != NUL && buf[cur] != '\n'
          invariant Valid() && from <= cur && LineEnd(src, cur) == LineEnd(src, from)
          decreases |src| - cur
        {
          cur := cur + 1;
        }
        if buf[cur] != NUL {
          cur := cur + 1;
          return Done(());
        }
      } else if buf[cur + 1] == '*' {
        cur := cur + 1;
        ghost var from := cur;
        while buf[cur] != NUL
          invariant Valid() && from <= cur && CommentEnd(src, cur) == CommentEnd(src, from)
          decreases |src| - cur
        {
          if buf[cur] == '*' && buf[cur + 1] == '/' {
            cur := cur + 2;
            return Done(());
          }
          cur := cur + 1;
        }
      }
      return Threw(MalformedComment);
    }

    /** From `start` on the buffer holds what has been read, with `e` for `d`. */
    ghost predicate Spelled(start: int)
      reads this, buf
    {
      && 0 <= start <= cur <= |src| < buf.Length
      && forall i :: start <= i < cur ==> buf[i] == if src[i] == 'd' then 'e' else src[i]
    }

    method ReadNumber() returns (r: Outcome<Value>)
      requires Valid() && cur < |src| && NumberStart(buf[cur])
      modifies this`cur, buf
      ensures Agrees(r, ParseNumber(src, old(cur), old(cur) + 1, src[old(cur)] == '.', false)) && Keeps(old(cur))
    {
      hide ParseNumber, Atoi, Unsigned, Respelled, Hex, HexEnd;
      NumberBegins(src, cur);
      var frac, exp, start := false, false, cur;
      while true
        invariant Valid() && start <= cur && Keeps(start)
        invariant Spelled(start)
        invariant ParseNumber(src, start, cur, frac, exp) == ParseNumber(src, start, start, false, false)
        decreases |src| - cur
      {
        var c := buf[cur];
        NumberStep(src, start, cur, frac, exp);
        if c == 'x' {
          if cur - start == 1 && buf[start] == '0' {
            r := ReadHex();
            return;
          }
          return Threw(MalformedHex);
        } else if c == 'e' {
          exp := true;
          cur := cur + 1;
        } else if c == 'u' {
          var text := Cut(start);
          return Done(UInt(Unsigned(Atoi(text))));
        } else if c == 'd' || c == 'f' {
          if c == 'd' && (Sign(buf[cur + 1]) || Digit(buf[cur + 1])) {
            if exp {
              return Threw(MalformedExponential);
            }
            exp := true;
          }
          if c == 'd' && exp {
            Respell(start);
          } else {
            var text := Cut(start);
            return Done(Real(text));
          }
        } else if c == '.' {
          frac := true;
          cur := cur + 1;
        } else if Sign(c) || Digit(c) {
          cur := cur + 1;
        } else {
          var text := Borrowed(start);
          return Done(if frac || exp then Real(text) else Int(Atoi(text)));
        }
      }
    }

    /** Ends the text at `cur` with a NUL and gives what stands from `start` on. */
    method Terminated(start: nat) returns (text: string)
      requires Valid() && start <= cur
      requires Spelled(start)
      modifies buf
      ensures text == Respelled(src[start..cur]) && buf[cur] == NUL
      ensures forall i :: 0 <= i < buf.Length && i != cur ==> buf[i] == old(buf[i])
    {
      buf[cur] := NUL;
      RespelledPart(src, start, cur);
      text := CString(start, cur, Respelled(src));
    }

    /** The suffix at `cur` is overwritten, and read. */
    method Cut(start: nat) returns (text: string)
      requires Valid() && cur < |src| && Spelled(start)
      modifies this`cur, buf
      ensures text == Respelled(src[start..old(cur)]) && cur == old(cur) + 1 && Valid() && Keeps(start)
    {
      text := Terminated(start);
      cur := cur + 1;
    }

    /** The character at `cur` is overwritten only while the text before it is used. */
    method Borrowed(start: nat) returns (text: string)
      requires Valid() && Spelled(start)
      modifies buf
      ensures text == Respelled(src[start..cur]) && Valid() && Keeps(start)
    {
      var next := buf[cur];
      text := Terminated(start);
      buf[cur] := next;
    }

    method Respell(start: nat)
      requires Valid() && cur < |src| && Spelled(start) && buf[cur] == 'd'
      modifies this`cur, buf
      ensures cur == old(cur) + 1 && Valid() && Spelled(start) && Keeps(start)
    {
      buf[cur] := 'e';
      cur := cur + 1;
    }

    method ReadHex() returns (r: Outcome<Value>)
      requires Valid() && cur < |src|
      modifies this`cur, buf
      ensures var q := HexEnd(src, old(cur) + 1);
              r == Done(UInt(Hex(src[old(cur) + 1..q]))) && cur == q && Valid() && Keeps(old(cur))
    {
      cur := cur + 1;
      var start := cur;
      while HexDigit(buf[cur])
        invariant Valid() && start <= cur && HexEnd(src, cur) == HexEnd(src, start)
        invariant forall i :: start <= i < cur ==> buf[i] == src[i]
        modifies this`cur
        decreases |src| - cur
      {
        cur := cur + 1;
      }
      var next := buf[cur];
      buf[cur] := NUL;
      var text := CString(start, cur, src);
      buf[cur] := next;
      r := Done(UInt(Hex(text)));
    }

    /** Position of the first c in t at or after `from`, |t| if there is none. */
    static method Find(t: string, c: char, from: nat) returns (pos: nat)
      requires from <= |t|
      ensures from <= pos <= |t| && (forall i :: from <= i < pos ==> t[i] != c) && (pos < |t| ==> t[pos] == c)
    {
      pos := from;
      while pos < |t| && t[pos] != c
        invariant from <= pos <= |t| && forall i :: from <= i < pos ==> t[i] != c
      {
        pos := pos + 1;
      }
    }

    /** Copies what stands between escapes in whole pieces. */
    static method UnescapeString(escaped: string) returns (r: Option<string>)
      ensures r == Unescape(escaped)
    {
      var last, out := 0, "";
      assert escaped[0..] == escaped;
      PrefixedBy("", "", Unescape(escaped));
      var pos := Find(escaped, '\\', 0);
      while pos < |escaped|
        invariant last <= pos <= |escaped| && (forall i :: last <= i < pos ==> escaped[i] != '\\')
        invariant pos < |escaped| ==> escaped[pos] == '\\'
        invariant Unescape(escaped) == Prefixed(out, Unescape(escaped[last..]))
        decreases |escaped| - pos
      {
        UnescapePiece(escaped, last, pos);
        PrefixedBy(out, escaped[last..pos], Unescape(escaped[pos..]));
        out := out + escaped[last..pos];
        if pos + 1 == |escaped| || Unescaped(escaped[pos + 1]).None? {
          return None;
        }
        assert escaped[pos..][2..] == escaped[pos + 2..];
        PrefixedBy(out, [Unescaped(escaped[pos + 1]).value], Unescape(escaped[pos + 2..]));
        out := out + [Unescaped(escaped[pos + 1]).value];
        last := pos + 2;
        pos := Find(escaped, '\\', last);
      }
      UnescapePiece(escaped, last, pos);
      assert escaped[pos..] == "" && escaped[last..pos] == escaped[last..];
      PrefixedBy(out, escaped[last..], Some(""));
      assert out + escaped[last..] + "" == out + escaped[last..];
      r := Some(out + escaped[last..]);
    }

    method ReadString() returns (r: Outcome<Value>)
      requires Valid()
      modifies this`cur, buf
      ensures Agrees(r, ParseString(src, old(cur) + 1))
      ensures forall i :: 0 <= i < buf.Length && i != cur - 1 ==> buf[i] == old(buf[i])
      ensures old(cur) <= cur && (r.Done? ==> old(cur) + 1 < cur && buf[cur - 1] == NUL)
      ensures cur - 1 <= old(cur) ==> buf[..] == old(buf[..])
    {
      var start := cur + 1;
      var q := start;
      while true
        invariant Valid() && start <= q && buf[..] == old(buf[..]) && cur == old(cur)
        invariant CloseQuote(src, q) == CloseQuote(src, start)
        decreases |src| - q
      {
        if q >= buf.Length {
          return Threw(PastTheEnd);
        }
        var c := buf[q];
        q := q + 1;
        if c == '\\' {
          q := q + 1;
        } else if c == '"' {
          break;
        } else if c == NUL {
          return Threw(OpenString);
        }
      }
      buf[q - 1] := NUL;
      cur := q;
      var text := CString(start, q - 1, src);
      var t := UnescapeString(text);
      r := if t.None? then Threw(InvalidEscape) else Done(Str(t.value));
    }

    method GetValue() returns (r: Outcome<Value>)
      requires Valid()
      modifies this`cur, buf
      ensures Agrees(r, ParseValue(src, old(cur))) && Keeps(old(cur))
      decreases |src| - cur, 1
    {
      hide ParseValue;
      ghost var from := cur;
      while true
        invariant Valid() && from <= cur && Keeps(from)
        invariant ParseValue(src, cur) == ParseValue(src, from)
        decreases |src| - cur
      {
        var c := buf[cur];
        ValueStep(src, cur);
        if Blank(c) {
          cur := cur + 1;
        } else if NumberStart(c) {
          r := ReadNumber();
          return;
        } else if c == '{' {
          r := ReadObject();
          return;
        } else if c == '[' {
          r := ReadArray();
          return;
        } else if c == '"' {
          r := ReadString();
          return;
        } else if c == 'n' {
          if buf[cur + 1] == 'u' && buf[cur + 2] == 'l' && buf[cur + 3] == 'l' {
            cur := cur + 4;
            return Done(Null);
          }
          return Threw(UnexpectedCharacter);
        } else if c == 't' {
          if buf[cur + 1] == 'r' && buf[cur + 2] == 'u' && buf[cur + 3] == 'e' {
            cur := cur + 4;
            return Done(Bool(true));
          }
          return Threw(UnexpectedCharacter);
        } else if c == 'f' {
          if buf[cur + 1] == 'a' && buf[cur + 2] == 'l' && buf[cur + 3] == 's' && buf[cur + 4] == 'e' {
            cur := cur + 5;
            return Done(Bool(false));
          }
          return Threw(UnexpectedCharacter);
        } else if c == '/' {
          var skipped := SkipComment();
          if skipped.Threw? {
            return Threw(skipped.error);
          }
        } else if c == NUL {
          return AtEnd;
        } else {
          return Threw(UnexpectedCharacter);
        }
      }
    }

    method ReadArray() returns (r: Outcome<Value>)
      requires Valid() && cur < |src| && buf[cur] == '['
      modifies this`cur, buf
      ensures Agrees(r, ParseItems(src, old(cur) + 1, [], Null)) && Keeps(old(cur) + 1)
      decreases |src| - cur, 0
    {
      hide ParseItems, ParseValue, JsonText.SkipComment;
      var items: seq<Value>, next := [], Null;
      cur := cur + 1;
      ghost var from := cur;
      while true
        invariant Valid() && from <= cur && Keeps(from)
        invariant ParseItems(src, cur, items, next) == ParseItems(src, from, [], Null)
        decreases |src| - cur
      {
        var c := buf[cur];
        ItemsStep(src, cur, items, next);
        if c == '/' {
          var skipped := SkipComment();
          if skipped.Threw? {
            return Threw(skipped.error);
          }
        } else if Blank(c) || c == ',' {
          cur := cur + 1;
        } else if c == ':' {
          cur := cur + 1;
          var reps := GetValue();
          if reps.Threw? {
            return Threw(reps.error);
          }
          if reps.AtEnd? || !reps.value.Int? || reps.value.i < 0 {
            return Threw(BadRepetition);
          }
          var nreps := reps.value.i;
          if nreps == 0 {
            if items == [] {
              return Threw(PopOfNothing);
            }
            items := items[..|items| - 1];
          } else {
            items := Repeated(items, next, nreps);
          }
        } else if c == ']' {
          cur := cur + 1;
          return Done(Arr(items));
        } else if c == NUL {
          return Threw(OpenArray);
        } else {
          var v := GetValue();
          if v.Threw? {
            return Threw(v.error);
          }
          if v.AtEnd? {
            return Threw(OpenArray);
          }
          next := v.value;
          items := items + [next];
        }
      }
    }

    /** The value has been pushed once already. */
    static method Repeated(items: seq<Value>, next: Value, nreps: int) returns (all: seq<Value>)
      requires nreps > 0
      ensures all == items + Copies(next, nreps - 1)
    {
      all := items;
      var i := 1;
      while i < nreps
        invariant 1 <= i <= nreps && all == items + Copies(next, i - 1)
      {
        assert Copies(next, i) == Copies(next, i - 1) + [next];
        all := all + [next];
        i := i + 1;
      }
    }

    /** The key that has begun at `key`, if any, is in the buffer; if complete, a NUL ends it. */
    ghost predicate HoldsKey(k: Key)
      reads this, buf
      requires Valid()
    {
      KeyIn(src, k, cur) &&
      match k
      case NoKey => true
      case OpenKey(s) => forall i :: s <= i < cur ==> buf[i] == src[i]
      case ClosedKey(s, e) => buf[e] == NUL && forall i :: s <= i < e ==> buf[i] == src[i]
    }

    /** The value behind the colon at `cur`, with its key, which has survived the reading of the value. */
    method ReadMember(key: nat, keyfound: bool, ghost k: Key) returns (r: Outcome<Member>)
      requires Valid() && cur < |src| && HoldsKey(k) && !k.NoKey? && k.start == key && (keyfound <==> k.ClosedKey?)
      modifies this`cur, buf
      ensures match ParseValue(src, old(cur) + 1)
              case Got(v, q) =>
                && r == Done(Member(src[key..if keyfound then k.end else old(cur)], v))
                && cur == q && Valid()
              case Eof => r == AtEnd
              case Fail(e) => r == Threw(e)
      ensures Keeps(old(cur))
      decreases |src| - cur, 0
    {
      ghost var end := if keyfound then k.end else cur;
      if !keyfound {
        buf[cur] := NUL;
      }
      cur := cur + 1;
      assert buf[end] == NUL && forall i :: key <= i < end ==> buf[i] == src[i];
      var val := GetValue();
      if val.Threw? {
        return Threw(val.error);
      }
      if val.AtEnd? {
        return AtEnd;
      }
      assert forall i :: key <= i < end ==> buf[i] == src[i];
      var name := CString(key, end, src);
      r := Done(Member(name, val.value));
    }

    /** The blank at `cur` ends the key. */
    method EndKey(ghost k: Key)
      requires Valid() && cur < |src| && k.ClosedKey? && k.end == cur && HoldsKey(OpenKey(k.start))
      modifies this`cur, buf
      ensures cur == old(cur) + 1 && Valid() && HoldsKey(k) && Keeps(old(cur))
    {
      buf[cur] := NUL;
      cur := cur + 1;
    }

    /** A key in quotes: its text is used as it stands, whatever `ReadString` makes of it. */
    method ReadKey() returns (r: Outcome<nat>)
      requires Valid() && cur < |src| && buf[cur] == '"'
      modifies this`cur, buf
      ensures match ParseString(src, old(cur) + 2)
              case Got(_, q) =>
                && r == Done(old(cur) + 1) && cur == q && Valid()
                && HoldsKey(ClosedKey(old(cur) + 1, q - 1))
              case Fail(e) => r == Threw(e)
      ensures Keeps(old(cur) + 1)
      ensures !r.AtEnd?
    {
      hide ParseString;
      cur := cur + 1;
      var key := cur;
      var skipped := ReadString();
      if skipped.Threw? {
        return Threw(skipped.error);
      }
      r := Done(key);
    }

    /** What the reader knows of an object: its members so far and the key that has begun. */
    ghost predicate Midway(members: seq<Member>, key: Option<nat>, keyfound: bool, k: Key, goal: Parse<Value>)
      reads this, buf
    {
      && Valid() && HoldsKey(k) && (key.None? <==> k.NoKey?) && (key.Some? ==> k.start == key.value)
      && (keyfound <==> k.ClosedKey?) && ParseMembers(src, cur, k, members) == goal
    }

    /** One turn of the loop of `ReadObject`. */
    method ObjectStep(members: seq<Member>, key: Option<nat>, keyfound: bool, ghost k: Key, ghost goal: Parse<Value>)
      returns (over: Option<Outcome<Value>>, members': seq<Member>, key': Option<nat>, keyfound': bool, ghost k': Key)
      requires Midway(members, key, keyfound, k, goal)
      modifies this`cur, buf
      ensures over.Some? ==> Agrees(over.value, goal)
      ensures over.None? ==> old(cur) < cur && Midway(members', key', keyfound', k', goal)
      ensures Keeps(old(cur))
      decreases |src| - cur, 1
    {
      hide ParseMembers, SetMember, ParseString, ParseValue, JsonText.SkipComment;
      var c := buf[cur];
      MembersStep(src, cur, k, members);
      over, members', key', keyfound', k' := None, members, key, keyfound, k;
      if c == '/' {
        var skipped := SkipComment();
        if skipped.Threw? {
          over := Some(Threw(skipped.error));
        }
      } else if Blank(c) {
        if key.Some? && !keyfound {
          keyfound', k' := true, ClosedKey(k.start, cur);
          EndKey(k');
        } else {
          cur := cur + 1;
        }
      } else if c == '}' {
        cur := cur + 1;
        over := Some(if key.Some? then Threw(ObjectSyntax) else Done(Obj(members)));
      } else if c == ',' {
        cur := cur + 1;
        if key.Some? {
          over := Some(Threw(ObjectSyntax));
        }
      } else if c == ':' {
        if key.None? {
          over := Some(Threw(ObjectSyntax));
        } else {
          var m := ReadMember(key.value, keyfound, k);
          match m {
            case Threw(e) => over := Some(Threw(e));
            case AtEnd => over := Some(Threw(OpenObject));
            case Done(member) =>
              members' := SetMember(members, member.key, member.val);
              key', keyfound', k' := None, false, NoKey;
          }
        }
      } else if c == '"' {
        var quoted := ReadKey();
        if quoted.Threw? {
          over := Some(Threw(quoted.error));
        } else {
          key', keyfound', k' := Some(quoted.value), true, ClosedKey(quoted.value, cur - 1);
        }
      } else if c == NUL {
        over := Some(Threw(OpenObject));
      } else if keyfound {
        over := Some(Threw(ObjectSyntax));
      } else {
        if key.None? {
          key', k' := Some(cur), OpenKey(cur);
        }
        cur := cur + 1;
      }
    }

    method ReadObject() returns (r: Outcome<Value>)
      requires Valid() && cur < |src| && buf[cur] == '{'
      modifies this`cur, buf
      ensures Agrees(r, ParseMembers(src, old(cur) + 1, NoKey, [])) && Keeps(old(cur) + 1)
      decreases |src| - cur, 0
    {
      hide ParseMembers;
      var members: seq<Member>, key: Option<nat>, keyfound := [], None, false;
      ghost var k := NoKey;
      cur := cur + 1;
      ghost var from, goal := cur, ParseMembers(src, cur, NoKey, []);
      while true
        invariant Midway(members, key, keyfound, k, goal) && from <= cur && Keeps(from)
        decreases |src| - cur
      {
        var over;
        over, members, key, keyfound, k := ObjectStep(members, key, keyfound, k, goal);
        if over.Some? {
          return over.value;
        }
      }
    }
  }

  function Prefixed(out: string, t: Option<string>): Option<string> {
    if t.None? then None else Some(out + t.value)
  }

  lemma PrefixedBy(a: string, b: string, t: Option<string>)
    ensures Prefixed("", t) == t && Prefixed(a, Prefixed(b, t)) == Prefixed(a + b, t)
  {
    if t.Some? {
      assert a + (b + t.value) == (a + b) + t.value;
      assert "" + t.value == t.value;
    }
  }

  lemma {:induction false} UnescapePiece(t: string, last: nat, pos: nat)
    requires last <= pos <= |t| && forall i :: last <= i < pos ==> t[i] != '\\'
    ensures Unescape(t[last..]) == Prefixed(t[last..pos], Unescape(t[pos..]))
    decreases pos - last
  {
    if last == pos {
      assert t[last..pos] == "";
      PrefixedBy("", "", Unescape(t[pos..]));
    } else {
      PrefixedBy([t[last]], t[last + 1..pos], Unescape(t[pos..]));
      UnescapePiece(t, last + 1, pos);
      assert t[last..][1..] == t[last + 1..];
      assert t[last..pos] == [t[last]] + t[last + 1..pos];
    }
  }
}
