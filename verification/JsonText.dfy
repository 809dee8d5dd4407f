/**
 The language of the fastjson reader and writer, as functions of an unchanging
 text. `JsonReader` reads it from a buffer that it overwrites as it goes.
 */
module JsonText {
  import opened Wrappers

  /** A JSON value. `Real` stands for the double that atof makes of its text. */
  datatype Value =
    | Null
    | Bool(b: bool)
    | Int(i: int)
    | UInt(u: int)
    | Real(text: string)
    | Str(s: string)
    | Arr(items: seq<Value>)
    | Obj(members: seq<Member>)

  /** Members stand in ascending order of their keys, as in a std::map. */
  datatype Member = Member(key: string, val: Value)

  datatype Error =
    | UnexpectedCharacter | MalformedComment | MalformedHex | MalformedExponential
    | OpenString | InvalidEscape | OpenObject | ObjectSyntax | OpenArray | BadRepetition
    | PopOfNothing  // a zero repetition count in an array with no element
    | PastTheEnd    // the reader steps over the NUL that ends its buffer

  datatype Parse<+T> = Got(value: T, next: nat) | Eof | Fail(error: Error)

  const NUL: char := '\0'

  /** The character at i, the end of the text being marked by a NUL. */
  function At(s: string, i: nat): char {
    if i < |s| then s[i] else NUL
  }

  predicate Blank(c: char) {
    c == '\n' || c == '\r' || c == ' ' || c == '\t'
  }

  predicate Digit(c: char) {
    '0' <= c <= '9'
  }

  predicate HexDigit(c: char) {
    Digit(c) || 'a' <= c <= 'f' || 'A' <= c <= 'F'
  }

  predicate Sign(c: char) {
    c == '+' || c == '-'
  }

  // ---------------------------------------------------------------- numbers

  function DigitValue(c: char): (d: nat)
    requires HexDigit(c)
    ensures d < 16
    ensures Digit(c) ==> d < 10
  {
    if Digit(c) then c as int - '0' as int
    else if c <= 'F' then c as int - 'A' as int + 10
    else c as int - 'a' as int + 10
  }

  /** The value of the digits at the front of s, after those worth `val`. */
  function Digits(s: string, val: nat): nat {
    if s == "" || !Digit(s[0]) then val else Digits(s[1..], 10 * val + DigitValue(s[0]))
  }

  const TWO31: int := 0x8000_0000
  const TWO32: int := 0x1_0000_0000

  /** A C int made of n by wrapping around. */
  function Wrap(n: int): (i: int)
    ensures -TWO31 <= i < TWO31
    ensures -TWO31 <= n < TWO31 ==> i == n
  {
    (n + TWO31) % TWO32 - TWO31
  }

  function Atoi(s: string): int {
    if s != "" && s[0] == '-' then Wrap(0 - Digits(s[1..], 0))
    else if s != "" && s[0] == '+' then Wrap(Digits(s[1..], 0))
    else Wrap(Digits(s, 0))
  }

  function Unsigned(i: int): int {
    if i < 0 then i + TWO32 else i
  }

  function HexDigits(s: string, val: nat): nat {
    if s == "" || !HexDigit(s[0]) then val else HexDigits(s[1..], 16 * val + DigitValue(s[0]))
  }

  /** A hexadecimal number read from a stream into an unsigned int. */
  function Hex(s: string): int {
    var n := HexDigits(s, 0);
    if n < TWO32 then n else TWO32 - 1
  }

  /** The text of a number with `d` exponents spelled `e`. */
  function Respelled(s: string): (r: string)
    ensures |r| == |s| && forall i :: 0 <= i < |s| ==> r[i] == if s[i] == 'd' then 'e' else s[i]
  {
    seq(|s|, i requires 0 <= i < |s| => if s[i] == 'd' then 'e' else s[i])
  }

  function HexEnd(s: string, p: nat): (q: nat)
    requires p <= |s|
    ensures p <= q <= |s|
    ensures !HexDigit(At(s, q))
    decreases |s| - p
  {
    if p < |s| && HexDigit(s[p]) then HexEnd(s, p + 1) else p
  }

  /** The number that starts at `start` and has been read up to p. */
  function ParseNumber(s: string, start: nat, p: nat, frac: bool, exp: bool): (r: Parse<Value>)
    requires start <= p <= |s|
    ensures !r.Eof? && (r.Got? ==> p <= r.next <= |s|)
    decreases |s| - p
  {
    var c := At(s, p);
    var text := Respelled(s[start..p]);
    if p == |s| then Got(if frac || exp then Real(text) else Int(Atoi(text)), p)
    else if c == 'x' then
      if p == start + 1 && s[start] == '0' then
        var q := HexEnd(s, p + 1);
        Got(UInt(Hex(s[p + 1..q])), q)
      else Fail(MalformedHex)
    else if c == 'e' then ParseNumber(s, start, p + 1, frac, true)
    else if c == 'u' then Got(UInt(Unsigned(Atoi(text))), p + 1)
    else if c == 'd' && (Sign(At(s, p + 1)) || Digit(At(s, p + 1))) then
      if exp then Fail(MalformedExponential) else ParseNumber(s, start, p + 1, frac, true)
    else if c == 'd' && exp then ParseNumber(s, start, p + 1, frac, true)
    else if c == 'd' || c == 'f' then Got(Real(text), p + 1)
    else if c == '.' then ParseNumber(s, start, p + 1, true, exp)
    else if Sign(c) || Digit(c) then ParseNumber(s, start, p + 1, frac, exp)
    else Got(if frac || exp then Real(text) else Int(Atoi(text)), p)
  }

  // ---------------------------------------------------------------- strings

  /** Where the string is closed whose text is read from p on. */
  function CloseQuote(s: string, p: nat): (r: Parse<nat>)
    ensures !r.Eof? && (r.Got? ==> p <= r.value < |s| && r.next == r.value + 1)
    decreases |s| - p
  {
    if p > |s| then Fail(PastTheEnd)
    else if p == |s| then Fail(OpenString)
    else if s[p] == '\\' then CloseQuote(s, p + 2)
    else if s[p] == '"' then Got(p, p + 1)
    else CloseQuote(s, p + 1)
  }

  /** The character that backslash and c stand for. */
  function Unescaped(c: char): Option<char> {
    match c
    case '"' => Some('"')
    case '\\' => Some('\\')
    case '/' => Some('/')
    case 'b' => Some('\U{8}')
    case 'f' => Some('\U{C}')
    case 'n' => Some('\n')
    case 'r' => Some('\r')
    case 't' => Some('\t')
    case _ => None
  }

  function Unescape(s: string): Option<string> {
    if s == "" then Some("")
    else if s[0] != '\\' then
      var rest := Unescape(s[1..]);
      if rest.None? then None else Some([s[0]] + rest.value)
    else if |s| == 1 || Unescaped(s[1]).None? then None
    else
      var rest := Unescape(s[2..]);
      if rest.None? then None else Some([Unescaped(s[1]).value] + rest.value)
  }

  /** The string whose opening quote stands before p. */
  function ParseString(s: string, p: nat): (r: Parse<Value>)
    ensures !r.Eof? && (r.Got? ==> p < r.next <= |s|)
  {
    match CloseQuote(s, p)
    case Fail(e) => Fail(e)
    case Got(q, next) =>
      var t := Unescape(s[p..q]);
      if t.None? then Fail(InvalidEscape) else Got(Str(t.value), next)
  }

  // ------------------------------------------------- comments and structures

  function LineEnd(s: string, p: nat): (q: nat)
    requires p <= |s|
    ensures p <= q <= |s|
    decreases |s| - p
  {
    if p < |s| && s[p] != '\n' then LineEnd(s, p + 1) else p
  }

  /** Past the first star-slash at or after p. */
  function CommentEnd(s: string, p: nat): (r: Parse<()>)
    requires p <= |s|
    ensures !r.Eof? && (r.Got? ==> p < r.next <= |s|)
    decreases |s| - p
  {
    if p == |s| then Fail(MalformedComment)
    else if s[p] == '*' && At(s, p + 1) == '/' then Got((), p + 2)
    else CommentEnd(s, p + 1)
  }

  /** The comment whose slash is at p. The star of its opening may also close it. */
  function SkipComment(s: string, p: nat): (r: Parse<()>)
    requires p < |s|
    ensures !r.Eof? && (r.Got? ==> p < r.next <= |s|)
  {
    if At(s, p + 1) == '/' then
      var q := LineEnd(s, p + 1);
      if q == |s| then Fail(MalformedComment) else Got((), q + 1)
    else if At(s, p + 1) == '*' then CommentEnd(s, p + 1)
    else Fail(MalformedComment)
  }

  /** The key of a member as far as it has been read: not begun, begun, or complete. */
  datatype Key = NoKey | OpenKey(start: nat) | ClosedKey(start: nat, end: nat)

  predicate KeyIn(s: string, key: Key, p: nat) {
    match key
    case NoKey => true
    case OpenKey(k) => k < p
    case ClosedKey(k, e) => k <= e < p
  }

  /** Keys compare by their characters, as std::string does. */
  predicate Less(a: string, b: string) {
    if b == "" then false
    else if a == "" then true
    else if a[0] != b[0] then a[0] < b[0]
    else Less(a[1..], b[1..])
  }

  function SetMember(ms: seq<Member>, key: string, val: Value): seq<Member> {
    if ms == [] then [Member(key, val)]
    else if ms[0].key == key then [Member(key, val)] + ms[1..]
    else if Less(key, ms[0].key) then [Member(key, val)] + ms
    else [ms[0]] + SetMember(ms[1..], key, val)
  }

  function Copies(v: Value, n: nat): (r: seq<Value>)
    ensures |r| == n && forall i :: 0 <= i < n ==> r[i] == v
  {
    seq(n, i => v)
  }

  predicate NumberStart(c: char) {
    Sign(c) || c == '.' || Digit(c)
  }

  /** The next value at or after p. */
  function ParseValue(s: string, p: nat): (r: Parse<Value>)
    requires p <= |s|
    ensures r.Got? ==> p < r.next <= |s|
    decreases |s| - p, 0
  {
    var c := At(s, p);
    if p == |s| then Eof
    else if Blank(c) then ParseValue(s, p + 1)
    else if NumberStart(c) then ParseNumber(s, p, p + 1, c == '.', false)
    else if c == '{' then ParseMembers(s, p + 1, NoKey, [])
    else if c == '[' then ParseItems(s, p + 1, [], Null)
    else if c == '"' then ParseString(s, p + 1)
    else if c == 'n' && At(s, p + 1) == 'u' && At(s, p + 2) == 'l' && At(s, p + 3) == 'l' then Got(Null, p + 4)
    else if c == 't' && At(s, p + 1) == 'r' && At(s, p + 2) == 'u' && At(s, p + 3) == 'e' then Got(Bool(true), p + 4)
    else if c == 'f' && At(s, p + 1) == 'a' && At(s, p + 2) == 'l' && At(s, p + 3) == 's' && At(s, p + 4) == 'e'
    then Got(Bool(false), p + 5)
    else if c == '/' then
      match SkipComment(s, p)
      case Got(_, q) => ParseValue(s, q)
      case Fail(e) => Fail(e)
    else Fail(UnexpectedCharacter)
  }

  /** The rest of an object of which `ms` has been read. */
  function ParseMembers(s: string, p: nat, key: Key, ms: seq<Member>): (r: Parse<Value>)
    requires p <= |s| && KeyIn(s, key, p)
    ensures r.Got? ==> p < r.next <= |s|
    ensures !r.Eof?
    decreases |s| - p, 1
  {
    var c := At(s, p);
    if p == |s| then Fail(OpenObject)
    else if c == '/' then
      match SkipComment(s, p)
      case Got(_, q) => ParseMembers(s, q, key, ms)
      case Fail(e) => Fail(e)
    else if Blank(c) then
      ParseMembers(s, p + 1, if key.OpenKey? then ClosedKey(key.start, p) else key, ms)
    else if c == '}' then if key.NoKey? then Got(Obj(ms), p + 1) else Fail(ObjectSyntax)
    else if c == ',' then if key.NoKey? then ParseMembers(s, p + 1, key, ms) else Fail(ObjectSyntax)
    else if c == ':' then
      if key.NoKey? then Fail(ObjectSyntax)
      else
        var end := if key.OpenKey? then p else key.end;
        match ParseValue(s, p + 1)
        case Got(v, q) => ParseMembers(s, q, NoKey, SetMember(ms, s[key.start..end], v))
        case Eof => Fail(OpenObject)
        case Fail(e) => Fail(e)
    else if c == '"' then
      // reading goes on after the first character of the key, whatever that is
      match ParseString(s, p + 2)
      case Got(_, q) => ParseMembers(s, q, ClosedKey(p + 1, q - 1), ms)
      case Fail(e) => Fail(e)
    else if key.ClosedKey? then Fail(ObjectSyntax)
    else ParseMembers(s, p + 1, if key.NoKey? then OpenKey(p) else key, ms)
  }

  /** The rest of an array of which `vs` has been read, `last` being the value read last. */
  function ParseItems(s: string, p: nat, vs: seq<Value>, last: Value): (r: Parse<Value>)
    requires p <= |s|
    ensures r.Got? ==> p < r.next <= |s|
    ensures !r.Eof?
    decreases |s| - p, 1
  {
    var c := At(s, p);
    if p == |s| then Fail(OpenArray)
    else if c == '/' then
      match SkipComment(s, p)
      case Got(_, q) => ParseItems(s, q, vs, last)
      case Fail(e) => Fail(e)
    else if Blank(c) || c == ',' then ParseItems(s, p + 1, vs, last)
    else if c == ':' then
      match ParseValue(s, p + 1)
      case Got(v, q) =>
        if !v.Int? || v.i < 0 then Fail(BadRepetition)
        else if v.i > 0 then ParseItems(s, q, vs + Copies(last, v.i - 1), last)
        else if vs == [] then Fail(PopOfNothing)
        else ParseItems(s, q, vs[..|vs| - 1], last)
      case Eof => Fail(BadRepetition)
      case Fail(e) => Fail(e)
    else if c == ']' then Got(Arr(vs), p + 1)
    else
      match ParseValue(s, p)
      case Got(v, q) => ParseItems(s, q, vs + [v], v)
      case Eof => Fail(OpenArray)
      case Fail(e) => Fail(e)
  }
}
