/**
 The tokens of RATDB text as functions of the text and a position in it: blanks
 and comments first, then one token of as many characters as it can have.
 */
module TokenText {
  import opened Wrappers

  datatype Type = IDENTIFIER | INTEGER | DOUBLE | STRING | SYMBOL | EOF | ERROR | EOF_ERROR

  datatype Message = IllegalCharacter | IncorrectComment | UnableToParseNumber | UnableToParseHex

  datatype Value = NoValue | IntValue(i: int) | DoubleValue(d: real)

  /** How a call ends: with a type, a token, a value, and the position behind; or with an error raised at a position. */
  datatype Scan =
    | Got(kind: Type, token: string, val: Value, next: nat)
    | Raised(message: Message, token: string, at: nat)

  /** What sscanf makes of the text of a number with the formats %d, %lf and %x. */
  datatype Scanf = Scanf(decimal: string -> Option<int>, floating: string -> Option<real>, hex: string -> Option<int>)

  // -------------------------------------------------------------- characters

  const SYMBOLS := "{}[],:#"
  const QUOTES := "\"'"
  const NUMBERS := "0123456789+-.ed"
  const HEX := "0123456789abcdefABCDEF"

  predicate Space(c: char) {
    c == ' ' || c == '\t' || c == '\n' || c == '\r' || c == 11 as char || c == 12 as char
  }

  predicate Alpha(c: char) {
    'a' <= c <= 'z' || 'A' <= c <= 'Z'
  }

  predicate Digit(c: char) {
    '0' <= c <= '9'
  }

  predicate IdentStart(c: char) {
    Alpha(c) || c == '_'
  }

  predicate IdentChar(c: char) {
    Alpha(c) || Digit(c) || c == '_'
  }

  predicate SymbolChar(c: char) {
    c in SYMBOLS
  }

  predicate QuoteChar(c: char) {
    c in QUOTES
  }

  predicate NumberChar(c: char) {
    c in NUMBERS
  }

  predicate HexChar(c: char) {
    c in HEX
  }

  /** What a number may hold that makes it a double. */
  predicate DoubleMark(c: char) {
    c == 'e' || c == '.' || c == 'd'
  }

  function Escape(c: char): Option<char> {
    match c
    case '"' => Some('"')
    case '/' => Some('/')
    case '\\' => Some('\\')
    case 'b' => Some(8 as char)
    case 'f' => Some(12 as char)
    case 'n' => Some('\n')
    case 'r' => Some('\r')
    case 't' => Some('\t')
    case _ => None
  }

  // ------------------------------------------------------------------ lines

  function Newlines(s: string): nat {
    if s == "" then 0 else (if s[|s| - 1] == '\n' then 1 else 0) + Newlines(s[..|s| - 1])
  }

  /** The number of the line that position i is in. */
  function LineOf(doc: string, i: nat): nat
    requires i <= |doc|
  {
    1 + Newlines(doc[..i])
  }

  /** Where that line starts. */
  function LineStart(doc: string, i: nat): (j: nat)
    requires i <= |doc|
    ensures j <= i && (j > 0 ==> doc[j - 1] == '\n')
    ensures forall k :: j <= k < i ==> doc[k] != '\n'
  {
    if i == 0 || doc[i - 1] == '\n' then i else LineStart(doc, i - 1)
  }

  lemma LineNext(doc: string, i: nat)
    requires i < |doc|
    ensures LineOf(doc, i + 1) == LineOf(doc, i) + (if doc[i] == '\n' then 1 else 0)
    ensures LineStart(doc, i + 1) == if doc[i] == '\n' then i + 1 else LineStart(doc, i)
  {
    assert doc[..i + 1][..i] == doc[..i];
  }

  /** Where the line that starts at or before i ends. */
  function LineEnd(doc: string, i: nat): (j: nat)
    requires i <= |doc|
    ensures i <= j <= |doc| && (j < |doc| ==> doc[j] == '\n')
    ensures forall k :: i <= k < j ==> doc[k] != '\n'
    decreases |doc| - i
  {
    if i == |doc| || doc[i] == '\n' then i else LineEnd(doc, i + 1)
  }

  /** The text of the line that position i is in. */
  function LineText(doc: string, i: nat): string
    requires i <= |doc|
  {
    doc[LineStart(doc, i)..LineEnd(doc, i)]
  }

  // ------------------------------------------------------------------ tokens

  /** The end of the characters of a kind at i. */
  function Run(doc: string, i: nat, kind: char -> bool): (j: nat)
    requires i <= |doc|
    ensures i <= j <= |doc| && (forall k :: i <= k < j ==> kind(doc[k])) && (j < |doc| ==> !kind(doc[j]))
    decreases |doc| - i
  {
    if i < |doc| && kind(doc[i]) then Run(doc, i + 1, kind) else i
  }

  function AtEnd(doc: string, token: string): Scan {
    Got(if token == "" then EOF else EOF_ERROR, token, NoValue, |doc|)
  }

  /** Behind a comment that ends with its line. */
  function LineComment(doc: string, i: nat): (j: nat)
    requires i <= |doc|
    ensures i <= j <= |doc|
  {
    var j := LineEnd(doc, i); if j < |doc| then j + 1 else j
  }

  /** Behind a comment that ends with a star and a slash, or the end of the text. */
  function LongComment(doc: string, i: nat): (j: nat)
    requires i <= |doc|
    ensures i <= j <= |doc|
    decreases |doc| - i
  {
    if i == |doc| then i
    else if doc[i] == '*' && i + 1 < |doc| && doc[i + 1] == '/' then i + 2
    else LongComment(doc, i + 1)
  }

  function Identifier(doc: string, token: string, i: nat): Scan
    requires i <= |doc|
  {
    var j := Run(doc, i, IdentChar);
    if j == |doc| then AtEnd(doc, token + doc[i..]) else Got(IDENTIFIER, token + doc[i..j], NoValue, j)
  }

  /** A number as C writes it. */
  function Translated(s: string): string {
    if s == "" then "" else Translated(s[..|s| - 1]) + [if s[|s| - 1] == 'd' then 'e' else s[|s| - 1]]
  }

  predicate HasMark(s: string) {
    exists i :: 0 <= i < |s| && DoubleMark(s[i])
  }

  /** A number of which `front` has been read, which does not tell whether it is a double, and then `tail`. */
  function Number(doc: string, front: string, tail: string, i: nat, scanf: Scanf): Scan
    requires i <= |doc|
  {
    var j := Run(doc, i, NumberChar);
    var rest := tail + doc[i..j];
    if j == |doc| then AtEnd(doc, front + rest) else NumberOf(front, rest, j, scanf)
  }

  /** A number that ends before j. */
  function NumberOf(front: string, rest: string, j: nat, scanf: Scanf): Scan {
    if HasMark(rest) then
      match scanf.floating(front + Translated(rest))
      case Some(d) => Got(DOUBLE, front + rest, DoubleValue(d), j)
      case None => Got(ERROR, front + rest, NoValue, j)
    else
      match scanf.decimal(front + rest)
      case Some(n) => Got(INTEGER, front + rest, IntValue(n), j)
      case None => Raised(UnableToParseNumber, front + rest, j)
  }

  function HexNumber(doc: string, token: string, i: nat, scanf: Scanf): Scan
    requires i <= |doc|
  {
    var j := Run(doc, i, HexChar);
    if j == |doc| then AtEnd(doc, token + doc[i..])
    else
      match scanf.hex(token + doc[i..j])
      case Some(n) => Got(INTEGER, token + doc[i..j], IntValue(n), j)
      case None => Raised(UnableToParseHex, token + doc[i..j], j)
  }

  /** The rest of a string that `quote` ends. */
  function Quoted(doc: string, quote: char, token: string, i: nat): Scan
    requires i <= |doc|
    decreases |doc| - i
  {
    if i == |doc| then AtEnd(doc, token)
    else if doc[i] == quote then Got(STRING, token, NoValue, i + 1)
    else if doc[i] == '\\' then Escaped(doc, quote, token, i + 1)
    else Quoted(doc, quote, token + [doc[i]], i + 1)
  }

  function Escaped(doc: string, quote: char, token: string, i: nat): Scan
    requires i <= |doc|
    decreases |doc| - i
  {
    if i == |doc| then AtEnd(doc, token)
    else
      match Escape(doc[i])
      case Some(c) => Quoted(doc, quote, token + [c], i + 1)
      case None => Got(ERROR, token, NoValue, i)
  }

  /** What follows a slash. */
  function Comment(doc: string, i: nat, scanf: Scanf): Scan
    requires i <= |doc|
    decreases |doc| - i, 0
  {
    if i == |doc| then AtEnd(doc, "")
    else if doc[i] == '/' then NextToken(doc, LineComment(doc, i + 1), scanf)
    else if doc[i] == '*' then NextToken(doc, LongComment(doc, i + 1), scanf)
    else Raised(IncorrectComment, "", i)
  }

  /** The next token at or behind i. */
  function NextToken(doc: string, i: nat, scanf: Scanf): Scan
    requires i <= |doc|
    decreases |doc| - i, 1
  {
    if i == |doc| then AtEnd(doc, "")
    else
      var c := doc[i];
      if Space(c) then NextToken(doc, i + 1, scanf)
      else if c == '/' then Comment(doc, i + 1, scanf)
      else if SymbolChar(c) then Got(SYMBOL, [c], NoValue, i + 1)
      else if QuoteChar(c) then Quoted(doc, c, "", i + 1)
      else if IdentStart(c) then Identifier(doc, [c], i + 1)
      else if NumberChar(c) then
        if c == '0' && i + 1 < |doc|
            && (doc[i + 1] == 'x' || doc[i + 1] == 'X') then HexNumber(doc, doc[i..i + 2], i + 2, scanf)
        else Number(doc, [c], "", i + 1, scanf)
      else Raised(IllegalCharacter, "", i)
  }

  // ------------------------------------------------------------------- facts

  /** Where a call leaves the position. */
  function Behind(r: Scan): nat {
    if r.Got? then r.next else r.at
  }

  /** The position has not gone back, nor beyond the text; only the end of the text makes an end of tokens. */
  ghost predicate Sane(doc: string, i: nat, r: Scan) {
    i <= Behind(r) <= |doc| && (r.Got? && r.kind == EOF ==> r.token == "" && r.next == |doc|)
  }

  lemma {:induction false} QuotedSane(doc: string, quote: char, token: string, i: nat)
    requires i <= |doc|
    ensures Sane(doc, i, Quoted(doc, quote, token, i)) && Sane(doc, i, Escaped(doc, quote, token, i))
    decreases |doc| - i
  {
    if i < |doc| {
      QuotedSane(doc, quote, token, i + 1);
      QuotedSane(doc, quote, token + [doc[i]], i + 1);
      if Escape(doc[i]).Some? {
        QuotedSane(doc, quote, token + [Escape(doc[i]).value], i + 1);
      }
    }
  }

  lemma WordsSane(doc: string, token: string, i: nat, scanf: Scanf)
    requires i <= |doc|
    ensures Sane(doc, i, Identifier(doc, token, i)) && Sane(doc, i, HexNumber(doc, token, i, scanf))
    ensures Sane(doc, i, Number(doc, token, "", i, scanf))
  {
    hide Run, NumberOf;
    NumberOfSane(token, "" + doc[i..Run(doc, i, NumberChar)], Run(doc, i, NumberChar), scanf);
  }

  lemma NumberOfSane(front: string, rest: string, j: nat, scanf: Scanf)
    ensures var r := NumberOf(front, rest, j, scanf); Behind(r) == j && (r.Got? ==> r.kind != EOF)
  {
    hide HasMark, Translated;
  }

  /** No token, blank or comment starts with c. */
  predicate StartsNothing(c: char) {
    !Space(c) && c != '/' && !SymbolChar(c) && !QuoteChar(c) && !IdentStart(c) && !NumberChar(c)
  }

  /** A call moves on, unless it begins at the end of the text or at a character that starts nothing. */
  lemma {:induction false} MovesOn(doc: string, i: nat, scanf: Scanf)
    requires i <= |doc|
    ensures var r := NextToken(doc, i, scanf);
            Sane(doc, i, r) && (Behind(r) == i <==> i == |doc| || StartsNothing(doc[i]))
    ensures Sane(doc, i, Comment(doc, i, scanf))
    decreases |doc| - i
  {
    hide Quoted, Identifier, HexNumber, Number, LineComment, LongComment;
    hide Space, SymbolChar, QuoteChar, NumberChar, IdentStart;
    if i < |doc| {
      MovesOn(doc, i + 1, scanf);
      QuotedSane(doc, doc[i], "", i + 1);
      WordsSane(doc, [doc[i]], i + 1, scanf);
      if i + 1 < |doc| {
        WordsSane(doc, doc[i..i + 2], i + 2, scanf);
      }
      MovesOn(doc, LineComment(doc, i + 1), scanf);
      MovesOn(doc, LongComment(doc, i + 1), scanf);
    }
  }

  // ------------------------------------------------- which numbers are doubles

  /** A number that is not written in hexadecimal starts at i, and the text does not end with it. */
  predicate PlainNumberAt(doc: string, i: nat) {
    && i < |doc| && NumberChar(doc[i]) && !IdentStart(doc[i])
    && !(doc[i] == '0' && i + 1 < |doc| && (doc[i + 1] == 'x' || doc[i + 1] == 'X'))
    && Run(doc, i + 1, NumberChar) < |doc|
  }

  /** The end of the number at i. */
  function NumberEnd(doc: string, i: nat): (j: nat)
    requires PlainNumberAt(doc, i)
    ensures i < j < |doc|
  {
    Run(doc, i + 1, NumberChar)
  }

  lemma FrontCharacter(doc: string, i: nat, j: nat)
    requires i < j <= |doc|
    ensures doc[i..j] == [doc[i]] + doc[i + 1..j] && "" + doc[i + 1..j] == doc[i + 1..j]
  {
  }

  /** A number is read as its first character and the rest, by which alone it is told what it is. */
  lemma NumberRead(doc: string, i: nat, scanf: Scanf)
    requires PlainNumberAt(doc, i)
    ensures var j := NumberEnd(doc, i); NextToken(doc, i, scanf) == NumberOf([doc[i]], doc[i + 1..j], j, scanf)
  {
    NumberStartsNothingElse(doc[i]);
    hide NumberOf, HasMark, Run, IdentStart, NumberChar, Space, SymbolChar, QuoteChar;
    FrontCharacter(doc, i, NumberEnd(doc, i));
  }

  lemma NumberStartsNothingElse(c: char)
    ensures NumberChar(c) ==> !Space(c) && c != '/' && !SymbolChar(c) && !QuoteChar(c)
  {
  }

  lemma MarkInFront(c: char, rest: string)
    ensures HasMark([c] + rest) <==> DoubleMark(c) || HasMark(rest)
  {
    var s := [c] + rest;
    assert s[0] == c && forall i :: 0 <= i < |rest| ==> s[i + 1] == rest[i];
  }

  /** The type of the token is that of a floating-point number, if it can be one. */
  predicate AsFloating(r: Scan) {
    r.Got? && r.kind in {DOUBLE, ERROR}
  }

  /**
   A number is scanned as floating-point exactly if it has a point or an exponent
   which is not just a point in front.
   */
  lemma ScannedAsFloating(doc: string, i: nat, scanf: Scanf)
    requires PlainNumberAt(doc, i)
    ensures var j := NumberEnd(doc, i);
            (AsFloating(NextToken(doc, i, scanf))
             <==> HasMark(doc[i..j]) && !(doc[i] == '.' && !HasMark(doc[i + 1..j])))
  {
    var j := NumberEnd(doc, i);
    NumberRead(doc, i, scanf);
    hide NextToken, HasMark, Translated, Run;
    FrontCharacter(doc, i, j);
    MarkInFront(doc[i], doc[i + 1..j]);
  }

  /** Where %d reads a number: an optional sign and a digit. */
  predicate StartsDecimal(s: string) {
    var t := if s != "" && (s[0] == '+' || s[0] == '-') then s[1..] else s;
    t != "" && Digit(t[0])
  }

  ghost predicate ReadsLikeC(scanf: Scanf) {
    forall s: string :: s != "" && !Space(s[0]) ==> (scanf.decimal(s).Some? <==> StartsDecimal(s))
  }

  /** With the %d of C, a number raises an error exactly if it is scanned as an integer and starts like none. */
  lemma NumberRaises(doc: string, i: nat, scanf: Scanf)
    requires PlainNumberAt(doc, i) && ReadsLikeC(scanf)
    ensures var j := NumberEnd(doc, i);
            NextToken(doc, i, scanf).Raised? <==> !HasMark(doc[i + 1..j]) && !StartsDecimal(doc[i..j])
  {
    var j := NumberEnd(doc, i);
    NumberRead(doc, i, scanf);
    NumberStartsNothingElse(doc[i]);
    hide NextToken, HasMark, Translated, Run, StartsDecimal, Space;
    FrontCharacter(doc, i, j);
  }

  /** One half, written with its point in front, is scanned as no double, and as no integer by the %d of C. */
  lemma LeadingPoint(scanf: Scanf)
    ensures HasMark(".5") && !AsFloating(NextToken(".5 ", 0, scanf))
    ensures ReadsLikeC(scanf) ==> NextToken(".5 ", 0, scanf) == Raised(UnableToParseNumber, ".5", 2)
  {
    PointFive();
    NumberRead(".5 ", 0, scanf);
    hide NextToken, Translated, Run, Space, StartsDecimal, HasMark, PlainNumberAt, NumberEnd;
    assert "." + "5" == ".5";
  }

  lemma PointFive()
    ensures PlainNumberAt(".5 ", 0) && NumberEnd(".5 ", 0) == 2 && ".5 "[1..2] == "5"
    ensures HasMark(".5") && !HasMark("5") && !StartsDecimal(".5") && !Space('.')
  {
    var doc := ".5 ";
    assert Run(doc, 2, NumberChar) == 2;
    assert DoubleMark(".5"[0]);
  }

  // -------------------------------------------------------------- table names

  /** An identifier from end to end. */
  predicate IsIdentifier(s: string) {
    s != "" && IdentStart(s[0]) && forall i :: 0 <= i < |s| ==> IdentChar(s[i])
  }

  lemma RunIs(doc: string, i: nat, j: nat, kind: char -> bool)
    requires i <= j <= |doc| && (forall k :: i <= k < j ==> kind(doc[k])) && (j < |doc| ==> !kind(doc[j]))
    ensures Run(doc, i, kind) == j
    decreases j - i
  {
  }

  /** An identifier in the text is read whole. */
  lemma ReadsIdentifier(doc: string, i: nat, j: nat, scanf: Scanf)
    requires i < j < |doc| && IsIdentifier(doc[i..j]) && !IdentChar(doc[j])
    ensures NextToken(doc, i, scanf) == Got(IDENTIFIER, doc[i..j], NoValue, j)
  {
    var s := doc[i..j];
    assert s[0] == doc[i];
    forall k | i <= k < j
      ensures IdentChar(doc[k])
    {
      assert doc[k] == s[k - i];
    }
    RunIs(doc, i + 1, j, IdentChar);
    assert [doc[i]] + doc[i + 1..j] == s;
    NotOtherwise(doc[i]);
  }

  /** What starts an identifier starts nothing else. */
  lemma NotOtherwise(c: char)
    ensures IdentStart(c) ==> !Space(c) && c != '/' && !SymbolChar(c) && !QuoteChar(c)
  {
  }

  /** An identifier that was read is one. */
  lemma {:induction false} ReadIsIdentifier(doc: string, i: nat, scanf: Scanf)
    requires i <= |doc|
    ensures var r := NextToken(doc, i, scanf); r.Got? && r.kind == IDENTIFIER ==> IsIdentifier(r.token)
    ensures var r := Comment(doc, i, scanf); r.Got? && r.kind == IDENTIFIER ==> IsIdentifier(r.token)
    decreases |doc| - i
  {
    hide Quoted, Identifier, HexNumber, Number, LineComment, LongComment, Space, SymbolChar, QuoteChar, NumberChar,
         IsIdentifier, IdentStart;
    if i < |doc| {
      ReadIsIdentifier(doc, i + 1, scanf);
      ReadIsIdentifier(doc, LineComment(doc, i + 1), scanf);
      ReadIsIdentifier(doc, LongComment(doc, i + 1), scanf);
      QuotedNoIdentifier(doc, doc[i], "", i + 1);
      NumberNoIdentifier(doc, [doc[i]], i + 1, scanf);
      if i + 1 < |doc| {
        NumberNoIdentifier(doc, doc[i..i + 2], i + 2, scanf);
      }
      WordIsIdentifier(doc, i);
    }
  }

  lemma {:induction false} QuotedNoIdentifier(doc: string, quote: char, token: string, i: nat)
    requires i <= |doc|
    ensures var r := Quoted(doc, quote, token, i); r.Got? && r.kind != IDENTIFIER
    ensures var r := Escaped(doc, quote, token, i); r.Got? && r.kind != IDENTIFIER
    decreases |doc| - i
  {
    if i < |doc| {
      QuotedNoIdentifier(doc, quote, token, i + 1);
      QuotedNoIdentifier(doc, quote, token + [doc[i]], i + 1);
      if Escape(doc[i]).Some? {
        QuotedNoIdentifier(doc, quote, token + [Escape(doc[i]).value], i + 1);
      }
    }
  }

  lemma NumberNoIdentifier(doc: string, token: string, i: nat, scanf: Scanf)
    requires i <= |doc|
    ensures var r := Number(doc, token, "", i, scanf); r.Got? ==> r.kind != IDENTIFIER
    ensures var r := HexNumber(doc, token, i, scanf); r.Got? ==> r.kind != IDENTIFIER
  {
  }

  lemma WordIsIdentifier(doc: string, i: nat)
    requires i < |doc|
    ensures var r := Identifier(doc, [doc[i]], i + 1);
            IdentStart(doc[i]) && r.Got? && r.kind == IDENTIFIER ==> IsIdentifier(r.token)
  {
  }
}
