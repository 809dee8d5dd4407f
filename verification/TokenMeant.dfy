/**
 What RATDB text is written like: each token spelled out character by character,
 behind blanks and comments, is scanned as that token. Nothing here is said by
 means of the functions of `TokenText` that take a text apart.
 */
module TokenMeant {
  import opened Wrappers
  import opened Sequences
  import opened TokenText

  /** What may stand in front of a token. */
  datatype Gap = Blank(c: char) | LineNote(text: string) | LongNote(text: string)

  /** A character of a string as it is, or the one behind a backslash. */
  datatype Piece = Plain(c: char) | Backslash(c: char)

  datatype Spelt =
    | Mark(c: char)                                // {
    | Name(text: string)                           // name
    | Text(quote: char, pieces: seq<Piece>)        // "text"
    | Numeral(text: string)                        // 12, -1.5e3, 2d5
    | HexNumeral(x: char, digits: string)          // 0x1F

  /** The characters behind a backslash, and what they stand for, in the same order. */
  const ESCAPES: string := "\"/\\bfnrt"
  const MEANINGS: string := "\"/\\\U{8}\U{C}\n\r\t"

  // ----------------------------------------------------------------- the text

  function OneGap(g: Gap): string {
    match g
    case Blank(c) => [c]
    case LineNote(text) => "//" + (text + "\n")
    case LongNote(text) => "/*" + (text + "*/")
  }

  function GapText(gs: seq<Gap>): string {
    if gs == [] then "" else OneGap(gs[0]) + GapText(gs[1..])
  }

  function OnePiece(p: Piece): string {
    if p.Plain? then [p.c] else ['\\', p.c]
  }

  function PieceText(ps: seq<Piece>): string {
    if ps == [] then "" else OnePiece(ps[0]) + PieceText(ps[1..])
  }

  function TextOf(w: Spelt): string {
    match w
    case Mark(c) => [c]
    case Name(text) => text
    case Text(quote, pieces) => [quote] + (PieceText(pieces) + [quote])
    case Numeral(text) => text
    case HexNumeral(x, digits) => ['0', x] + digits
  }

  // ----------------------------------------------------------- what is proper

  predicate BlankChar(c: char) {
    c == ' ' || '\U{9}' <= c <= '\U{D}'
  }

  predicate Letter(c: char) {
    'a' <= c <= 'z' || 'A' <= c <= 'Z' || c == '_'
  }

  predicate Figure(c: char) {
    '0' <= c <= '9'
  }

  predicate NumeralChar(c: char) {
    Figure(c) || c == '+' || c == '-' || c == '.' || c == 'e' || c == 'd'
  }

  predicate HexFigure(c: char) {
    Figure(c) || 'a' <= c <= 'f' || 'A' <= c <= 'F'
  }

  predicate GoodGap(g: Gap) {
    match g
    case Blank(c) => BlankChar(c)
    case LineNote(text) => '\n' !in text
    case LongNote(text) => forall i :: 0 <= i < |text| - 1 ==> !(text[i] == '*' && text[i + 1] == '/')
  }

  predicate GoodGaps(gs: seq<Gap>) {
    forall i :: 0 <= i < |gs| ==> GoodGap(gs[i])
  }

  predicate GoodPiece(p: Piece, quote: char) {
    if p.Plain? then p.c != quote && p.c != '\\' else p.c in ESCAPES
  }

  predicate GoodPieces(ps: seq<Piece>, quote: char) {
    forall i :: 0 <= i < |ps| ==> GoodPiece(ps[i], quote)
  }

  predicate Good(w: Spelt) {
    match w
    case Mark(c) => c in {'{', '}', '[', ']', ',', ':', '#'}
    case Name(text) =>
      text != "" && Letter(text[0]) && forall i :: 0 <= i < |text| ==> Letter(text[i]) || Figure(text[i])
    case Text(quote, pieces) => quote in {'"', '\''} && GoodPieces(pieces, quote)
    case Numeral(text) =>
      && text != "" && (forall i :: 0 <= i < |text| ==> NumeralChar(text[i]))
      && text[0] != 'e' && text[0] != 'd'
      && !(text[0] == '0' && |text| > 1 && text[1] in {'x', 'X'})
    case HexNumeral(x, digits) => x in {'x', 'X'} && forall i :: 0 <= i < |digits| ==> HexFigure(digits[i])
  }

  /** c cannot go on with the token. */
  predicate Ends(w: Spelt, c: char) {
    match w
    case Mark(_) => true
    case Name(_) => !Letter(c) && !Figure(c)
    case Text(_, _) => true
    case Numeral(text) => !NumeralChar(c) && (text == "0" ==> c !in {'x', 'X'})
    case HexNumeral(_, _) => !HexFigure(c)
  }

  // ------------------------------------------------------------- what is meant

  /** A piece stands for a character. */
  predicate PieceIs(p: Piece, c: char) {
    if p.Plain? then c == p.c
    else exists k :: 0 <= k < |ESCAPES| && ESCAPES[k] == p.c && MEANINGS[k] == c
  }

  /** The pieces stand for a string. */
  predicate Stand(ps: seq<Piece>, t: string) {
    |t| == |ps| && forall i :: 0 <= i < |ps| ==> PieceIs(ps[i], t[i])
  }

  /** Behind its first character the number has a point or an exponent. */
  predicate HasPoint(text: string) {
    exists i :: 0 < i < |text| && (text[i] == '.' || text[i] == 'e' || text[i] == 'd')
  }

  /** The number as C writes it. */
  predicate InC(text: string, c: string) {
    |c| == |text| && forall i :: 0 <= i < |text| ==> c[i] == if text[i] == 'd' then 'e' else text[i]
  }

  /** How the token is to be scanned, if it ends at j. */
  ghost predicate Meant(w: Spelt, scanf: Scanf, r: Scan, j: nat) {
    match w
    case Mark(c) => r == Got(SYMBOL, [c], NoValue, j)
    case Name(text) => r == Got(IDENTIFIER, text, NoValue, j)
    case Text(_, pieces) => r.Got? && r == Got(STRING, r.token, NoValue, j) && Stand(pieces, r.token)
    case Numeral(text) =>
      if HasPoint(text) then
        forall c :: InC(text, c) ==>
          r == (if scanf.floating(c).Some? then Got(DOUBLE, text, DoubleValue(scanf.floating(c).value), j)
                else Got(ERROR, text, NoValue, j))
      else
        r == (if scanf.decimal(text).Some? then Got(INTEGER, text, IntValue(scanf.decimal(text).value), j)
              else Raised(UnableToParseNumber, text, j))
    case HexNumeral(x, digits) =>
      var text := ['0', x] + digits;
      r == if scanf.hex(text).Some? then Got(INTEGER, text, IntValue(scanf.hex(text).value), j)
           else Raised(UnableToParseHex, text, j)
  }

  // ------------------------------------------------------------------ gaps

  lemma {:induction false} LineNoteEnds(s: string, p: nat, text: string)
    requires Stands(s, p, text + "\n") && '\n' !in text
    ensures LineComment(s, p) == p + |text| + 1
    decreases |text|
  {
    if text == "" {
      StandsAt(s, p, "\n", 0);
    } else {
      StandsAt(s, p, text + "\n", 0);
      Assoc([text[0]], text[1..], "\n");
      assert text == [text[0]] + text[1..];
      StandsSplit(s, p, [text[0]], text[1..] + "\n");
      LineNoteEnds(s, p + 1, text[1..]);
    }
  }

  lemma {:induction false} LongNoteEnds(s: string, p: nat, text: string)
    requires Stands(s, p, text + "*/") && GoodGap(LongNote(text))
    ensures LongComment(s, p) == p + |text| + 2
    decreases |text|
  {
    var t := text + "*/";
    StandsAt(s, p, t, 0);
    StandsAt(s, p, t, 1);
    if text != "" {
      assert t == [text[0]] + (text[1..] + "*/");
      StandsSplit(s, p, [text[0]], text[1..] + "*/");
      assert t[1] == if |text| > 1 then text[1] else '*';
      LongNoteEnds(s, p + 1, text[1..]);
    }
  }

  lemma BlankSkipped(s: string, p: nat, scanf: Scanf)
    requires p < |s| && BlankChar(s[p])
    ensures NextToken(s, p, scanf) == NextToken(s, p + 1, scanf)
  {
  }

  lemma NoteSkipped(s: string, p: nat, scanf: Scanf)
    requires p + 1 < |s| && s[p] == '/'
    ensures s[p + 1] == '/' ==> NextToken(s, p, scanf) == NextToken(s, LineComment(s, p + 2), scanf)
    ensures s[p + 1] == '*' ==> NextToken(s, p, scanf) == NextToken(s, LongComment(s, p + 2), scanf)
  {
    hide LineComment, LongComment, Quoted, Identifier, HexNumber, TokenText.Number, SymbolChar, QuoteChar;
  }

  lemma LineSkipped(s: string, p: nat, text: string, scanf: Scanf)
    requires Stands(s, p, "//" + (text + "\n")) && '\n' !in text
    ensures p + |text| + 3 <= |s| && NextToken(s, p, scanf) == NextToken(s, p + |text| + 3, scanf)
  {
    hide *;
    StandsSplit(s, p, "//", text + "\n");
    StandsIs(s, p, "//");
    StandsIs(s, p + 2, text + "\n");
    StandsAt(s, p, "//", 0);
    StandsAt(s, p, "//", 1);
    LineNoteEnds(s, p + 2, text);
    NoteSkipped(s, p, scanf);
  }

  lemma LongSkipped(s: string, p: nat, text: string, scanf: Scanf)
    requires Stands(s, p, "/*" + (text + "*/")) && GoodGap(LongNote(text))
    ensures p + |text| + 4 <= |s| && NextToken(s, p, scanf) == NextToken(s, p + |text| + 4, scanf)
  {
    hide *;
    StandsSplit(s, p, "/*", text + "*/");
    StandsIs(s, p, "/*");
    StandsIs(s, p + 2, text + "*/");
    StandsAt(s, p, "/*", 0);
    StandsAt(s, p, "/*", 1);
    LongNoteEnds(s, p + 2, text);
    NoteSkipped(s, p, scanf);
  }

  lemma GapSkipped(s: string, p: nat, g: Gap, scanf: Scanf)
    requires Stands(s, p, OneGap(g)) && GoodGap(g)
    ensures p + |OneGap(g)| <= |s| && NextToken(s, p, scanf) == NextToken(s, p + |OneGap(g)|, scanf)
  {
    hide NextToken, Stands;
    match g
    case Blank(c) =>
      StandsIs(s, p, [c]);
      StandsAt(s, p, [c], 0);
      BlankSkipped(s, p, scanf);
    case LineNote(text) => LineSkipped(s, p, text, scanf);
    case LongNote(text) => LongSkipped(s, p, text, scanf);
  }

  lemma {:induction false} GapsSkipped(s: string, p: nat, gs: seq<Gap>, scanf: Scanf)
    requires Stands(s, p, GapText(gs)) && GoodGaps(gs)
    ensures p + |GapText(gs)| <= |s| && NextToken(s, p, scanf) == NextToken(s, p + |GapText(gs)|, scanf)
    decreases |gs|
  {
    hide NextToken, OneGap;
    if gs != [] {
      StandsSplit(s, p, OneGap(gs[0]), GapText(gs[1..]));
      GapSkipped(s, p, gs[0], scanf);
      GapsSkipped(s, p + |OneGap(gs[0])|, gs[1..], scanf);
    }
  }

  // ---------------------------------------------------------------- strings

  lemma PieceMeans(s: string, p: nat, quote: char, token: string, one: Piece) returns (c: char)
    requires GoodPiece(one, quote) && Stands(s, p, OnePiece(one)) && quote != '\\'
    ensures PieceIs(one, c) && p + |OnePiece(one)| <= |s|
    ensures Quoted(s, quote, token, p) == Quoted(s, quote, token + [c], p + |OnePiece(one)|)
  {
    StandsAt(s, p, OnePiece(one), 0);
    c := one.c;
    if one.Backslash? {
      StandsAt(s, p, OnePiece(one), 1);
      var k: nat :| k < |ESCAPES| && ESCAPES[k] == one.c;
      c := MEANINGS[k];
    }
  }

  lemma {:induction false} PiecesMean(s: string, p: nat, quote: char, token: string, ps: seq<Piece>) returns (t: string)
    requires GoodPieces(ps, quote) && Stands(s, p, PieceText(ps)) && quote != '\\'
    ensures Stand(ps, t) && p + |PieceText(ps)| <= |s|
    ensures Quoted(s, quote, token, p) == Quoted(s, quote, token + t, p + |PieceText(ps)|)
    decreases |ps|
  {
    hide Quoted, OnePiece, PieceIs;
    if ps == [] {
      t := "";
      assert token + "" == token;
    } else {
      StandsSplit(s, p, OnePiece(ps[0]), PieceText(ps[1..]));
      var c := PieceMeans(s, p, quote, token, ps[0]);
      var rest := PiecesMean(s, p + |OnePiece(ps[0])|, quote, token + [c], ps[1..]);
      t := [c] + rest;
      Assoc(token, [c], rest);
      assert forall i :: 0 < i < |ps| ==> ps[i] == ps[1..][i - 1];
    }
  }

  lemma QuoteEnds(s: string, p: nat, quote: char, token: string)
    requires p <= |s|
    ensures p < |s| && s[p] == quote ==> Quoted(s, quote, token, p) == Got(STRING, token, NoValue, p + 1)
    ensures p + 1 < |s| && s[p] == '\\' && quote != '\\' && Escape(s[p + 1]).None? ==>
              Quoted(s, quote, token, p) == Got(ERROR, token, NoValue, p + 1)
    ensures p == |s| ==>
              Quoted(s, quote, token, p) == Got(if token == "" then EOF else EOF_ERROR, token, NoValue, |s|)
  {
    hide Escape;
  }

  /** The pieces behind an opening quote. */
  lemma PiecesRead(s: string, p: nat, quote: char, ps: seq<Piece>, rest: string, scanf: Scanf) returns (t: string)
    requires quote in {'"', '\''} && GoodPieces(ps, quote) && Stands(s, p, [quote] + (PieceText(ps) + rest))
    ensures var j := p + 1 + |PieceText(ps)|;
            Stand(ps, t) && Stands(s, j, rest) && j + |rest| <= |s| && NextToken(s, p, scanf) == Quoted(s, quote, t, j)
  {
    hide *;
    var text := PieceText(ps);
    StandsSplit(s, p, [quote], text + rest);
    StandsIs(s, p, [quote]);
    StandsAt(s, p, [quote], 0);
    StandsSplit(s, p + 1, text, rest);
    StandsIs(s, p + 1 + |text|, rest);
    QuoteStarts(s, p, scanf);
    t := PiecesMean(s, p + 1, quote, "", ps);
    assert "" + t == t;
  }

  /** A string in quotes is scanned as what its pieces stand for, whatever text follows. */
  lemma TextMeans(s: string, p: nat, w: Spelt, scanf: Scanf)
    requires w.Text? && Good(w) && Stands(s, p, TextOf(w))
    ensures Meant(w, scanf, NextToken(s, p, scanf), p + |TextOf(w)|)
  {
    hide NextToken, Stand, PieceText, GoodPieces, Stands;
    var t := PiecesRead(s, p, w.quote, w.pieces, [w.quote], scanf);
    var j := p + 1 + |PieceText(w.pieces)|;
    StandsAt(s, j, [w.quote], 0);
    QuoteEnds(s, j, w.quote, t);
  }

  lemma QuoteStarts(s: string, p: nat, scanf: Scanf)
    requires p < |s| && s[p] in {'"', '\''}
    ensures NextToken(s, p, scanf) == Quoted(s, s[p], "", p + 1)
  {
    hide Quoted;
  }

  /** A backslash with anything else behind it is an error, and the string ends there. */
  lemma BadPiece(s: string, p: nat, quote: char, ps: seq<Piece>, c: char, scanf: Scanf) returns (t: string)
    requires quote in {'"', '\''} && GoodPieces(ps, quote) && c !in ESCAPES
    requires Stands(s, p, [quote] + (PieceText(ps) + ['\\', c]))
    ensures Stand(ps, t) && NextToken(s, p, scanf) == Got(ERROR, t, NoValue, p + |PieceText(ps)| + 2)
  {
    hide *;
    NoEscape(c);
    t := PiecesRead(s, p, quote, ps, ['\\', c], scanf);
    var j := p + 1 + |PieceText(ps)|;
    StandsIs(s, j, ['\\', c]);
    StandsAt(s, j, ['\\', c], 0);
    StandsAt(s, j, ['\\', c], 1);
    QuoteEnds(s, j, quote, t);
  }

  lemma NoEscape(c: char)
    requires c !in ESCAPES
    ensures Escape(c).None?
  {
    assert ESCAPES[0] == '"' && ESCAPES[1] == '/' && ESCAPES[2] == '\\' && ESCAPES[3] == 'b' && ESCAPES[4] == 'f';
    assert ESCAPES[5] == 'n' && ESCAPES[6] == 'r' && ESCAPES[7] == 't';
  }

  /** A string that is not closed is an unexpected end, but for an empty one, which is the end as such. */
  lemma Unclosed(s: string, p: nat, quote: char, ps: seq<Piece>, scanf: Scanf) returns (t: string)
    requires quote in {'"', '\''} && GoodPieces(ps, quote)
    requires Stands(s, p, [quote] + PieceText(ps)) && |s| == p + 1 + |PieceText(ps)|
    ensures Stand(ps, t) && NextToken(s, p, scanf) == Got(if ps == [] then EOF else EOF_ERROR, t, NoValue, |s|)
  {
    hide NextToken, PieceText, GoodPieces, Stands, Quoted;
    assert PieceText(ps) + "" == PieceText(ps);
    t := PiecesRead(s, p, quote, ps, "", scanf);
    QuoteEnds(s, |s|, quote, t);
  }

  // ------------------------------------------------------- words and numbers

  lemma {:induction false} RunEnds(s: string, p: nat, q: nat, kind: char -> bool)
    requires p <= q <= |s| && (forall k :: p <= k < q ==> kind(s[k])) && (q < |s| ==> !kind(s[q]))
    ensures Run(s, p, kind) == q
    decreases q - p
  {
    if p < q {
      RunEnds(s, p + 1, q, kind);
    }
  }

  lemma CharactersAre(c: char)
    ensures BlankChar(c) <==> Space(c)
    ensures Letter(c) <==> IdentStart(c)
    ensures Letter(c) || Figure(c) <==> IdentChar(c)
    ensures HexFigure(c) <==> HexChar(c)
  {
  }

  lemma NumeralCharacters(c: char)
    ensures NumeralChar(c) <==> NumberChar(c)
  {
  }

  lemma MarkCharacters(c: char)
    ensures c in {'{', '}', '[', ']', ',', ':', '#'} <==> SymbolChar(c)
    ensures c in {'"', '\''} <==> QuoteChar(c)
  {
  }

  lemma NameMeans(s: string, p: nat, w: Spelt, scanf: Scanf)
    requires w.Name? && Good(w) && Stands(s, p, TextOf(w))
    requires var j := p + |w.text|; j == |s| || (j < |s| && Ends(w, s[j]))
    ensures var j := p + |w.text|;
            NextToken(s, p, scanf) == Got(if j == |s| then EOF_ERROR else IDENTIFIER, w.text, NoValue, j)
  {
    var text, j := w.text, p + |w.text|;
    StandsIs(s, p, text);
    forall k | p <= k < j
      ensures IdentChar(s[k])
    {
      StandsAt(s, p, text, k - p);
      CharactersAre(s[k]);
    }
    StandsAt(s, p, text, 0);
    CharactersAre(s[p]);
    NotOtherwise(s[p]);
    assert [s[p]] + s[p + 1..j] == s[p..j];
    if j < |s| {
      CharactersAre(s[j]);
    }
    hide IdentChar, IdentStart, Space, SymbolChar, QuoteChar, Ends;
    RunEnds(s, p + 1, j, IdentChar);
    assert j == |s| ==> s[p + 1..] == s[p + 1..j];
  }

  lemma HexMeans(s: string, p: nat, w: Spelt, scanf: Scanf)
    requires w.HexNumeral? && Good(w) && Stands(s, p, TextOf(w))
    requires var j := p + |TextOf(w)|; j < |s| && Ends(w, s[j])
    ensures Meant(w, scanf, NextToken(s, p, scanf), p + |TextOf(w)|)
  {
    hide NextToken, HexFigure, Stands;
    HexRead(s, p, w.x, w.digits, scanf);
  }

  lemma HexRead(s: string, p: nat, x: char, digits: string, scanf: Scanf)
    requires x in {'x', 'X'} && (forall i :: 0 <= i < |digits| ==> HexFigure(digits[i]))
    requires Stands(s, p, ['0', x] + digits)
    requires var j := p + 2 + |digits|; j < |s| && !HexFigure(s[j])
    ensures var text, j := ['0', x] + digits, p + 2 + |digits|;
            NextToken(s, p, scanf)
            == if scanf.hex(text).Some? then Got(INTEGER, text, IntValue(scanf.hex(text).value), j)
               else Raised(UnableToParseHex, text, j)
  {
    hide *;
    var front, j := ['0', x], p + 2 + |digits|;
    StandsIs(s, p, front + digits);
    StandsSplit(s, p, front, digits);
    StandsIs(s, p, front);
    StandsIs(s, p + 2, digits);
    StandsAt(s, p, front, 0);
    StandsAt(s, p, front, 1);
    AllHex(s, p + 2, digits);
    CharactersAre(s[j]);
    RunEnds(s, p + 2, j, HexChar);
    HexStarts(s, p, scanf);
    HexFound(s, p, j, scanf);
  }

  lemma AllHex(s: string, p: nat, digits: string)
    requires Stands(s, p, digits) && forall i :: 0 <= i < |digits| ==> HexFigure(digits[i])
    ensures p + |digits| <= |s| && forall k :: p <= k < p + |digits| ==> HexChar(s[k])
  {
    hide HexFigure, HexChar;
    StandsIs(s, p, digits);
    forall k | p <= k < p + |digits|
      ensures HexChar(s[k])
    {
      StandsAt(s, p, digits, k - p);
      CharactersAre(s[k]);
    }
  }

  lemma HexFound(s: string, p: nat, j: nat, scanf: Scanf)
    requires p + 2 <= j < |s| && Run(s, p + 2, HexChar) == j && s[p..p + 2] + s[p + 2..j] == s[p..j]
    ensures var text := s[p..j];
            HexNumber(s, s[p..p + 2], p + 2, scanf)
            == if scanf.hex(text).Some? then Got(INTEGER, text, IntValue(scanf.hex(text).value), j)
               else Raised(UnableToParseHex, text, j)
  {
    hide Run;
  }

  lemma HexStarts(s: string, p: nat, scanf: Scanf)
    requires p + 1 < |s| && s[p] == '0' && s[p + 1] in {'x', 'X'}
    ensures NextToken(s, p, scanf) == HexNumber(s, s[p..p + 2], p + 2, scanf)
  {
    hide HexNumber;
  }

  lemma NumeralStarts(s: string, p: nat, scanf: Scanf)
    requires p < |s| && NumberChar(s[p]) && !IdentStart(s[p])
    requires s[p] == '0' && p + 1 < |s| ==> s[p + 1] !in {'x', 'X'}
    ensures NextToken(s, p, scanf) == TokenText.Number(s, [s[p]], "", p + 1, scanf)
  {
    NumberStartsNothingElse(s[p]);
    hide TokenText.Number, IdentStart, NumberChar, Space, SymbolChar, QuoteChar;
  }

  lemma {:induction false} TranslatedIs(t: string)
    ensures InC(t, Translated(t))
  {
    if t != "" {
      TranslatedIs(t[..|t| - 1]);
    }
  }

  lemma MarkIs(text: string)
    requires text != ""
    ensures HasMark(text[1..]) <==> HasPoint(text)
  {
    if HasPoint(text) {
      var i :| 0 < i < |text| && (text[i] == '.' || text[i] == 'e' || text[i] == 'd');
      assert DoubleMark(text[1..][i - 1]);
    }
    if i :| 0 <= i < |text[1..]| && DoubleMark(text[1..][i]) {
      assert text[i + 1] == text[1..][i];
    }
  }

  lemma InCIs(text: string, c: string)
    requires text != "" && text[0] != 'd' && InC(text, c)
    ensures c == [text[0]] + Translated(text[1..])
  {
    TranslatedIs(text[1..]);
    var t := Translated(text[1..]);
    forall i | 0 <= i < |c|
      ensures c[i] == ([text[0]] + t)[i]
    {
      if i > 0 {
        assert text[1..][i - 1] == text[i];
      }
    }
  }

  lemma AllNumeral(s: string, p: nat, text: string)
    requires Stands(s, p, text) && forall i :: 0 <= i < |text| ==> NumeralChar(text[i])
    ensures p + |text| <= |s| && forall k :: p <= k < p + |text| ==> NumberChar(s[k])
  {
    hide NumeralChar, NumberChar;
    StandsIs(s, p, text);
    forall k | p <= k < p + |text|
      ensures NumberChar(s[k])
    {
      StandsAt(s, p, text, k - p);
      NumeralCharacters(s[k]);
    }
  }

  /** A number is told from its first character and the rest. */
  lemma NumeralRead(s: string, p: nat, text: string, scanf: Scanf)
    requires text != "" && Stands(s, p, text) && forall i :: 0 <= i < |text| ==> NumeralChar(text[i])
    requires text[0] != 'e' && text[0] != 'd' && !(text[0] == '0' && |text| > 1 && text[1] in {'x', 'X'})
    requires var j := p + |text|; j < |s| && !NumeralChar(s[j]) && (text == "0" ==> s[j] !in {'x', 'X'})
    ensures NextToken(s, p, scanf) == NumberOf([text[0]], text[1..], p + |text|, scanf)
  {
    hide *;
    var j := p + |text|;
    StandsIs(s, p, text);
    AllNumeral(s, p, text);
    NumeralCharacters(s[j]);
    StandsAt(s, p, text, 0);
    NoLetter(text[0]);
    if |text| > 1 {
      StandsAt(s, p, text, 1);
    } else if text[0] == '0' {
      assert text == "0";
    }
    RunEnds(s, p + 1, j, NumberChar);
    NumeralStarts(s, p, scanf);
    assert "" + s[p + 1..j] == s[p..j][1..];
    NumberFound(s, p, j, scanf);
  }

  lemma NumeralMeans(s: string, p: nat, w: Spelt, scanf: Scanf)
    requires w.Numeral? && Good(w) && Stands(s, p, w.text)
    requires var j := p + |w.text|; j < |s| && Ends(w, s[j])
    ensures Meant(w, scanf, NextToken(s, p, scanf), p + |w.text|)
  {
    hide NextToken, NumeralChar, Stands, Meant, HasMark, HasPoint;
    NumeralRead(s, p, w.text, scanf);
    MarkIs(w.text);
    NumberOfMeans(w.text, p + |w.text|, scanf);
  }

  lemma NoLetter(c: char)
    requires NumeralChar(c) && c != 'e' && c != 'd'
    ensures !IdentStart(c)
  {
  }

  lemma NumberFound(s: string, p: nat, j: nat, scanf: Scanf)
    requires p < j < |s| && Run(s, p + 1, NumberChar) == j
    ensures TokenText.Number(s, [s[p]], "", p + 1, scanf) == NumberOf([s[p]], "" + s[p + 1..j], j, scanf)
  {
    hide Run, NumberOf;
  }

  lemma NumberOfMeans(text: string, j: nat, scanf: Scanf)
    requires text != "" && text[0] != 'd' && (HasMark(text[1..]) <==> HasPoint(text))
    ensures Meant(Numeral(text), scanf, NumberOf([text[0]], text[1..], j, scanf), j)
  {
    assert [text[0]] + text[1..] == text;
    forall c | InC(text, c)
      ensures c == [text[0]] + Translated(text[1..])
    {
      InCIs(text, c);
    }
    hide HasMark, HasPoint, Translated, InC;
  }

  lemma MarkMeans(s: string, p: nat, w: Spelt, scanf: Scanf)
    requires w.Mark? && Good(w) && Stands(s, p, [w.c])
    ensures NextToken(s, p, scanf) == Got(SYMBOL, [w.c], NoValue, p + 1)
  {
    StandsAt(s, p, [w.c], 0);
  }

  // ------------------------------------------------------------- whole texts

  /** The token goes on to the end of the text; only marks and strings can be told to be complete there. */
  predicate Complete(w: Spelt, rest: string) {
    if rest == "" then w.Mark? || w.Text? else Ends(w, rest[0])
  }

  lemma TokenMeans(s: string, p: nat, w: Spelt, rest: string, scanf: Scanf)
    requires Good(w) && Complete(w, rest) && Stands(s, p, TextOf(w) + rest) && |s| == p + |TextOf(w)| + |rest|
    ensures Meant(w, scanf, NextToken(s, p, scanf), p + |TextOf(w)|)
  {
    StandsSplit(s, p, TextOf(w), rest);
    if rest != "" {
      StandsAt(s, p + |TextOf(w)|, rest, 0);
    }
    hide NextToken, Good, Stands;
    match w
    case Mark(_) => MarkMeans(s, p, w, scanf);
    case Name(_) => NameMeans(s, p, w, scanf);
    case Text(_, _) => TextMeans(s, p, w, scanf);
    case Numeral(_) => NumeralMeans(s, p, w, scanf);
    case HexNumeral(_, _) => HexMeans(s, p, w, scanf);
  }

  /** A token behind gaps, in front of any text that does not go on with it, is scanned as what was meant. */
  lemma ScannedAsMeant(before: string, gaps: seq<Gap>, w: Spelt, rest: string, scanf: Scanf)
    requires GoodGaps(gaps) && Good(w) && Complete(w, rest)
    ensures var doc := before + (GapText(gaps) + (TextOf(w) + rest));
            Meant(w, scanf, NextToken(doc, |before|, scanf), |before| + |GapText(gaps)| + |TextOf(w)|)
  {
    hide NextToken, GapText, TextOf, Good, Meant, Complete;
    var g, t := GapText(gaps), TextOf(w) + rest;
    var doc := before + (g + t);
    assert doc[|before|..|before| + |g + t|] == g + t;
    StandsSplit(doc, |before|, g, t);
    GapsSkipped(doc, |before|, gaps, scanf);
    TokenMeans(doc, |before| + |g|, w, rest, scanf);
  }

  /** `"ab"` is the string ab. */
  lemma StringAsWritten(scanf: Scanf)
    ensures NextToken("\"ab\" ", 0, scanf) == Got(STRING, "ab", NoValue, 4)
  {
    var w := Text('"', [Plain('a'), Plain('b')]);
    assert w.pieces[1..] == [Plain('b')] && [Plain('b')][1..] == [];
    assert PieceText(w.pieces) == "ab" && TextOf(w) == "\"ab\"";
    assert "" + ("" + ("\"ab\"" + " ")) == "\"ab\" ";
    hide NextToken;
    ScannedAsMeant("", [], w, " ", scanf);
    var r := NextToken("\"ab\" ", 0, scanf);
    assert PieceIs(w.pieces[0], r.token[0]) && PieceIs(w.pieces[1], r.token[1]);
  }

  // --------------------------------------------------------------- positions

  /** The line ends before a position. */
  function LineEndsIn(doc: string, i: nat): set<nat>
    requires i <= |doc|
  {
    set j: nat | j < i && doc[j] == '\n'
  }

  /** Lines are counted from 1. */
  lemma {:induction false} LineMeans(doc: string, i: nat)
    requires i <= |doc|
    ensures LineOf(doc, i) == 1 + |LineEndsIn(doc, i)|
  {
    if i > 0 {
      LineMeans(doc, i - 1);
      LineNext(doc, i - 1);
      assert LineEndsIn(doc, i) == LineEndsIn(doc, i - 1) + if doc[i - 1] == '\n' then {i - 1} else {};
    } else {
      assert doc[..0] == "" && LineEndsIn(doc, i) == {};
    }
  }
}
