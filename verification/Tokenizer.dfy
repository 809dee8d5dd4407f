/**
 The tokenizer of RATDB text: a machine of nine states that reads a character at
 a time and keeps count of the lines.
 */
module Tokenizer {
  import opened Wrappers
  import opened Sequences
  import opened TokenText

  datatype State = START | COMMENT | COMMENT_LONG | COMMENT_LINE | IDENT | NUMBER | HEX_NUMBER | QUOTED | QUOTED_ESC

  /**
   How a call of Next ends, or a round of it goes on: it returns a type or throws
   an error that shows the line and the column.
   */
  datatype Outcome = GoOn | Returned(kind: Type) | Thrown(message: Message, line: int, column: int, text: string)

  /** The local variables of a call of Next; of a number, `front` and `tail` have been read. */
  datatype Machine = Machine(state: State, quote: char, isDouble: bool, doubleToken: string)

  /** What the machine has yet to find, in each of its states. */
  function Resume(doc: string, m: Machine, pos: nat, token: string, front: string, tail: string, scanf: Scanf): Scan
    requires pos <= |doc|
  {
    match m.state
    case START => NextToken(doc, pos, scanf)
    case COMMENT => Comment(doc, pos, scanf)
    case COMMENT_LINE => NextToken(doc, LineComment(doc, pos), scanf)
    case COMMENT_LONG => NextToken(doc, LongComment(doc, pos), scanf)
    case IDENT => Identifier(doc, token, pos)
    case NUMBER => Number(doc, front, tail, pos, scanf)
    case HEX_NUMBER => HexNumber(doc, token, pos, scanf)
    case QUOTED => Quoted(doc, m.quote, token, pos)
    case QUOTED_ESC => Escaped(doc, m.quote, token, pos)
  }

  /** What the variables hold in each state. */
  ghost predicate Coherent(m: Machine, token: string, front: string, tail: string) {
    && (m.state in {START, COMMENT, COMMENT_LINE, COMMENT_LONG} ==> token == "")
    && (m.state in {QUOTED, QUOTED_ESC} ==> QuoteChar(m.quote))
    && (m.state == NUMBER ==>
          token == front + tail && m.doubleToken == front + Translated(tail) && m.isDouble == HasMark(tail))
  }

  /** In every state the end of the text ends the token. */
  lemma ResumeAtEnd(doc: string, m: Machine, token: string, front: string, tail: string, scanf: Scanf)
    requires Coherent(m, token, front, tail)
    ensures Resume(doc, m, |doc|, token, front, tail, scanf) == AtEnd(doc, token)
  {
  }

  /** A character more of a word, or the end of it. */
  lemma IdentifierStep(doc: string, token: string, i: nat)
    requires i < |doc|
    ensures Identifier(doc, token, i)
         == if IdentChar(doc[i]) then Identifier(doc, token + [doc[i]], i + 1) else Got(IDENTIFIER, token, NoValue, i)
  {
  }

  /** A run of characters of a kind is one character and the run behind it. */
  lemma RunStep(doc: string, i: nat, kind: char -> bool)
    requires i < |doc|
    ensures kind(doc[i]) ==>
              Run(doc, i, kind) == Run(doc, i + 1, kind) > i
              && doc[i..Run(doc, i, kind)] == [doc[i]] + doc[i + 1..Run(doc, i, kind)]
              && doc[i..] == [doc[i]] + doc[i + 1..]
    ensures !kind(doc[i]) ==> Run(doc, i, kind) == i && doc[i..i] == ""
  {
  }

  lemma HexStep(doc: string, token: string, i: nat, scanf: Scanf)
    requires i < |doc|
    ensures HexNumber(doc, token, i, scanf)
         == if HexChar(doc[i]) then HexNumber(doc, token + [doc[i]], i + 1, scanf)
            else match scanf.hex(token)
                 case Some(n) => Got(INTEGER, token, IntValue(n), i)
                 case None => Raised(UnableToParseHex, token, i)
  {
    hide Run;
    var j := Run(doc, i, HexChar);
    RunStep(doc, i, HexChar);
    if HexChar(doc[i]) {
      Assoc(token, [doc[i]], doc[i + 1..]);
      Assoc(token, [doc[i]], doc[i + 1..j]);
    } else {
      assert token + "" == token;
    }
  }

  lemma NumberStep(doc: string, front: string, tail: string, i: nat, scanf: Scanf)
    requires i < |doc|
    ensures Number(doc, front, tail, i, scanf)
         == if NumberChar(doc[i]) then Number(doc, front, tail + [doc[i]], i + 1, scanf)
            else NumberOf(front, tail, i, scanf)
  {
    hide NumberOf, Run;
    var j := Run(doc, i, NumberChar);
    RunStep(doc, i, NumberChar);
    if NumberChar(doc[i]) {
      Assoc(tail, [doc[i]], doc[i + 1..j]);
    } else {
      assert tail + "" == tail;
    }
  }

  lemma TailStep(tail: string, c: char)
    ensures HasMark(tail + [c]) <==> HasMark(tail) || DoubleMark(c)
    ensures Translated(tail + [c]) == Translated(tail) + [if c == 'd' then 'e' else c]
  {
  }

  lemma LongStep(doc: string, i: nat)
    requires i < |doc|
    ensures LongComment(doc, i)
         == if doc[i] == '*' && i + 1 < |doc| && doc[i + 1] == '/' then i + 2 else LongComment(doc, i + 1)
  {
  }

  lemma LineStep(doc: string, i: nat)
    requires i < |doc|
    ensures LineComment(doc, i) == if doc[i] == '\n' then i + 1 else LineComment(doc, i + 1)
  {
  }

  class Tokenizer {
    const doc: string
    const scanf: Scanf
    var pos: nat
    var token: string
    var intval: int
    var doubleval: real
    var linenum: int
    var linestart: nat
    var eof: bool

    /** The line count and the start of the line are those of the position. */
    predicate Valid()
      reads this`pos, this`linenum, this`linestart
    {
      && pos <= |doc|
      && linenum == LineOf(doc, pos)
      && linestart == LineStart(doc, pos)
    }

    constructor (text: string, scanf: Scanf)
      ensures Valid() && pos == 0 && !eof && this.scanf == scanf
      ensures doc == if text != "" && !Space(text[|text| - 1]) then text + "\n" else text
    {
      doc := if |text| > 0 && !Space(text[|text| - 1]) then text + "\n" else text;
      this.scanf := scanf;
      pos, linenum, linestart, eof, token, intval, doubleval := 0, 1, 0, false, "", 0, 0.0;
    }

    /** The error names the line, the column in it, and shows the line. */
    method RaiseError(message: Message) returns (r: Outcome)
      requires Valid()
      ensures r == Thrown(message, LineOf(doc, pos), pos - LineStart(doc, pos), LineText(doc, pos) + "\n")
    {
      var eol := linestart;
      while eol < |doc| && doc[eol] != '\n'
        invariant linestart <= eol <= |doc| && LineEnd(doc, linestart) == LineEnd(doc, eol)
      {
        eol := eol + 1;
      }
      SameLine(doc, pos);
      r := Thrown(message, linenum, pos - linestart, doc[linestart..eol] + "\n");
    }

    /** The next token. */
    method Next() returns (r: Outcome)
      requires Valid()
      modifies this`pos, this`token, this`intval, this`doubleval, this`linenum, this`linestart, this`eof
      ensures Valid() && AsScanned(NextToken(doc, old(pos), scanf), r)
      ensures eof <==> old(eof) || r in {Returned(EOF), Returned(EOF_ERROR)}
    {
      hide NextToken, LineOf, LineStart, AsScanned, Coherent, Resume;
      var m := Machine(START, 0 as char, false, "");
      ghost var front, tail := "", "";
      token := "";
      Begin(m);
      while pos < |doc|
        invariant Valid() && eof == old(eof) && Coherent(m, token, front, tail)
        invariant NextToken(doc, old(pos), scanf) == Resume(doc, m, pos, token, front, tail, scanf)
        decreases |doc| - pos
      {
        ghost var pos0 := pos;
        var c := doc[pos];
        LineNext(doc, pos);
        m, front, tail, r := Step(m, front, tail);
        if r != GoOn {
          return;
        }
        if c == '\n' {
          linenum := linenum + 1;
          linestart := pos;
        }
        if pos > pos0 + 1 {
          LineNext(doc, pos0 + 1);
        }
      }
      ResumeAtEnd(doc, m, token, front, tail, scanf);
      eof := true;
      r := Returned(if token == "" then EOF else EOF_ERROR);
      Ended(r);
    }

    lemma Begin(m: Machine)
      requires Valid() && m.state == START && token == ""
      ensures Coherent(m, token, "", "")
      ensures NextToken(doc, pos, scanf) == Resume(doc, m, pos, token, "", "", scanf)
    {
    }

    lemma Ended(r: Outcome)
      requires pos == |doc| && r == Returned(if token == "" then EOF else EOF_ERROR)
      ensures AsScanned(AtEnd(doc, token), r)
    {
    }

    /** One round of the machine: the token ends, an error is raised, or the rest goes on as before. */
    method Step(m0: Machine, ghost front0: string, ghost tail0: string)
      returns (m: Machine, ghost front: string, ghost tail: string, r: Outcome)
      requires Valid() && pos < |doc| && Coherent(m0, token, front0, tail0)
      modifies this`pos, this`token, this`intval, this`doubleval
      ensures r == GoOn ==>
                && old(pos) < pos <= |doc| && pos <= old(pos) + 2
                   && (pos == old(pos) + 2 ==> doc[pos - 1] != '\n' && doc[pos - 2] != '\n')
                && Coherent(m, token, front, tail)
                && Resume(doc, m0, old(pos), old(token), front0, tail0, scanf)
                   == Resume(doc, m, pos, token, front, tail, scanf)
      ensures r != GoOn ==> Valid() && AsScanned(Resume(doc, m0, old(pos), old(token), front0, tail0, scanf), r)
                            && r !in {Returned(EOF), Returned(EOF_ERROR)}
    {
      var c := doc[pos];
      m, front, tail, r := m0, front0, tail0, GoOn;
      hide NextToken, LineOf, LineStart, AsScanned, Coherent, Resume;
      if m0.state == START {
        m, front, tail, r := StartStep(m0);
      } else if m0.state in {COMMENT, COMMENT_LINE, COMMENT_LONG} {
        m, r := CommentStep(m0, front0, tail0);
      } else if m0.state in {QUOTED, QUOTED_ESC} {
        m, r := QuotedStep(m0, front0, tail0);
      } else {
        m, tail, r := WordStep(m0, front0, tail0);
      }
    }

    method StartStep(m0: Machine) returns (m: Machine, ghost front: string, ghost tail: string, r: Outcome)
      requires Valid() && pos < |doc| && m0.state == START && token == ""
      modifies this`pos, this`token
      ensures r == GoOn ==>
                && old(pos) < pos <= |doc| && pos <= old(pos) + 2
                   && (pos == old(pos) + 2 ==> doc[pos - 1] != '\n' && doc[pos - 2] != '\n')
                && Coherent(m, token, front, tail)
                && NextToken(doc, old(pos), scanf) == Resume(doc, m, pos, token, front, tail, scanf)
      ensures r != GoOn ==> Valid() && AsScanned(NextToken(doc, old(pos), scanf), r)
                            && r !in {Returned(EOF), Returned(EOF_ERROR)}
    {
      hide Identifier, HexNumber, Number, HasMark, Translated, LineOf, LineStart, LineText, Quoted, Comment;
      hide Space, SymbolChar, QuoteChar, NumberChar, Alpha;
      m, front, tail, r := m0, "", "", GoOn;
      NoNewlines(doc[pos]);
      var c := doc[pos];
      LineNext(doc, pos);
      if Space(c) {
        pos := pos + 1;
      } else if c == '/' {
        m := m.(state := COMMENT);
        pos := pos + 1;
      } else if SymbolChar(c) {
        token := [c];
        pos := pos + 1;
        r := Returned(SYMBOL);
      } else if QuoteChar(c) {
        m := m.(state := QUOTED, quote := c);
        pos := pos + 1;
      } else if Alpha(c) || c == '_' {
        token := [c];
        m := m.(state := IDENT);
        pos := pos + 1;
      } else if NumberChar(c) {
        m, front := NumberStart(m);
      } else {
        r := RaiseError(IllegalCharacter);
      }
    }

    /** A number begins, maybe a hexadecimal one. */
    method NumberStart(m0: Machine) returns (m: Machine, ghost front: string)
      requires pos < |doc| && NumberChar(doc[pos])
      modifies this`pos, this`token
      ensures old(pos) < pos <= |doc| && pos <= old(pos) + 2
              && (pos == old(pos) + 2 ==> doc[pos - 1] != '\n' && doc[pos - 2] != '\n')
      ensures Coherent(m, token, front, "")
      ensures Resume(doc, m, pos, token, front, "", scanf)
           == if doc[old(pos)] == '0' && old(pos) + 1 < |doc| && (doc[old(pos) + 1] == 'x' || doc[old(pos) + 1] == 'X')
              then HexNumber(doc, doc[old(pos)..old(pos) + 2], old(pos) + 2, scanf)
              else Number(doc, [doc[old(pos)]], "", old(pos) + 1, scanf)
    {
      hide HexNumber, Number, HasMark, Translated, Resume, Coherent;
      var c := doc[pos];
      token := [c];
      m := m0.(state := NUMBER, doubleToken := [c], isDouble := false);
      front := [c];
      pos := pos + 1;
      if pos < |doc| && c == '0' && (doc[pos] == 'x' || doc[pos] == 'X') {
        TwoCharacters(doc, pos - 1);
        token := token + [doc[pos]];
        m := m.(state := HEX_NUMBER);
        pos := pos + 1;
      }
      InNumber(doc, m, pos, token, front, scanf);
    }

    method CommentStep(m0: Machine, ghost front: string, ghost tail: string) returns (m: Machine, r: Outcome)
      requires Valid() && pos < |doc| && m0.state in {COMMENT, COMMENT_LINE, COMMENT_LONG}
               && Coherent(m0, token, front, tail)
      modifies this`pos
      ensures r == GoOn ==>
                && old(pos) < pos <= |doc| && pos <= old(pos) + 2
                   && (pos == old(pos) + 2 ==> doc[pos - 1] != '\n' && doc[pos - 2] != '\n')
                && Coherent(m, token, front, tail)
                && Resume(doc, m0, old(pos), token, front, tail, scanf)
                   == Resume(doc, m, pos, token, front, tail, scanf)
      ensures r != GoOn ==> Valid() && AsScanned(Resume(doc, m0, old(pos), token, front, tail, scanf), r)
                            && r !in {Returned(EOF), Returned(EOF_ERROR)}
    {
      hide NextToken, LineOf, LineStart, LineText, LineComment, LongComment;
      m, r := m0, GoOn;
      var c := doc[pos];
      LongStep(doc, pos);
      LineStep(doc, pos);
      match m0.state
      case COMMENT =>
        if c == '/' {
          m := m.(state := COMMENT_LINE);
          pos := pos + 1;
        } else if c == '*' {
          m := m.(state := COMMENT_LONG);
          pos := pos + 1;
        } else {
          r := RaiseError(IncorrectComment);
        }
      case COMMENT_LINE =>
        if c == '\n' {
          m := m.(state := START);
          pos := pos + 1;
        } else {
          pos := pos + 1;
        }
      case COMMENT_LONG =>
        if c == '*' {
          pos := pos + 1;
          if pos < |doc| && doc[pos] == '/' {
            m := m.(state := START);
            pos := pos + 1;
          }
        } else {
          pos := pos + 1;
        }
    }

    method QuotedStep(m0: Machine, ghost front: string, ghost tail: string) returns (m: Machine, r: Outcome)
      requires Valid() && pos < |doc| && m0.state in {QUOTED, QUOTED_ESC} && Coherent(m0, token, front, tail)
      modifies this`pos, this`token
      ensures r == GoOn ==>
                && pos == old(pos) + 1 && Coherent(m, token, front, tail)
                && Resume(doc, m0, old(pos), old(token), front, tail, scanf)
                   == Resume(doc, m, pos, token, front, tail, scanf)
      ensures r != GoOn ==> Valid() && AsScanned(Resume(doc, m0, old(pos), old(token), front, tail, scanf), r)
                            && r !in {Returned(EOF), Returned(EOF_ERROR)}
    {
      hide NextToken, LineOf, LineStart;
      m, r := m0, GoOn;
      var c := doc[pos];
      if m0.state == QUOTED {
        if c == m.quote {
          LineNext(doc, pos);
          pos := pos + 1;
          r := Returned(STRING);
        } else if c == '\\' {
          m := m.(state := QUOTED_ESC);
          pos := pos + 1;
        } else {
          token := token + [c];
          pos := pos + 1;
        }
      } else {
        m := m.(state := QUOTED);
        match Escape(c) {
          case Some(e) => token := token + [e];
          case None => r := Returned(ERROR); return;
        }
        pos := pos + 1;
      }
    }

    method NumberEnd(m: Machine, ghost front: string, ghost tail: string) returns (r: Outcome)
      requires Valid() && pos < |doc| && m.state == NUMBER && Coherent(m, token, front, tail) && !NumberChar(doc[pos])
      modifies this`intval, this`doubleval
      ensures AsScanned(Number(doc, front, tail, pos, scanf), r) && r !in {GoOn, Returned(EOF), Returned(EOF_ERROR)}
    {
      hide LineOf, LineStart, LineText, Number, HasMark, Translated, NumberChar;
      NumberStep(doc, front, tail, pos, scanf);
      if m.isDouble {
        match scanf.floating(m.doubleToken) {
          case Some(d) => doubleval := d; r := Returned(DOUBLE);
          case None => r := Returned(ERROR);
        }
      } else {
        match scanf.decimal(token) {
          case Some(n) => intval := n; r := Returned(INTEGER);
          case None => r := RaiseError(UnableToParseNumber);
        }
      }
    }

    method WordStep(m0: Machine, ghost front: string, ghost tail0: string)
                    returns (m: Machine, ghost tail: string, r: Outcome)
      requires Valid() && pos < |doc| && m0.state in {IDENT, NUMBER, HEX_NUMBER} && Coherent(m0, token, front, tail0)
      modifies this`pos, this`token, this`intval, this`doubleval
      ensures r == GoOn ==>
                && pos == old(pos) + 1 && Coherent(m, token, front, tail)
                && Resume(doc, m0, old(pos), old(token), front, tail0, scanf)
                   == Resume(doc, m, pos, token, front, tail, scanf)
      ensures r != GoOn ==> Valid() && AsScanned(Resume(doc, m0, old(pos), old(token), front, tail0, scanf), r)
                            && r !in {Returned(EOF), Returned(EOF_ERROR)}
    {
      hide LineOf, LineStart, LineText, Identifier, Number, HexNumber, HasMark, Translated, NumberChar, HexChar, Alpha,
           Digit;
      m, tail, r := m0, tail0, GoOn;
      var c := doc[pos];
      match m0.state
      case IDENT =>
        IdentifierStep(doc, token, pos);
        if Alpha(c) || Digit(c) || c == '_' {
          token := token + [c];
          pos := pos + 1;
        } else {
          r := Returned(IDENTIFIER);
        }
      case NUMBER =>
        NumberStep(doc, front, tail, pos, scanf);
        TailStep(tail, c);
        if NumberChar(c) {
          var translated := c;
          if c == 'e' || c == '.' {
            m := m.(isDouble := true);
          } else if c == 'd' {
            m := m.(isDouble := true);
            translated := 'e';
          }
          Longer(front, tail, c);
          Longer(front, Translated(tail), translated);
          token := token + [c];
          m := m.(doubleToken := m.doubleToken + [translated]);
          tail := tail + [c];
          pos := pos + 1;
        } else {
          r := NumberEnd(m, front, tail);
        }
      case HEX_NUMBER =>
        HexStep(doc, token, pos, scanf);
        if HexChar(c) {
          token := token + [c];
          pos := pos + 1;
        } else {
          match scanf.hex(token) {
            case Some(n) => intval := n; r := Returned(INTEGER);
            case None => r := RaiseError(UnableToParseHex);
          }
        }
    }

    /** The outcome of a call, and where it leaves the tokenizer. */
    ghost predicate AsScanned(s: Scan, r: Outcome)
      reads this
    {
      && token == s.token && pos == Behind(s)
      && match s
         case Got(kind, _, v, _) =>
           && r == Returned(kind)
           && (v.IntValue? ==> intval == v.i)
           && (v.DoubleValue? ==> doubleval == v.d)
         case Raised(m, _, at) =>
           at <= |doc| && r == Thrown(m, LineOf(doc, at), at - LineStart(doc, at), LineText(doc, at) + "\n")
    }
  }

  lemma Longer(s: string, t: string, c: char)
    ensures (s + t) + [c] == s + (t + [c])
  {
  }

  /** The characters tokens start with are no newlines. */
  lemma NoNewlines(c: char)
    ensures SymbolChar(c) || QuoteChar(c) ==> c != '\n'
  {
  }

  lemma TwoCharacters(doc: string, i: nat)
    requires i + 2 <= |doc|
    ensures doc[i..i + 2] == [doc[i]] + [doc[i + 1]]
  {
  }

  /** In the states of a number of which no more than its front has been read. */
  lemma InNumber(doc: string, m: Machine, pos: nat, token: string, front: string, scanf: Scanf)
    requires pos <= |doc| && m.state in {NUMBER, HEX_NUMBER}
    requires m.state == NUMBER ==> token == m.doubleToken == front && !m.isDouble
    ensures Coherent(m, token, front, "")
    ensures Resume(doc, m, pos, token, front, "", scanf)
         == if m.state == NUMBER then Number(doc, front, "", pos, scanf) else HexNumber(doc, token, pos, scanf)
  {
    hide Number, HexNumber;
    assert front + "" == front && Translated("") == "" && !HasMark("");
  }

  /** From the start of its line a position sees the same end of line. */
  lemma SameLine(doc: string, i: nat)
    requires i <= |doc|
    ensures LineEnd(doc, LineStart(doc, i)) == LineEnd(doc, i)
  {
  }

  // ------------------------------------------------------------ whole texts

  /** The tokens of a text, and whether they go on to its end, without an error. */
  datatype Tokens = Tokens(all: seq<(Type, string)>, whole: bool)

  predicate Final(kind: Type) {
    kind in {EOF, EOF_ERROR, ERROR}
  }

  function TokensFrom(doc: string, i: nat, scanf: Scanf): (ts: Tokens)
    requires i <= |doc|
    ensures |ts.all| <= |doc| - i
    decreases |doc| - i
  {
    MovesOn(doc, i, scanf);
    FinalOrOn(doc, i, scanf);
    var r := NextToken(doc, i, scanf);
    if r.Got? && !Final(r.kind) then
      var more := TokensFrom(doc, Behind(r), scanf);
      Tokens([(r.kind, r.token)] + more.all, more.whole)
    else Tokens([], Kind(r, EOF))
  }

  lemma FinalOrOn(doc: string, i: nat, scanf: Scanf)
    requires i <= |doc|
    ensures var r := NextToken(doc, i, scanf); r.Got? && !Final(r.kind) ==> Behind(r) > i
  {
    MovesOn(doc, i, scanf);
    if i < |doc| && !StartsNothing(doc[i]) {
      hide NextToken;
    }
  }

  lemma TokensAppend(done: seq<(Type, string)>, token: (Type, string), more: Tokens)
    ensures Tokens(done + ([token] + more.all), more.whole) == Tokens((done + [token]) + more.all, more.whole)
  {
  }

  /** All tokens to the end of the text or the first error; there are no more of them than characters. */
  method AllTokens(t: Tokenizer) returns (all: seq<(Type, string)>, last: Outcome)
    requires t.Valid()
    modifies t
    ensures t.Valid() && |all| <= |t.doc| - old(t.pos)
    ensures TokensFrom(t.doc, old(t.pos), t.scanf) == Tokens(all, last == Returned(EOF))
    ensures last.Thrown? || last in {Returned(EOF), Returned(EOF_ERROR), Returned(ERROR)}
  {
    hide NextToken;
    all := [];
    ghost var start := t.pos;
    while true
      invariant t.Valid()
      invariant var more := TokensFrom(t.doc, t.pos, t.scanf);
                TokensFrom(t.doc, start, t.scanf) == Tokens(all + more.all, more.whole)
      decreases |t.doc| - t.pos
    {
      MovesOn(t.doc, t.pos, t.scanf);
      FinalOrOn(t.doc, t.pos, t.scanf);
      last := t.Next();
      if last.Thrown? || last in {Returned(EOF), Returned(EOF_ERROR), Returned(ERROR)} {
        return;
      }
      TokensAppend(all, (last.kind, t.token), TokensFrom(t.doc, t.pos, t.scanf));
      all := all + [(last.kind, t.token)];
    }
  }

  /** What the source promises of a descriptor: a table name, maybe with an index in brackets. */
  function Descriptor(table: string, index: string): string {
    if index == "" then table else table + "[" + index + "]"
  }

  method ParseTableName(descriptor: string, scanf: Scanf) returns (r: Option<(string, string)>)
    ensures r == NameIn(
              if descriptor != "" && !Space(descriptor[|descriptor| - 1]) then descriptor + "\n" else descriptor, scanf)
  {
    hide NextToken, Tokenizer.Valid, Space;
    var t := new Tokenizer(descriptor, scanf);
    var kind := t.Next();
    if kind != Returned(IDENTIFIER) {
      return None;
    }
    var table := t.token;
    kind := t.Next();
    if kind == Returned(EOF) {
      return Some((table, ""));
    }
    if !(kind == Returned(SYMBOL) && t.token == "[") {
      return None;
    }
    kind := t.Next();
    if kind != Returned(IDENTIFIER) {
      return None;
    }
    var index := t.token;
    kind := t.Next();
    if !(kind == Returned(SYMBOL) && t.token == "]") {
      return None;
    }
    kind := t.Next();
    if kind != Returned(EOF) {
      return None;
    }
    return Some((table, index));
  }

  predicate Kind(r: Scan, kind: Type) {
    r.Got? && r.kind == kind
  }

  predicate Symbol(r: Scan, s: string) {
    Kind(r, SYMBOL) && r.token == s
  }

  /** The table name and index in a text, blanks and comments apart. */
  function NameIn(doc: string, scanf: Scanf): Option<(string, string)> {
    MovesOn(doc, 0, scanf);
    var name := NextToken(doc, 0, scanf);
    if !Kind(name, IDENTIFIER) then None
    else
      MovesOn(doc, Behind(name), scanf);
      var open := NextToken(doc, Behind(name), scanf);
      if Kind(open, EOF) then Some((name.token, ""))
      else if !Symbol(open, "[") then None
      else
        MovesOn(doc, Behind(open), scanf);
        var index := NextToken(doc, Behind(open), scanf);
        if !Kind(index, IDENTIFIER) then None
        else
          MovesOn(doc, Behind(index), scanf);
          var close := NextToken(doc, Behind(index), scanf);
          if !Symbol(close, "]") then None
          else
            MovesOn(doc, Behind(close), scanf);
            if Kind(NextToken(doc, Behind(close), scanf), EOF) then Some((name.token, index.token)) else None
  }

  lemma TokensAre(doc: string, i: nat, scanf: Scanf, want: seq<(Type, string)>)
    requires i <= |doc|
    ensures var r := NextToken(doc, i, scanf);
            && i <= Behind(r) <= |doc|
            && (TokensFrom(doc, i, scanf) == Tokens(want, true)
                <==> if want == [] then Kind(r, EOF)
                     else r.Got? && !Final(r.kind) && want[0] == (r.kind, r.token)
                          && TokensFrom(doc, Behind(r), scanf) == Tokens(want[1..], true))
  {
    MovesOn(doc, i, scanf);
    hide NextToken;
    var r := NextToken(doc, i, scanf);
    if want != [] && r.Got? && !Final(r.kind) {
      var more := TokensFrom(doc, Behind(r), scanf);
      assert want == [want[0]] + want[1..];
      assert ([(r.kind, r.token)] + more.all)[1..] == more.all;
    }
  }

  /** A name is found exactly in a text whose tokens are those of a descriptor, and no more. */
  lemma NameIsTokens(doc: string, scanf: Scanf, table: string, index: string)
    ensures NameIn(doc, scanf) == Some((table, index))
            <==> TokensFrom(doc, 0, scanf)
                 == Tokens(if index == "" then [(IDENTIFIER, table)]
                           else [(IDENTIFIER, table), (SYMBOL, "["), (IDENTIFIER, index), (SYMBOL, "]")], true)
  {
    hide NextToken, TokensFrom;
    var tokens := [(IDENTIFIER, table), (SYMBOL, "["), (IDENTIFIER, index), (SYMBOL, "]")];
    TokensAre(doc, 0, scanf, [(IDENTIFIER, table)]);
    TokensAre(doc, 0, scanf, tokens);
    var p := Behind(NextToken(doc, 0, scanf));
    TokensAre(doc, p, scanf, []);
    TokensAre(doc, p, scanf, tokens[1..]);
    var q := Behind(NextToken(doc, p, scanf));
    TokensAre(doc, q, scanf, tokens[2..]);
    ReadIsIdentifier(doc, q, scanf);
    var r := Behind(NextToken(doc, q, scanf));
    TokensAre(doc, r, scanf, tokens[3..]);
    TokensAre(doc, Behind(NextToken(doc, r, scanf)), scanf, []);
    assert tokens[1..][1..] == tokens[2..] && tokens[2..][1..] == tokens[3..] && tokens[3..][1..] == [];
    assert [(IDENTIFIER, table)][1..] == [];
  }

  /** Table names come back from their descriptors. */
  lemma NameBack(table: string, index: string, scanf: Scanf)
    requires IsIdentifier(table) && (index == "" || IsIdentifier(index))
    ensures NameIn(Descriptor(table, index) + "\n", scanf) == Some((table, index))
  {
    hide NextToken;
    var doc := Descriptor(table, index) + "\n";
    var n := |table|;
    assert doc[0..n] == table;
    ReadsIdentifier(doc, 0, n, scanf);
    if index == "" {
      ReadsEnd(doc, n, scanf);
    } else {
      var m := n + 1 + |index|;
      assert doc[n] == '[' && doc[n + 1..m] == index && doc[m] == ']' && |doc| == m + 2;
      ReadsSymbol(doc, n, scanf);
      ReadsIdentifier(doc, n + 1, m, scanf);
      ReadsSymbol(doc, m, scanf);
      ReadsEnd(doc, m + 1, scanf);
    }
  }

  lemma ReadsSymbol(doc: string, i: nat, scanf: Scanf)
    requires i < |doc| && doc[i] in {'[', ']'}
    ensures NextToken(doc, i, scanf) == Got(SYMBOL, [doc[i]], NoValue, i + 1)
  {
  }

  lemma ReadsEnd(doc: string, i: nat, scanf: Scanf)
    requires i + 1 == |doc| && doc[i] == '\n'
    ensures NextToken(doc, i, scanf) == Got(EOF, "", NoValue, |doc|)
  {
  }

  /** What is found in a descriptor are identifiers. */
  lemma NamesAreIdentifiers(doc: string, scanf: Scanf)
    ensures var r := NameIn(doc, scanf);
            r.Some? ==> IsIdentifier(r.value.0) && (r.value.1 == "" || IsIdentifier(r.value.1))
  {
    hide NextToken, IsIdentifier;
    MovesOn(doc, 0, scanf);
    var name := NextToken(doc, 0, scanf);
    ReadIsIdentifier(doc, 0, scanf);
    MovesOn(doc, Behind(name), scanf);
    var open := NextToken(doc, Behind(name), scanf);
    MovesOn(doc, Behind(open), scanf);
    ReadIsIdentifier(doc, Behind(open), scanf);
  }
}
