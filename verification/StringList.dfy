/**
 `util_split` and `util_join`.
 */
module StringList {

  /** The splitter stands at i. */
  predicate At(s: string, sep: string, i: nat) {
    i + |sep| <= |s| && s[i..i + |sep|] == sep
  }

  /** The first place at or behind `offset` where the splitter stands, or the end of the text. */
  ghost predicate FirstAt(s: string, sep: string, offset: nat, found: nat) {
    && offset <= found <= |s|
    && (forall i :: offset <= i < found ==> !At(s, sep, i))
    && (found < |s| ==> At(s, sep, found))
  }

  /** The text holds no splitter at or behind `offset`. */
  predicate Free(s: string, sep: string, offset: nat) {
    forall i :: offset <= i <= |s| ==> !At(s, sep, i)
  }

  /** Slices of slices. */
  lemma Slices(s: string, a: nat, b: nat, i: nat, j: nat)
    requires a <= b <= |s| && i <= j <= b - a
    ensures s[a..b][i..j] == s[a + i..a + j]
  {
    forall k | 0 <= k < j - i
      ensures s[a..b][i..j][k] == s[a + i..a + j][k]
    {
      assert s[a..b][i + k] == s[a + (i + k)];
    }
  }

  method Find(s: string, sep: string, offset: nat) returns (found: nat)
    requires sep != "" && offset <= |s|
    ensures FirstAt(s, sep, offset, found)
  {
    found := offset;
    while found < |s| && !(found + |sep| <= |s| && s[found..found + |sep|] == sep)
      invariant offset <= found <= |s| && forall i :: offset <= i < found ==> !At(s, sep, i)
    {
      found := found + 1;
    }
  }

  /** The pieces with the splitter between them. */
  function Join(v: seq<string>, sep: string): string {
    if v == [] then ""
    else if |v| == 1 then v[0]
    else v[0] + sep + Join(v[1..], sep)
  }

  method UtilJoin(v: seq<string>, joiner: string, prefix: string, suffix: string) returns (result: string)
    ensures result == prefix + Join(v, joiner) + suffix
  {
    result := prefix;
    var i := 0;
    while i < |v|
      invariant 0 <= i <= |v| && result == prefix + Join(v[..i], joiner)
    {
      JoinBack(v[..i], v[i], joiner);
      assert v[..i] + [v[i]] == v[..i + 1];
      if i != 0 {
        result := result + joiner;
      }
      result := result + v[i];
      i := i + 1;
    }
    assert v[..i] == v;
    result := result + suffix;
  }

  lemma {:induction false} JoinBack(v: seq<string>, s: string, sep: string)
    ensures Join(v + [s], sep) == if v == [] then s else Join(v, sep) + sep + s
  {
    if |v| > 1 {
      JoinBack(v[1..], s, sep);
      assert (v + [s])[1..] == v[1..] + [s];
    } else if |v| == 1 {
      assert (v + [s])[1..] == [s];
    }
  }

  /** With the splitter behind it, the piece ends where the splitter first stands. */
  predicate FirstSep(piece: string, sep: string) {
    forall i :: 0 <= i < |piece| ==> !At(piece + sep, sep, i)
  }

  /**
   How a text splits: joined, the pieces give the text; each but the last ends
   where the splitter first stands, and in the last it does not stand at all.
   */
  predicate Splits(s: string, sep: string, v: seq<string>) {
    && v != [] && Join(v, sep) == s
    && (forall i :: 0 <= i < |v| - 1 ==> FirstSep(v[i], sep))
    && Free(v[|v| - 1], sep, 0)
  }

  /** What lies before the next piece. */
  function Done(v: seq<string>, sep: string): string {
    if v == [] then "" else Join(v, sep) + sep
  }

  lemma Rejoin(v: seq<string>, sep: string, piece: string, rest: string)
    ensures Done(v, sep) + (piece + sep + rest) == Done(v + [piece], sep) + rest
  {
    JoinBack(v, piece, sep);
  }

  lemma NoneDone(s: string, sep: string)
    ensures s == Done([], sep) + s[0..]
  {
  }

  lemma LastDone(v: seq<string>, sep: string, piece: string)
    ensures Done(v, sep) + piece == Join(v + [piece], sep)
  {
    JoinBack(v, piece, sep);
  }

  method UtilSplit(s: string, splitter: string) returns (result: seq<string>)
    requires splitter != ""
    ensures s == "" ==> result == []
    ensures s != "" ==> Splits(s, splitter, result)
  {
    hide Join, FirstSep, Free, At, Done;
    NoneDone(s, splitter);
    result := [];
    if s != "" {
      var offset := 0;
      while true
        invariant offset <= |s|
        invariant offset > 0 <==> result != []
        invariant s == Done(result, splitter) + s[offset..]
        invariant forall i :: 0 <= i < |result| ==> FirstSep(result[i], splitter)
        decreases |s| - offset
      {
        var found := Find(s, splitter, offset);
        if found < |s| {
          Piece(s, splitter, offset, found);
          Rejoin(result, splitter, s[offset..found], s[found + |splitter|..]);
          result := result + [s[offset..found]];
          offset := found + |splitter|;
        } else {
          assert s[offset..|s|] == s[offset..];
          LastPiece(s, splitter, offset);
          LastDone(result, splitter, s[offset..]);
          result := result + [s[offset..|s|]];
          break;
        }
      }
    }
  }

  lemma Piece(s: string, sep: string, offset: nat, found: nat)
    requires FirstAt(s, sep, offset, found) && found < |s|
    ensures FirstSep(s[offset..found], sep)
    ensures s[offset..] == s[offset..found] + sep + s[found + |sep|..]
  {
    var piece := s[offset..found];
    assert s[offset..found + |sep|] == piece + sep;
    forall i | 0 <= i < |piece|
      ensures !At(piece + sep, sep, i)
    {
      Slices(s, offset, found + |sep|, i, i + |sep|);
      assert !At(s, sep, offset + i);
    }
  }

  lemma LastPiece(s: string, sep: string, offset: nat)
    requires FirstAt(s, sep, offset, |s|) && sep != ""
    ensures Free(s[offset..], sep, 0)
  {
    var piece := s[offset..];
    forall i | 0 <= i <= |piece|
      ensures !At(piece, sep, i)
    {
      if i + |sep| <= |piece| {
        Slices(s, offset, |s|, i, i + |sep|);
        assert !At(s, sep, offset + i);
      }
    }
  }

  // ------------------------------------------------------------- round trips

  /** The pieces of a splitting can be told from the text. */
  lemma FrontPiece(s: string, sep: string, v: seq<string>)
    requires sep != "" && Splits(s, sep, v) && |v| > 1
    ensures FirstAt(s, sep, 0, |v[0]|) && |v[0]| + |sep| <= |s| && v[0] == s[..|v[0]|]
    ensures Splits(s[|v[0]| + |sep|..], sep, v[1..])
  {
    var p, rest := v[0], Join(v[1..], sep);
    assert s == (p + sep) + rest;
    assert s[..|p| + |sep|] == p + sep;
    assert (p + sep)[|p|..|p| + |sep|] == sep;
    assert At(s, sep, |p|);
    forall i | 0 <= i < |p|
      ensures !At(s, sep, i)
    {
      Slices(s, 0, |p| + |sep|, i, i + |sep|);
      assert !At(p + sep, sep, i);
    }
  }

  /** A text splits in one way. */
  lemma {:induction false} SplitsOneWay(s: string, sep: string, v: seq<string>, w: seq<string>)
    requires sep != "" && Splits(s, sep, v) && Splits(s, sep, w)
    ensures v == w
    decreases |v|
  {
    if |v| > 1 {
      FrontPiece(s, sep, v);
    }
    if |w| > 1 {
      FrontPiece(s, sep, w);
    }
    if |v| > 1 && |w| > 1 {
      assert |v[0]| == |w[0]|;
      SplitsOneWay(s[|v[0]| + |sep|..], sep, v[1..], w[1..]);
      assert v == [v[0]] + v[1..] && w == [w[0]] + w[1..];
    } else if |v| == 1 && |w| == 1 {
      assert v == [s] && w == [s];
    }
  }

  lemma JoinEmpty(v: seq<string>, sep: string)
    requires sep != ""
    ensures Join(v, sep) == "" <==> v == [] || v == [""]
  {
  }

  /** Splitting what was joined: exactly which lists come back. */
  predicate Rejoins(v: seq<string>, sep: string) {
    v == [] || (v != [""] && (forall i :: 0 <= i < |v| - 1 ==> FirstSep(v[i], sep)) && Free(v[|v| - 1], sep, 0))
  }

  /** Joined and split again, the list of one empty text is the empty list. */
  method EmptyPieceLost(sep: string) returns (w: seq<string>)
    requires sep != ""
    ensures w == []
  {
    var s := UtilJoin([""], sep, "", "");
    w := UtilSplit(s, sep);
  }

  method SplitJoined(v: seq<string>, sep: string) returns (w: seq<string>)
    requires sep != ""
    ensures w == v <==> Rejoins(v, sep)
  {
    var s := UtilJoin(v, sep, "", "");
    w := UtilSplit(s, sep);
    JoinEmpty(v, sep);
    assert s == Join(v, sep);
    if Rejoins(v, sep) && v != [] {
      SplitsOneWay(s, sep, v, w);
    }
  }

  method JoinSplit(s: string, sep: string) returns (r: string)
    requires sep != ""
    ensures r == s
  {
    var v := UtilSplit(s, sep);
    r := UtilJoin(v, sep, "", "");
  }

  /** With a splitter of one character it is enough that no element has that character. */
  lemma OneCharacter(v: seq<string>, c: char)
    ensures Rejoins(v, [c]) <==> v != [""] && forall i :: 0 <= i < |v| ==> c !in v[i]
  {
    forall p: string
      ensures FirstSep(p, [c]) <==> c !in p
      ensures Free(p, [c], 0) <==> c !in p
    {
      forall i | 0 <= i < |p|
        ensures At(p + [c], [c], i) <==> p[i] == c
        ensures At(p, [c], i) <==> p[i] == c
      {
        assert (p + [c])[i..i + 1] == [p[i]];
        assert p[i..i + 1] == [p[i]];
      }
    }
  }

  /** No piece holds the splitter. */
  lemma PiecesFree(s: string, sep: string, v: seq<string>, i: nat)
    requires sep != "" && Splits(s, sep, v) && i < |v|
    ensures Free(v[i], sep, 0)
  {
    if i < |v| - 1 {
      var p := v[i];
      forall j | 0 <= j <= |p|
        ensures !At(p, sep, j)
      {
        if j < |p| {
          assert !At(p + sep, sep, j);
          assert j + |sep| <= |p| ==> (p + sep)[j..j + |sep|] == p[j..j + |sep|];
        }
      }
    }
  }
}
