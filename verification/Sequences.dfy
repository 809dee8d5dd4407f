/** Facts about sequences that several modules need. */
module Sequences {
  lemma Assoc<T>(a: seq<T>, b: seq<T>, c: seq<T>)
    ensures (a + b) + c == a + (b + c)
  {
  }

  ghost function Without<T>(s: seq<T>, k: nat): seq<T>
    requires k < |s|
  {
    s[..k] + s[k + 1..]
  }

  lemma MultisetWithout<T>(s: seq<T>, k: nat)
    requires k < |s|
    ensures multiset(Without(s, k)) == multiset(s) - multiset{s[k]} && |Without(s, k)| == |s| - 1
  {
    assert s == s[..k] + [s[k]] + s[k + 1..];
  }

  /** t is the part of s that begins at p. */
  predicate Stands<T(==)>(s: seq<T>, p: nat, t: seq<T>) {
    p + |t| <= |s| && s[p..p + |t|] == t
  }

  lemma StandsSplit<T>(s: seq<T>, p: nat, a: seq<T>, b: seq<T>)
    requires Stands(s, p, a + b)
    ensures Stands(s, p, a) && Stands(s, p + |a|, b)
  {
    var t := s[p..p + |a + b|];
    assert t[..|a|] == a && t[|a|..] == b;
    assert t[..|a|] == s[p..p + |a|] && t[|a|..] == s[p + |a|..p + |a| + |b|];
  }

  lemma StandsAt<T>(s: seq<T>, p: nat, t: seq<T>, i: nat)
    requires Stands(s, p, t) && i < |t|
    ensures s[p + i] == t[i]
  {
    assert s[p..p + |t|][i] == t[i];
  }

  lemma StandsIs<T>(s: seq<T>, p: nat, t: seq<T>)
    requires Stands(s, p, t)
    ensures p + |t| <= |s| && s[p..p + |t|] == t
  {
  }
}
