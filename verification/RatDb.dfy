/**
 RATDB: tables of fields kept for each run, the ones loaded locally in front of
 the ones a server holds. Tables fetched from the server are cached under every
 run of their range and given up in the order of fetching, by bytes; what the
 server did not have is remembered too.
 */
module RatDb {
  import opened JsonText

  /** Run 0 stands for the default plane, run -1 for the user plane. */
  datatype Key = Key(name: string, index: string, run: int)

  /** A table as a document: its fields and the runs it is for. */
  datatype Doc = Doc(name: string, index: string, lo: int, hi: int, fields: map<string, Value>)

  /** The rows a query of the server gives. */
  datatype Answer = NoRow | OneRow(doc: Doc) | ManyRows

  type Server = Key -> Answer

  const MAX_SERVER_BYTES := 200000000

  // ------------------------------------------------- field types and reading

  datatype FieldType = NOTFOUND | INTEGER | DOUBLE | STRING | INTEGER_ARRAY | DOUBLE_ARRAY | STRING_ARRAY | JSON

  function TypeOf(v: Value): FieldType {
    match v
    case Int(_) => INTEGER
    case UInt(_) => INTEGER
    case Bool(_) => INTEGER
    case Real(_) => DOUBLE
    case Str(_) => STRING
    case Arr(items) =>
      if items == [] then JSON
      else (match items[0]
            case Int(_) => INTEGER_ARRAY
            case UInt(_) => INTEGER_ARRAY
            case Bool(_) => INTEGER_ARRAY
            case Real(_) => DOUBLE_ARRAY
            case Str(_) => STRING_ARRAY
            case _ => JSON)
    case _ => JSON
  }

  function GetFieldType(fields: map<string, Value>, name: string): FieldType {
    if name in fields then TypeOf(fields[name]) else NOTFOUND
  }

  /** A type is equivalent to itself, and JSON to every type a field can have. */
  predicate Equivalent(a: FieldType, b: FieldType) {
    if a == b then true
    else if a == JSON && b != NOTFOUND then true
    else if b == JSON && a != NOTFOUND then true
    else false
  }

  datatype PickResult = Picked(value: Value) | NotFoundError | WrongTypeError | CastError | Died

  predicate IntLike(v: Value) {
    v.Int? || v.UInt?
  }

  function AsInt(v: Value): Value
    requires IntLike(v)
  {
    if v.UInt? then Int(Wrap(v.u)) else v
  }

  predicate Numeric(v: Value) {
    v.Int? || v.UInt? || v.Real?
  }

  /** The typed getters of a table: what a caller asking for `ftype` is given. */
  function Get(fields: map<string, Value>, name: string, ftype: FieldType): PickResult {
    if name !in fields then NotFoundError
    else
      var v := fields[name];
      match ftype
      case INTEGER => if IntLike(v) then Picked(AsInt(v)) else WrongTypeError
      case DOUBLE => if Numeric(v) then Picked(v) else WrongTypeError
      case STRING => if v.Str? then Picked(v) else WrongTypeError
      case INTEGER_ARRAY =>
        if TypeOf(v) != INTEGER_ARRAY then WrongTypeError
        else if forall i :: 0 <= i < |v.items| ==> IntLike(v.items[i])
          then Picked(Arr(seq(|v.items|, i requires 0 <= i < |v.items| => AsInt(v.items[i]))))
        else CastError
      case DOUBLE_ARRAY =>
        if TypeOf(v) != DOUBLE_ARRAY then WrongTypeError
        else if forall i :: 0 <= i < |v.items| ==> Numeric(v.items[i]) then Picked(v)
        else CastError
      case STRING_ARRAY => if TypeOf(v) == STRING_ARRAY then Picked(v) else WrongTypeError
      case _ => Picked(v)
  }

  /** Stored values that a caller asking for ftype can be given. */
  predicate Readable(v: Value, ftype: FieldType) {
    match ftype
    case NOTFOUND => false
    case INTEGER => IntLike(v)
    case DOUBLE => Numeric(v)
    case STRING => v.Str?
    case INTEGER_ARRAY => v.Arr? && v.items != [] && forall i :: 0 <= i < |v.items| ==> IntLike(v.items[i])
    case DOUBLE_ARRAY =>
      v.Arr? && v.items != [] && v.items[0].Real? && forall i :: 0 <= i < |v.items| ==> Numeric(v.items[i])
    case STRING_ARRAY => v.Arr? && v.items != [] && v.items[0].Str?
    case JSON => true
  }

  // ------------------------------------------------------------- the server

  /** The table answered for a run is the table answered for all runs of its range. */
  ghost predicate WellKept(server: Server) {
    forall k: Key :: server(k).OneRow? ==> SameForItsRuns(server, k, server(k).doc)
  }

  ghost predicate SameForItsRuns(server: Server, k: Key, d: Doc) {
    && d.lo <= k.run <= d.hi
    && forall r :: d.lo <= r <= d.hi ==> server(Key(k.name, k.index, r)) == OneRow(d)
  }

  // ----------------------------------------------- the queue of server tables

  datatype Entry = Entry(key: Key, billed: bool)

  /** The entries of one fetch: all runs lo..hi of a table. */
  datatype Group = Group(name: string, index: string, lo: int, hi: int)

  /** The runs lo..hi, the last one billed for the whole table. */
  function Entries(g: Group): (es: seq<Entry>)
    ensures g.lo <= g.hi ==> |es| == g.hi - g.lo + 1 && es[|es| - 1].billed
    ensures forall i :: 0 <= i < |es| ==> es[i].key == Key(g.name, g.index, g.lo + i)
    ensures forall i :: 0 <= i < |es| - 1 ==> !es[i].billed
  {
    if g.lo > g.hi then []
    else seq(g.hi - g.lo + 1, i => Entry(Key(g.name, g.index, g.lo + i), g.lo + i == g.hi))
  }

  function Flatten(gs: seq<Group>): seq<Entry> {
    if gs == [] then [] else Entries(gs[0]) + Flatten(gs[1..])
  }

  function Keys(g: Group): set<Key> {
    set r | g.lo <= r <= g.hi :: Key(g.name, g.index, r)
  }

  function KeysOf(gs: seq<Group>): set<Key> {
    if gs == [] then {} else Keys(gs[0]) + KeysOf(gs[1..])
  }

  function KeysIn(q: seq<Entry>): set<Key> {
    set e | e in q :: e.key
  }

  /** The bytes of the billed entries. */
  function Billed(q: seq<Entry>, size: map<Key, int>): int {
    if q == [] then 0
    else (if q[0].billed && q[0].key in size then size[q[0].key] else 0) + Billed(q[1..], size)
  }

  lemma {:induction false} FlattenAppend(gs: seq<Group>, g: Group)
    ensures Flatten(gs + [g]) == Flatten(gs) + Entries(g)
    ensures KeysOf(gs + [g]) == KeysOf(gs) + Keys(g)
  {
    hide Entries, Keys;
    if gs == [] {
      assert [g][1..] == [];
    } else {
      FlattenAppend(gs[1..], g);
      assert (gs + [g])[1..] == gs[1..] + [g];
    }
  }

  lemma KeysInConcat(p: seq<Entry>, q: seq<Entry>)
    ensures KeysIn(p + q) == KeysIn(p) + KeysIn(q)
  {
  }

  lemma EntriesKeys(g: Group)
    ensures KeysIn(Entries(g)) == Keys(g)
  {
    forall k
      ensures k in KeysIn(Entries(g)) <==> k in Keys(g)
    {
      if k in Keys(g) {
        assert Entries(g)[k.run - g.lo].key == k;
      }
    }
  }

  lemma {:induction false} FlattenKeys(gs: seq<Group>)
    ensures KeysIn(Flatten(gs)) == KeysOf(gs)
  {
    if gs != [] {
      hide Entries, Keys, KeysIn;
      FlattenKeys(gs[1..]);
      EntriesKeys(gs[0]);
      KeysInConcat(Entries(gs[0]), Flatten(gs[1..]));
    } else {
      assert KeysIn([]) == {};
    }
  }

  lemma {:induction false} KeysOfHas(gs: seq<Group>, i: nat)
    requires i < |gs|
    ensures Keys(gs[i]) <= KeysOf(gs)
  {
    if i > 0 {
      KeysOfHas(gs[1..], i - 1);
    }
  }

  lemma {:induction false} KeysOfGroup(gs: seq<Group>, k: Key) returns (i: nat)
    requires k in KeysOf(gs)
    ensures i < |gs| && k in Keys(gs[i])
  {
    if k in Keys(gs[0]) {
      i := 0;
    } else {
      i := KeysOfGroup(gs[1..], k);
      i := i + 1;
    }
  }

  lemma {:induction false} KeysOfSplit(gs: seq<Group>, n: nat)
    requires n <= |gs|
    ensures KeysOf(gs) == KeysOf(gs[..n]) + KeysOf(gs[n..])
    ensures Flatten(gs) == Flatten(gs[..n]) + Flatten(gs[n..])
  {
    if n == 0 {
      assert gs[0..] == gs;
    } else {
      KeysOfSplit(gs[1..], n - 1);
      assert gs[..n][1..] == gs[1..][..n - 1];
      assert gs[1..][n - 1..] == gs[n..];
    }
  }

  lemma {:induction false} BilledConcat(p: seq<Entry>, q: seq<Entry>, size: map<Key, int>)
    ensures Billed(p + q, size) == Billed(p, size) + Billed(q, size)
  {
    if p == [] {
      assert p + q == q;
    } else {
      BilledConcat(p[1..], q, size);
      assert (p + q)[1..] == p[1..] + q;
    }
  }

  lemma {:induction false} NothingBilled(q: seq<Entry>, size: map<Key, int>)
    requires forall i :: 0 <= i < |q| ==> !q[i].billed
    ensures Billed(q, size) == 0
  {
    if q != [] {
      NothingBilled(q[1..], size);
    }
  }

  lemma {:induction false} SameBill(q: seq<Entry>, s1: map<Key, int>, s2: map<Key, int>)
    requires forall e :: e in q ==> (e.key in s1 <==> e.key in s2) && (e.key in s1 ==> s1[e.key] == s2[e.key])
    ensures Billed(q, s1) == Billed(q, s2)
  {
    if q != [] {
      SameBill(q[1..], s1, s2);
    }
  }

  /** A position of the queue just behind a billed entry, or at the very front. */
  predicate AtBoundary(q: seq<Entry>, j: nat) {
    j <= |q| && (j == 0 || q[j - 1].billed)
  }

  /** Behind the front group, boundaries are those of the rest. */
  lemma BoundaryBehind(es: seq<Entry>, rest: seq<Entry>, j: nat)
    requires AtBoundary(es + rest, j) && j > 0
    requires forall i :: 0 <= i < |es| - 1 ==> !es[i].billed
    ensures |es| <= j <= |es| + |rest| && AtBoundary(rest, j - |es|)
    ensures (es + rest)[j..] == rest[j - |es|..] && (es + rest)[..j] == es + rest[..j - |es|]
  {
  }

  lemma FlattenFront(gs: seq<Group>)
    requires gs != []
    ensures Flatten(gs) == Entries(gs[0]) + Flatten(gs[1..])
    ensures forall n :: 0 <= n < |gs| ==> gs[1..][n..] == gs[n + 1..]
    ensures forall n :: 0 <= n < |gs| ==> Flatten(gs[..n + 1]) == Entries(gs[0]) + Flatten(gs[1..][..n])
  {
    forall n | 0 <= n < |gs|
      ensures gs[..n + 1][1..] == gs[1..][..n]
    {
    }
  }

  /** Boundaries lie between groups. */
  lemma {:induction false} BoundaryGroup(gs: seq<Group>, j: nat) returns (n: nat)
    requires forall i :: 0 <= i < |gs| ==> gs[i].lo <= gs[i].hi
    requires AtBoundary(Flatten(gs), j)
    ensures n <= |gs| && Flatten(gs)[j..] == Flatten(gs[n..]) && Flatten(gs)[..j] == Flatten(gs[..n])
    ensures j > 0 ==> n > 0
    decreases |gs|
  {
    if j == 0 {
      n := 0;
      assert gs[0..] == gs;
    } else {
      hide Entries, AtBoundary;
      FlattenNone();
      FlattenFront(gs);
      hide Flatten;
      var es := Entries(gs[0]);
      BoundaryBehind(es, Flatten(gs[1..]), j);
      n := BoundaryGroup(gs[1..], j - |es|);
      n := n + 1;
    }
  }

  // --------------------------------------------------- what the cache keeps

  ghost predicate GroupOk(server: Server, names: set<string>, g: Group) {
    && g.lo <= g.hi && g.name in names
    && var a := server(Key(g.name, g.index, g.lo)); a.OneRow? && a.doc.lo == g.lo && a.doc.hi == g.hi
  }

  /**
   The queue is a sequence of whole, different groups; tables are the local ones
   and those of the groups; the server has no table for a local key, nor for a
   key remembered as absent.
   */
  ghost predicate CacheOk(server: Server, names: set<string>, groups: seq<Group>, queue: seq<Entry>,
                          keys: set<Key>, local: set<Key>, absent: set<Key>)
  {
    && queue == Flatten(groups)
    && (forall i :: 0 <= i < |groups| ==> GroupOk(server, names, groups[i]))
    && (forall i, j :: 0 <= i < j < |groups| ==> groups[i] != groups[j])
    && keys == local + KeysOf(groups)
    && local !! KeysOf(groups)
    && (forall k :: k in local ==> server(k).NoRow?)
    && (forall k :: k in absent ==> server(k).NoRow?)
  }

  lemma SameRuns(server: Server, k: Key)
    requires WellKept(server) && server(k).OneRow?
    ensures SameForItsRuns(server, k, server(k).doc)
  {
  }

  lemma GroupAnswer(server: Server, names: set<string>, g: Group, k: Key)
    requires WellKept(server) && GroupOk(server, names, g) && k in Keys(g)
    ensures server(k) == server(Key(g.name, g.index, g.lo)) && server(k).OneRow? && k.name == g.name
    ensures server(k).doc.lo == g.lo && server(k).doc.hi == g.hi && k.index == g.index
  {
    assert SameForItsRuns(server, Key(g.name, g.index, g.lo), server(Key(g.name, g.index, g.lo)).doc);
  }

  /** Cached keys are answered by the server, with a name it is known to have. */
  lemma CachedAnswer(server: Server, names: set<string>, groups: seq<Group>, k: Key)
    requires WellKept(server) && (forall i :: 0 <= i < |groups| ==> GroupOk(server, names, groups[i]))
    requires k in KeysOf(groups)
    ensures server(k).OneRow? && k.name in names
    ensures Group(k.name, k.index, server(k).doc.lo, server(k).doc.hi) in groups
  {
    var i := KeysOfGroup(groups, k);
    GroupAnswer(server, names, groups[i], k);
    assert groups[i] == Group(k.name, k.index, server(k).doc.lo, server(k).doc.hi);
  }

  /** The front groups share no key with the others. */
  lemma FrontApart(server: Server, names: set<string>, groups: seq<Group>, n: nat)
    requires WellKept(server) && (forall i :: 0 <= i < |groups| ==> GroupOk(server, names, groups[i]))
    requires forall i, j :: 0 <= i < j < |groups| ==> groups[i] != groups[j]
    requires n <= |groups|
    ensures KeysOf(groups[..n]) !! KeysOf(groups[n..])
  {
    forall k | k in KeysOf(groups[..n])
      ensures k !in KeysOf(groups[n..])
    {
      CachedAnswer(server, names, groups[..n], k);
      if k in KeysOf(groups[n..]) {
        CachedAnswer(server, names, groups[n..], k);
        assert false;
      }
    }
  }

  /** No key stands in the queue twice. */
  lemma QueueKeysDiffer(server: Server, names: set<string>, groups: seq<Group>, i: nat, j: nat)
    requires WellKept(server) && (forall i :: 0 <= i < |groups| ==> GroupOk(server, names, groups[i]))
    requires forall i, j :: 0 <= i < j < |groups| ==> groups[i] != groups[j]
    requires i < j < |Flatten(groups)|
    ensures Flatten(groups)[i].key != Flatten(groups)[j].key
    decreases |groups|
  {
    hide Keys, KeysIn, KeysOf, GroupOk, WellKept;
    var es, rest := Entries(groups[0]), Flatten(groups[1..]);
    if j < |es| {
    } else if i < |es| {
      FrontApart(server, names, groups, 1);
      KeysOfOne(groups);
      FlattenKeys(groups[1..]);
      EntriesKeys(groups[0]);
      KeyIn(es, i);
      KeyIn(rest, j - |es|);
    } else {
      QueueKeysDiffer(server, names, groups[1..], i - |es|, j - |es|);
    }
  }

  lemma KeyIn(q: seq<Entry>, i: nat)
    requires i < |q|
    ensures q[i].key in KeysIn(q)
  {
    assert q[i] in q;
  }

  lemma KeysOfOne(gs: seq<Group>)
    requires gs != []
    ensures KeysOf(gs[..1]) == Keys(gs[0])
  {
    assert gs[..1][1..] == [];
  }

  /** Giving up the front groups. */
  lemma AfterEviction(server: Server, names: set<string>, groups: seq<Group>, n: nat,
                      keys: set<Key>, local: set<Key>, absent: set<Key>)
    requires WellKept(server) && n <= |groups|
    requires CacheOk(server, names, groups, Flatten(groups), keys, local, absent)
    ensures CacheOk(server, names, groups[n..], Flatten(groups[n..]), keys - KeysIn(Flatten(groups[..n])), local,
            absent)
  {
    hide Flatten, Keys, KeysIn, KeysOf, GroupOk, WellKept;
    FlattenKeys(groups[..n]);
    KeysOfSplit(groups, n);
    FrontApart(server, names, groups, n);
  }

  /** Adding the group of a table just fetched. */
  lemma AfterFetch(server: Server, names: set<string>, groups: seq<Group>, k: Key,
                   keys: set<Key>, local: set<Key>, absent: set<Key>)
    requires WellKept(server) && server(k).OneRow? && k.name in names
    requires CacheOk(server, names, groups, Flatten(groups), keys, local, absent)
    requires k !in KeysOf(groups)
    ensures var g := Group(k.name, k.index, server(k).doc.lo, server(k).doc.hi);
            CacheOk(server, names, groups + [g], Flatten(groups) + Entries(g), keys + Keys(g), local, absent)
    ensures k in Keys(Group(k.name, k.index, server(k).doc.lo, server(k).doc.hi))
    ensures KeysOf(groups) !! Keys(Group(k.name, k.index, server(k).doc.lo, server(k).doc.hi))
    ensures local !! Keys(Group(k.name, k.index, server(k).doc.lo, server(k).doc.hi))
    ensures server(k).doc.lo <= k.run <= server(k).doc.hi
    ensures forall j :: j in Keys(Group(k.name, k.index, server(k).doc.lo, server(k).doc.hi)) ==> server(j) == server(k)
  {
    hide KeysOf, Flatten, Entries, WellKept;
    var d := server(k).doc;
    var g := Group(k.name, k.index, d.lo, d.hi);
    SameRuns(server, k);
    assert server(Key(k.name, k.index, d.lo)) == OneRow(d);
    assert k == Key(g.name, g.index, k.run);
    assert GroupOk(server, names, g);
    if g in groups {
      var i: nat :| i < |groups| && groups[i] == g;
      KeysOfHas(groups, i);
      assert false;
    }
    forall j | j in KeysOf(groups)
      ensures j !in Keys(g)
    {
      CachedAnswer(server, names, groups, j);
      if j in Keys(g) {
        GroupAnswer(server, names, g, j);
      }
    }
    forall j | j in local
      ensures j !in Keys(g)
    {
      if j in Keys(g) {
        GroupAnswer(server, names, g, j);
      }
    }
    FlattenAppend(groups, g);
    forall j | j in Keys(g)
      ensures server(j) == server(k)
    {
      GroupAnswer(server, names, g, j);
      GroupAnswer(server, names, g, k);
    }
  }

  lemma QueueInTables(gs: seq<Group>, q: seq<Entry>)
    requires q == Flatten(gs)
    ensures forall i :: 0 <= i < |q| ==> q[i].key in KeysOf(gs)
  {
    FlattenKeys(gs);
    forall i | 0 <= i < |q|
      ensures q[i].key in KeysOf(gs)
    {
      KeyIn(q, i);
    }
  }

  ghost predicate Distinct(q: seq<Entry>) {
    forall i, j :: 0 <= i < j < |q| ==> q[i].key != q[j].key
  }

  lemma QueueDistinct(server: Server, names: set<string>, groups: seq<Group>, q: seq<Entry>)
    requires WellKept(server) && (forall i :: 0 <= i < |groups| ==> GroupOk(server, names, groups[i]))
    requires forall i, j :: 0 <= i < j < |groups| ==> groups[i] != groups[j]
    requires q == Flatten(groups)
    ensures Distinct(q)
  {
    forall i, j | 0 <= i < j < |q|
      ensures q[i].key != q[j].key
    {
      QueueKeysDiffer(server, names, groups, i, j);
    }
  }

  lemma NotAmongEarlier(q: seq<Entry>, j: nat)
    requires Distinct(q) && j < |q|
    ensures q[j].key !in KeysIn(q[..j])
  {
  }

  lemma KeysInNext(q: seq<Entry>, j: nat)
    requires j < |q|
    ensures KeysIn(q[..j + 1]) == KeysIn(q[..j]) + {q[j].key}
  {
    assert q[..j + 1] == q[..j] + [q[j]];
    KeysInConcat(q[..j], [q[j]]);
  }

  lemma {:induction false} FlattenLast(gs: seq<Group>)
    requires gs != [] && forall i :: 0 <= i < |gs| ==> gs[i].lo <= gs[i].hi
    ensures Flatten(gs) != [] && Flatten(gs)[|Flatten(gs)| - 1] == Entries(gs[|gs| - 1])[|Entries(gs[|gs| - 1])| - 1]
    ensures Flatten(gs)[|Flatten(gs)| - 1].billed
  {
    if |gs| > 1 {
      FlattenLast(gs[1..]);
    }
  }

  lemma EntriesBilled(g: Group, size: map<Key, int>)
    requires g.lo <= g.hi
    ensures Billed(Entries(g), size) == Billed([Entries(g)[|Entries(g)| - 1]], size)
  {
    var es := Entries(g);
    assert es == es[..|es| - 1] + [es[|es| - 1]];
    BilledConcat(es[..|es| - 1], [es[|es| - 1]], size);
    NothingBilled(es[..|es| - 1], size);
  }

  /** An eviction that stops as soon as there is space stops between groups. */
  lemma WholeGroups(gs: seq<Group>, size: map<Key, int>, more: int, j: nat) returns (n: nat)
    requires forall i :: 0 <= i < |gs| ==> gs[i].lo <= gs[i].hi
    requires j <= |Flatten(gs)|
    requires j == |Flatten(gs)| || Billed(Flatten(gs)[j..], size) + more <= MAX_SERVER_BYTES
    requires j > 0 ==> Billed(Flatten(gs)[j - 1..], size) + more > MAX_SERVER_BYTES
    ensures n <= |gs| && Flatten(gs)[j..] == Flatten(gs[n..]) && Flatten(gs)[..j] == Flatten(gs[..n])
    ensures n > 0 ==> Billed(Flatten(gs[n - 1..]), size) + more > MAX_SERVER_BYTES
  {
    hide Flatten, Entries, Billed;
    var q := Flatten(gs);
    if j > 0 {
      BilledStep(q, j, size);
      if gs != [] {
        FlattenLast(gs);
      } else {
        FlattenNone();
      }
    }
    n := BoundaryGroup(gs, j);
    if n > 0 {
      FlattenLast(gs[..n]);
      FlattenStep(gs, n, size);
    }
  }

  lemma MinusMinus<T>(m: map<Key, T>, gone: set<Key>, k: Key)
    ensures (m - gone) - {k} == m - (gone + {k})
  {
  }

  lemma BilledOne(e: Entry, size: map<Key, int>)
    requires e.key in size
    ensures Billed([e], size) == if e.billed then size[e.key] else 0
  {
  }

  lemma KeysInNone()
    ensures KeysIn([]) == {}
  {
  }

  /** One entry leaves the queue. */
  lemma PopStep<T>(q: seq<Entry>, j: nat, size: map<Key, int>, m: map<Key, T>)
    requires Distinct(q) && j < |q| && q[j].key in size && q[j].key in m
    ensures q[j..][1..] == q[j + 1..] && q[j..][0] == q[j]
    ensures q[j].key in m - KeysIn(q[..j])
    ensures (m - KeysIn(q[..j])) - {q[j].key} == m - KeysIn(q[..j + 1])
    ensures Billed(q[j..], size) == (if q[j].billed then size[q[j].key] else 0) + Billed(q[j + 1..], size)
  {
    NotAmongEarlier(q, j);
    KeysInNext(q, j);
    BilledStep(q, j + 1, size);
    BilledOne(q[j], size);
    MinusMinus(m, KeysIn(q[..j]), q[j].key);
  }

  /** What a good cache means for its queue. */
  lemma CacheFacts(server: Server, names: set<string>, groups: seq<Group>, queue: seq<Entry>,
                   keys: set<Key>, local: set<Key>, absent: set<Key>)
    requires WellKept(server) && CacheOk(server, names, groups, queue, keys, local, absent)
    ensures queue == Flatten(groups) && Distinct(queue) && keys == local + KeysOf(groups)
    ensures forall i :: 0 <= i < |queue| ==> queue[i].key in keys
    ensures forall i :: 0 <= i < |groups| ==> groups[i].lo <= groups[i].hi
  {
    QueueInTables(groups, queue);
    QueueDistinct(server, names, groups, queue);
  }

  lemma RememberAbsent(server: Server, names: set<string>, groups: seq<Group>, queue: seq<Entry>,
                       keys: set<Key>, local: set<Key>, absent: set<Key>, k: Key)
    requires CacheOk(server, names, groups, queue, keys, local, absent) && server(k).NoRow?
    ensures CacheOk(server, names, groups, queue, keys, local, absent + {k})
  {
  }

  lemma BilledNone(size: map<Key, int>)
    ensures Flatten([]) == [] && Billed([], size) == 0
  {
  }

  lemma FlattenNone()
    ensures Flatten([]) == []
  {
  }

  lemma BilledStep(q: seq<Entry>, j: nat, size: map<Key, int>)
    requires 0 < j <= |q|
    ensures Billed(q[j - 1..], size) == Billed([q[j - 1]], size) + Billed(q[j..], size)
    ensures !q[j - 1].billed ==> Billed([q[j - 1]], size) == 0
    ensures j == |q| ==> Billed(q[j..], size) == 0
  {
    assert q[j - 1..] == [q[j - 1]] + q[j..];
    BilledConcat([q[j - 1]], q[j..], size);
  }

  lemma FlattenStep(gs: seq<Group>, n: nat, size: map<Key, int>)
    requires 0 < n <= |gs| && gs[n - 1].lo <= gs[n - 1].hi
    ensures var es := Entries(gs[n - 1]);
            Billed(Flatten(gs[n - 1..]), size) == Billed([es[|es| - 1]], size) + Billed(Flatten(gs[n..]), size)
  {
    EntriesBilled(gs[n - 1], size);
    assert gs[n - 1..][1..] == gs[n..];
    BilledConcat(Entries(gs[n - 1]), Flatten(gs[n..]), size);
  }

  // ------------------------------------------------------------ the tables

  class DBTable {
    var name: string
    var index: string
    var runBegin: int
    var runEnd: int
    var fields: map<string, Value>
    var bytes: int

    constructor (name: string, index: string)
      ensures this.name == name && this.index == index && runBegin == 0 && runEnd == 0
      ensures fields == map[] && bytes == 0
    {
      this.name, this.index, runBegin, runEnd, fields, bytes := name, index, 0, 0, map[], 0;
    }

    constructor FromDoc(doc: Doc)
      ensures name == doc.name && index == doc.index && runBegin == doc.lo && runEnd == doc.hi
      ensures fields == doc.fields && bytes == 0
    {
      name, index, runBegin, runEnd, fields, bytes := doc.name, doc.index, doc.lo, doc.hi, doc.fields, 0;
    }

    predicate IsUser()
      reads this
    {
      runBegin == -1 && runEnd == -1
    }

    predicate IsDefault()
      reads this
    {
      runBegin == 0 && runEnd == 0
    }

    /** The runs a loaded table is found under. */
    ghost function Range(): Group
      reads this
    {
      Group(name, index, runBegin, runEnd)
    }

    method SetUser()
      modifies this`runBegin, this`runEnd
      ensures IsUser()
    {
      runBegin, runEnd := -1, -1;
    }

    method SetI(field: string, val: int)
      modifies this`fields, this`bytes
      ensures fields == old(fields)[field := Int(val)]
      ensures bytes == old(bytes) + (if field in old(fields) then 0 else 4)
    {
      if GetFieldType(fields, field) == NOTFOUND {
        bytes := bytes + 4;
      }
      fields := fields[field := Int(val)];
    }

    method SetD(field: string, val: string)
      modifies this`fields, this`bytes
      ensures fields == old(fields)[field := Real(val)]
      ensures bytes == old(bytes) + (if field in old(fields) then 0 else 8)
    {
      if GetFieldType(fields, field) == NOTFOUND {
        bytes := bytes + 8;
      }
      fields := fields[field := Real(val)];
    }

    method SetS(field: string, val: string)
      modifies this`fields, this`bytes
      ensures fields == old(fields)[field := Str(val)]
      ensures bytes == old(bytes) + |val|
                       - (if field in old(fields) && old(fields)[field].Str? then |old(fields)[field].s| else 0)
    {
      if GetFieldType(fields, field) == STRING {
        bytes := bytes - |fields[field].s|;
      }
      bytes := bytes + |val|;
      fields := fields[field := Str(val)];
    }
  }

  /** What is known of a key: the fields of its table, or that there is none. */
  datatype Content = Fields(fields: map<string, Value>) | Nothing | Dies

  datatype Found = Table(table: DBTable) | Missing | Dead

  function Served(a: Answer): Content {
    match a
    case NoRow => Nothing
    case OneRow(d) => Fields(d.fields)
    case ManyRows => Dies
  }

  /** The database without a cache: local tables first, then the server if it knows the name. */
  function Plain(local: map<Key, map<string, Value>>, server: Server, names: set<string>, k: Key): Content {
    if k in local then Fields(local[k])
    else if k.name !in names then Nothing
    else Served(server(k))
  }

  /**
   Local keys hold the table last loaded or made for them; cached keys hold what
   the server answers, the keys of one fetch share one table, and no cached
   table is a local one too.
   */
  ghost predicate TablesOk(server: Server, groups: seq<Group>, tables: map<Key, DBTable>, loaded: map<Key, DBTable>,
                           fields: map<Key, map<string, Value>>)
  {
    && (forall k :: k in loaded ==> k in tables && tables[k] == loaded[k])
    && (forall k :: k in tables && k !in loaded ==>
                      k in fields && server(k).OneRow? && fields[k] == server(k).doc.fields)
    && (forall g, k, j :: g in groups && k in Keys(g) && j in Keys(g) && k in tables && j in tables ==>
                            tables[k] == tables[j])
    && (forall k, j :: k in loaded && j in tables && j !in loaded ==> tables[k] != tables[j])
  }

  lemma FewerTables(server: Server, groups: seq<Group>, tables: map<Key, DBTable>, loaded: map<Key, DBTable>,
                    fields: map<Key, map<string, Value>>, gone: set<Key>, n: nat)
    requires TablesOk(server, groups, tables, loaded, fields)
    requires gone !! loaded.Keys && n <= |groups|
    ensures TablesOk(server, groups[n..], tables - gone, loaded, fields - gone)
  {
    assert forall g :: g in groups[n..] ==> g in groups;
  }

  lemma LocalTables(server: Server, groups: seq<Group>, tables: map<Key, DBTable>, loaded: map<Key, DBTable>,
                    fields: map<Key, map<string, Value>>)
    requires TablesOk(server, groups, tables, loaded, fields)
    ensures loaded.Values <= tables.Values
    ensures forall k :: k in loaded ==> k in tables && tables[k] == loaded[k]
  {
  }

  /** The keys of a group, all with one value. */
  function Under<T>(g: Group, t: T): (m: map<Key, T>)
    ensures m.Keys == Keys(g) && forall k :: k in Keys(g) ==> m[k] == t
  {
    map k | k in Keys(g) :: t
  }

  /** Without its bill, the queue of a group is what the loop over its runs appends. */
  function Unbilled(g: Group, hi: int): seq<Entry> {
    if g.lo > hi then [] else seq(hi - g.lo + 1, i => Entry(Key(g.name, g.index, g.lo + i), false))
  }

  lemma UnderNone<T>(g: Group, m: map<Key, T>, t: T)
    ensures m + Under(g.(hi := g.lo - 1), t) == m
    ensures g.hi < g.lo ==> m + Under(g, t) == m
  {
  }

  lemma UnderNext<T>(g: Group, i: int, m: map<Key, T>, t: T)
    requires g.lo <= i <= g.hi
    ensures m + Under(g.(hi := i), t) == (m + Under(g.(hi := i - 1), t))[Key(g.name, g.index, i) := t]
    ensures Key(g.name, g.index, i) in Keys(g)
  {
    assert Keys(g.(hi := i)) == Keys(g.(hi := i - 1)) + {Key(g.name, g.index, i)};
  }

  lemma NoRuns(g: Group, m: map<Key, DBTable>, q: seq<Entry>, t: DBTable)
    ensures m + Under(g.(hi := g.lo - 1), t) == m && q + Unbilled(g, g.lo - 1) == q
  {
  }

  /** One more run of a table just fetched. */
  lemma NextRun(g: Group, i: int, m: map<Key, DBTable>, q: seq<Entry>, t: DBTable)
    requires g.lo <= i <= g.hi
    ensures m + Under(g.(hi := i), t) == (m + Under(g.(hi := i - 1), t))[Key(g.name, g.index, i) := t]
    ensures q + Unbilled(g, i) == q + Unbilled(g, i - 1) + [Entry(Key(g.name, g.index, i), false)]
  {
    UnderNext(g, i, m, t);
    assert Unbilled(g, i) == Unbilled(g, i - 1) + [Entry(Key(g.name, g.index, i), false)];
  }

  lemma BillLast(q: seq<Entry>, g: Group)
    requires g.lo <= g.hi
    ensures var p := q + Unbilled(g, g.hi);
            |p| > 0 && p[|p| - 1 := p[|p| - 1].(billed := true)] == q + Entries(g)
  {
    var p, n := q + Unbilled(g, g.hi), g.hi - g.lo + 1;
    assert |Unbilled(g, g.hi)| == n && |Entries(g)| == n;
    forall i | 0 <= i < n
      ensures Entries(g)[i] == Entry(Key(g.name, g.index, g.lo + i), i == n - 1)
    {
    }
  }

  /** A new group is billed once. */
  lemma BillMore(q: seq<Entry>, g: Group, s1: map<Key, int>, s2: map<Key, int>, bytes: int)
    requires g.lo <= g.hi && s2 == s1 + Under(g, bytes)
    requires forall i :: 0 <= i < |q| ==> q[i].key in s1 && q[i].key !in Keys(g)
    ensures Billed(q + Entries(g), s2) == Billed(q, s1) + bytes
  {
    SameBill(q, s1, s2);
    BilledConcat(q, Entries(g), s2);
    EntriesBilled(g, s2);
    var last := Entries(g)[g.hi - g.lo];
    assert last.key == Key(g.name, g.index, g.hi) && last.key in Keys(g);
    BilledOne(last, s2);
  }

  /** The tables with those of a fetch added. */
  lemma MoreTables(server: Server, groups: seq<Group>, tables: map<Key, DBTable>, loaded: map<Key, DBTable>,
                   fields: map<Key, map<string, Value>>, g: Group, t: DBTable, f: map<string, Value>)
    requires TablesOk(server, groups, tables, loaded, fields)
    requires Keys(g) !! loaded.Keys && Keys(g) !! KeysOf(groups) && t !in loaded.Values
    requires forall k :: k in Keys(g) ==> server(k).OneRow? && server(k).doc.fields == f
    ensures TablesOk(server, groups + [g], tables + Under(g, t), loaded,
                     fields + Under(g, f))
  {
    hide KeysOf, Keys;
    var more := tables + Under(g, t);
    assert forall k :: k in more <==> k in tables || k in Keys(g);
    assert forall k :: k in Keys(g) ==> more[k] == t;
    forall h, k, j | h in groups + [g] && k in Keys(h) && j in Keys(h) && k in more && j in more
      ensures more[k] == more[j]
    {
      if h != g {
        var i: nat :| i < |groups| && groups[i] == h;
        KeysOfHas(groups, i);
      }
    }
  }

  /** All that keeps its order when a table just fetched is added. */
  lemma AddedOk(server: Server, names: set<string>, groups: seq<Group>, q: seq<Entry>, tables: map<Key, DBTable>,
                loaded: map<Key, DBTable>, absent: set<Key>, fields: map<Key, map<string, Value>>, size: map<Key, int>,
                k: Key, t: DBTable, bytes: int)
    requires WellKept(server) && CacheOk(server, names, groups, q, tables.Keys, loaded.Keys, absent)
    requires TablesOk(server, groups, tables, loaded, fields) && size.Keys == tables.Keys
    requires server(k).OneRow? && k.name in names && k !in tables && t !in tables.Values
    ensures var d := server(k).doc;
            var g := Group(k.name, k.index, d.lo, d.hi);
            && d.lo <= d.hi && k in Keys(g)
            && CacheOk(server, names, groups + [g], q + Entries(g), (tables + Under(g, t)).Keys, loaded.Keys, absent)
            && TablesOk(server, groups + [g], tables + Under(g, t), loaded, fields + Under(g, d.fields))
            && Billed(q + Entries(g), size + Under(g, bytes)) == Billed(q, size) + bytes
  {
    hide CacheOk, KeysOf, Keys, Flatten, Entries, WellKept, TablesOk, Billed, Under;
    var g := Group(k.name, k.index, server(k).doc.lo, server(k).doc.hi);
    CacheFacts(server, names, groups, q, tables.Keys, loaded.Keys, absent);
    AfterFetch(server, names, groups, k, tables.Keys, loaded.Keys, absent);
    LocalTables(server, groups, tables, loaded, fields);
    MoreTables(server, groups, tables, loaded, fields, g, t, server(k).doc.fields);
    assert (tables + Under(g, t)).Keys == tables.Keys + Keys(g);
    BillMore(q, g, size, size + Under(g, bytes), bytes);
  }

  /** A table loaded or made for a key the server has nothing for. */
  lemma PutOk(server: Server, names: set<string>, groups: seq<Group>, q: seq<Entry>, tables: map<Key, DBTable>,
              loaded: map<Key, DBTable>, absent: set<Key>, fields: map<Key, map<string, Value>>,
              id: Key, t: DBTable, f: map<string, Value>)
    requires WellKept(server) && CacheOk(server, names, groups, q, tables.Keys, loaded.Keys, absent)
    requires TablesOk(server, groups, tables, loaded, fields) && server(id).NoRow?
    requires NotCached(tables, loaded, t)
    ensures CacheOk(server, names, groups, q, tables[id := t].Keys, loaded[id := t].Keys, absent)
    ensures TablesOk(server, groups, tables[id := t], loaded[id := t], fields[id := f])
    ensures NotCached(tables[id := t], loaded[id := t], t)
  {
    hide Keys, KeysOf, Flatten, WellKept;
    assert id !in KeysOf(groups) by {
      if id in KeysOf(groups) {
        CachedAnswer(server, names, groups, id);
        assert false;
      }
    }
    assert tables[id := t].Keys == tables.Keys + {id} && loaded[id := t].Keys == loaded.Keys + {id};
    forall g, k, j | g in groups && k in Keys(g) && j in Keys(g) && k in tables[id := t] && j in tables[id := t]
      ensures tables[id := t][k] == tables[id := t][j]
    {
      var i: nat :| i < |groups| && groups[i] == g;
      KeysOfHas(groups, i);
    }
  }

  /** t is no table that came from the server. */
  ghost predicate NotCached(tables: map<Key, DBTable>, loaded: map<Key, DBTable>, t: DBTable) {
    forall k :: k in tables && k !in loaded ==> tables[k] != t
  }

  /** A field set in a table that did not come from the server. */
  lemma FieldSetOk(server: Server, groups: seq<Group>, tables: map<Key, DBTable>, loaded: map<Key, DBTable>,
                   before: map<Key, map<string, Value>>, after: map<Key, map<string, Value>>, t: DBTable)
    requires TablesOk(server, groups, tables, loaded, before) && NotCached(tables, loaded, t)
    requires before.Keys == tables.Keys == after.Keys
    requires forall k :: k in tables && tables[k] != t ==> after[k] == before[k]
    ensures TablesOk(server, groups, tables, loaded, after)
  {
  }

  /** The user plane shares no table with another run. */
  ghost predicate UserApart(loaded: map<Key, DBTable>) {
    forall k, j :: k in loaded && j in loaded && k.run == -1 && loaded[k] == loaded[j] ==> k == j
  }

  /** Only that field of that local table has changed; the table was made if there was none. */
  ghost predicate FieldSet(loaded0: map<Key, DBTable>, loaded: map<Key, DBTable>, local0: map<Key, map<string, Value>>,
                           local: map<Key, map<string, Value>>, id: Key, field: string, v: Value)
  {
    && local0.Keys == loaded0.Keys && local.Keys == loaded.Keys
    && id in loaded && loaded == loaded0[id := loaded[id]]
    && local[id] == (if id in local0 then local0[id] else map[])[field := v]
    && (if id in loaded0 then loaded[id] == loaded0[id] else loaded[id] !in loaded0.Values)
    && forall k :: k in loaded0 && loaded0[k] != loaded[id] ==> local[k] == local0[k]
  }

  lemma FieldSetStep(loaded0: map<Key, DBTable>, loaded: map<Key, DBTable>, local0: map<Key, map<string, Value>>,
                     local1: map<Key, map<string, Value>>, local: map<Key, map<string, Value>>,
                     id: Key, t: DBTable, field: string, v: Value)
    requires local0.Keys == loaded0.Keys && local.Keys == loaded.Keys && loaded == loaded0[id := t]
    requires if id in loaded0 then t == loaded0[id] else t !in loaded0.Values
    requires local1 == local0[id := if id in local0 then local0[id] else map[]]
    requires local[id] == local1[id][field := v]
    requires forall k :: k in loaded && loaded[k] != t ==> local[k] == local1[k]
    ensures FieldSet(loaded0, loaded, local0, local, id, field, v)
  {
  }

  /** With the user plane apart, that is the one key that has changed. */
  lemma FieldSetApart(loaded0: map<Key, DBTable>, loaded: map<Key, DBTable>, local0: map<Key, map<string, Value>>,
                      local: map<Key, map<string, Value>>, id: Key, field: string, v: Value)
    requires FieldSet(loaded0, loaded, local0, local, id, field, v) && UserApart(loaded0) && id.run == -1
    ensures UserApart(loaded)
    ensures local == local0[id := (if id in local0 then local0[id] else map[])[field := v]]
  {
  }

  class DB {
    const server: Server
    var namesOnServer: set<string>
    var tablesNotOnServer: set<Key>
    var tables: map<Key, DBTable>
    var tablesFromServer: seq<Entry>
    ghost var loaded: map<Key, DBTable>
    ghost var groups: seq<Group>

    ghost predicate Valid()
      reads this, tables.Values
    {
      && WellKept(server)
      && CacheOk(server, namesOnServer, groups, tablesFromServer, tables.Keys, loaded.Keys, tablesNotOnServer)
      && TablesOk(server, groups, tables, loaded, FieldsNow())
    }

    /** The present fields of the tables. */
    ghost function FieldsNow(): (fields: map<Key, map<string, Value>>)
      reads this`tables, tables.Values
      ensures fields.Keys == tables.Keys && forall k :: k in tables ==> fields[k] == tables[k].fields
    {
      map k | k in tables :: tables[k].fields
    }

    /** The fields loaded and set locally. */
    ghost function Local(): (local: map<Key, map<string, Value>>)
      reads this`loaded, loaded.Values
      ensures local.Keys == loaded.Keys && forall k :: k in loaded ==> local[k] == loaded[k].fields
    {
      map k | k in loaded :: loaded[k].fields
    }

    lemma LoadedLocal(loaded0: map<Key, DBTable>, local0: map<Key, map<string, Value>>, g: Group, t: DBTable)
      requires loaded == loaded0 + Under(g, t) && local0.Keys == loaded0.Keys
      requires forall k :: k in loaded0 ==> local0[k] == loaded0[k].fields
      ensures Local() == local0 + Under(g, t.fields)
    {
    }

    ghost function ContentOf(k: Key): Content
      reads this`loaded, this`namesOnServer, loaded.Values
    {
      Plain(Local(), server, namesOnServer, k)
    }

    /** The present bytes of the tables. */
    ghost function Sizes(): (size: map<Key, int>)
      reads this`tables, tables.Values
      ensures size.Keys == tables.Keys && forall k :: k in tables ==> size[k] == tables[k].bytes
    {
      map k | k in tables :: tables[k].bytes
    }

    lemma Snapshot(fields: map<Key, map<string, Value>>, size: map<Key, int>)
      requires fields.Keys == tables.Keys && forall k :: k in tables ==> fields[k] == tables[k].fields
      requires size.Keys == tables.Keys && forall k :: k in tables ==> size[k] == tables[k].bytes
      ensures FieldsNow() == fields && Sizes() == size
    {
    }

    constructor (server: Server)
      requires WellKept(server)
      ensures Valid() && this.server == server && loaded == map[] && groups == [] && namesOnServer == {}
    {
      this.server, namesOnServer, tablesNotOnServer := server, {}, {};
      tables, tablesFromServer, loaded, groups := map[], [], map[], [];
    }

    lemma QueuedHere()
      requires Valid()
      ensures forall i :: 0 <= i < |tablesFromServer| ==> tablesFromServer[i].key in tables
    {
      QueueInTables(groups, tablesFromServer);
    }

    /** What the cached tables are billed. */
    method ServerTableBytes() returns (total: int)
      requires Valid()
      ensures total == Billed(tablesFromServer, Sizes())
    {
      hide Valid, Billed, Sizes;
      ghost var q, size := tablesFromServer, Sizes();
      QueuedHere();
      total := 0;
      var i := 0;
      assert q[0..] == q && q[|q|..] == [];
      BilledNone(size);
      while i < |tablesFromServer|
        invariant 0 <= i <= |q|
        invariant total + Billed(q[i..], size) == Billed(q, size)
      {
        BilledStep(q, i + 1, size);
        BilledOne(q[i], size);
        if tablesFromServer[i].billed {
          total := total + tables[tablesFromServer[i].key].bytes;
        }
        i := i + 1;
      }
    }

    /** Entries leave the queue, and their keys the tables, until there is space or nothing left. */
    method PopWhileFull(total: int, newTableBytes: int) returns (ghost j: nat)
      requires Distinct(tablesFromServer) && total == Billed(tablesFromServer, Sizes())
      requires forall i :: 0 <= i < |tablesFromServer| ==> tablesFromServer[i].key in tables
      modifies this`tables, this`tablesFromServer
      ensures j <= |old(tablesFromServer)| && tablesFromServer == old(tablesFromServer)[j..]
      ensures tables == old(tables) - KeysIn(old(tablesFromServer)[..j])
      ensures tablesFromServer == [] || Billed(tablesFromServer, old(Sizes())) + newTableBytes <= MAX_SERVER_BYTES
      ensures j > 0 ==> Billed(old(tablesFromServer)[j - 1..], old(Sizes())) + newTableBytes > MAX_SERVER_BYTES
    {
      hide KeysIn, Billed;
      ghost var q, size, tables0 := tablesFromServer, Sizes(), tables;
      var serverTableBytes := total;
      j := 0;
      assert q[0..] == q;
      assert q[..0] == [];
      KeysInNone();
      while tablesFromServer != [] && serverTableBytes + newTableBytes > MAX_SERVER_BYTES
        invariant j <= |q| && tablesFromServer == q[j..]
        invariant tables == tables0 - KeysIn(q[..j])
        invariant serverTableBytes == Billed(q[j..], size)
        invariant j > 0 ==> Billed(q[j - 1..], size) + newTableBytes > MAX_SERVER_BYTES
      {
        var forDeletion := tablesFromServer[0];
        PopStep(q, j, size, tables0);
        tablesFromServer := tablesFromServer[1..];
        var deleteSize := tables[forDeletion.key].bytes;
        if forDeletion.billed {
          serverTableBytes := serverTableBytes - deleteSize;
        }
        tables := tables - {forDeletion.key};
        j := j + 1;
      }
    }

    /** Space for a new table is made by giving up whole tables, oldest first, and no more than needed. */
    method Evict(newTableBytes: int) returns (ghost n: nat)
      requires Valid()
      modifies this`tables, this`tablesFromServer, this`groups
      ensures Valid() && n <= |old(groups)| && groups == old(groups)[n..]
      ensures tables == old(tables) - KeysOf(old(groups)[..n])
      ensures tablesFromServer == [] || Billed(tablesFromServer, Sizes()) + newTableBytes <= MAX_SERVER_BYTES
      ensures n > 0 ==> Billed(Flatten(old(groups)[n - 1..]), old(Sizes())) + newTableBytes > MAX_SERVER_BYTES
    {
      hide CacheOk, KeysOf, Keys, KeysIn, Billed, Flatten, Entries, WellKept, TablesOk, FieldsNow, Sizes;
      ghost var q, size, fields0, tables0, groups0 := tablesFromServer, Sizes(), FieldsNow(), tables, groups;
      CacheFacts(server, namesOnServer, groups, q, tables.Keys, loaded.Keys, tablesNotOnServer);
      var serverTableBytes := ServerTableBytes();
      ghost var j := PopWhileFull(serverTableBytes, newTableBytes);
      n := WholeGroups(groups, size, newTableBytes, j);
      AfterEviction(server, namesOnServer, groups, n, tables0.Keys, loaded.Keys, tablesNotOnServer);
      FlattenKeys(groups[..n]);
      assert KeysIn(q[..j]) == KeysOf(groups[..n]);
      assert tables.Keys == tables0.Keys - KeysOf(groups[..n]);
      groups := groups[n..];
      Snapshot(fields0 - KeysIn(q[..j]), size - KeysIn(q[..j]));
      CacheFacts(server, namesOnServer, groups, tablesFromServer, tables.Keys, loaded.Keys, tablesNotOnServer);
      FewerTables(server, groups0, tables0, loaded, fields0, KeysIn(q[..j]), n);
      SameBill(tablesFromServer, size, Sizes());
    }

    /** The new table goes under every run of its range, and the last run is billed for it. */
    method AppendRuns(id0: Key, t: DBTable, ghost g: Group)
      requires g == Group(id0.name, id0.index, t.runBegin, t.runEnd) && g.lo <= g.hi
      modifies this`tables, this`tablesFromServer
      ensures tables == old(tables) + Under(g, t)
      ensures tablesFromServer == old(tablesFromServer) + Entries(g)
    {
      hide Keys, Entries, Unbilled;
      ghost var q, tables0 := tablesFromServer, tables;
      var id := id0;
      var i := t.runBegin;
      NoRuns(g, tables, tablesFromServer, t);
      while i <= t.runEnd
        invariant g.lo <= i <= g.hi + 1
        invariant tables == tables0 + Under(g.(hi := i - 1), t)
        invariant tablesFromServer == q + Unbilled(g, i - 1)
        invariant id.name == g.name && id.index == g.index
      {
        NextRun(g, i, tables0, q, t);
        id := id.(run := i);
        tables := tables[id := t];
        tablesFromServer := tablesFromServer + [Entry(id, false)];
        i := i + 1;
      }
      BillLast(q, g);
      var last := |tablesFromServer| - 1;
      tablesFromServer := tablesFromServer[last := tablesFromServer[last].(billed := true)];
    }

    method AddFromServer(k: Key, t: DBTable)
      requires Valid() && k.name in namesOnServer && k !in tables
      requires server(k).OneRow? && t.runBegin == server(k).doc.lo && t.runEnd == server(k).doc.hi
      requires t.fields == server(k).doc.fields && t !in tables.Values
      modifies this`tables, this`tablesFromServer, this`groups
      ensures Valid()
      ensures var g := Group(k.name, k.index, server(k).doc.lo, server(k).doc.hi);
              && groups == old(groups) + [g] && tables == old(tables) + Under(g, t)
              && tablesFromServer == old(tablesFromServer) + Entries(g)
      ensures k in tables && tables[k] == t
      ensures Billed(tablesFromServer, Sizes()) == old(Billed(tablesFromServer, Sizes())) + t.bytes
    {
      hide CacheOk, KeysOf, Keys, Flatten, Entries, WellKept, TablesOk, Billed, FieldsNow, Sizes, Under;
      ghost var g := Group(k.name, k.index, t.runBegin, t.runEnd);
      ghost var fields, size := FieldsNow() + Under(g, t.fields), Sizes() + Under(g, t.bytes);
      AddedOk(server, namesOnServer, groups, tablesFromServer, tables, loaded, tablesNotOnServer,
              FieldsNow(), Sizes(), k, t, t.bytes);
      AppendRuns(k, t, g);
      groups := groups + [g];
      Snapshot(fields, size);
    }

    /** The table for a key: the local one, a cached one, or what the server answers now. */
    method FindTable(name: string, index: string, run: int) returns (r: Found, ghost evicted: nat)
      requires Valid()
      modifies this`tables, this`tablesFromServer, this`groups, this`tablesNotOnServer
      ensures Valid()
      ensures var k := Key(name, index, run);
              match old(ContentOf(k))
              case Fields(f) => r.Table? && k in tables && tables[k] == r.table && r.table.fields == f
              case Nothing => r.Missing?
              case Dies => r.Dead?
      ensures old(Key(name, index, run) in tables || !ContentOf(Key(name, index, run)).Fields?) ==>
                tables == old(tables) && groups == old(groups) && tablesFromServer == old(tablesFromServer)
      ensures old(Key(name, index, run) !in tables) && r.Table? ==>
                Fetched(old(groups), old(tables), Key(name, index, run), r.table, evicted) && fresh(r.table)
                && Billed(tablesFromServer, Sizes()) <= MAX_SERVER_BYTES
      ensures old(Key(name, index, run) !in tables) && r.Table? && evicted > 0 ==>
                Billed(Flatten(old(groups)[evicted - 1..]), old(Sizes())) > MAX_SERVER_BYTES
      ensures forall x :: x in tables.Values ==> x in old(tables.Values) || fresh(x)
    {
      hide CacheOk, KeysOf, Keys, Flatten, Entries, WellKept, TablesOk, Billed, FieldsNow, Sizes, Under, Fetched;
      var id := Key(name, index, run);
      evicted := 0;
      KnownTable(id);
      if id in tables {
        return Table(tables[id]), 0;
      }
      if name !in namesOnServer {
        return Missing, 0;
      }
      if id in tablesNotOnServer {
        return Missing, 0;
      }
      var answer := server(id);
      if answer.NoRow? {
        RememberAbsent(server, namesOnServer, groups, tablesFromServer, tables.Keys, loaded.Keys, tablesNotOnServer,
                       id);
        tablesNotOnServer := tablesNotOnServer + {id};
        return Missing, 0;
      }
      if answer.ManyRows? {
        return Dead, 0;
      }
      var newTable;
      newTable, evicted := Fetch(id);
      return Table(newTable), evicted;
    }

    /** The server's table comes into memory, in place of the oldest ones if it must. */
    method Fetch(id: Key) returns (newTable: DBTable, ghost evicted: nat)
      requires Valid() && id.name in namesOnServer && id !in tables && server(id).OneRow?
      modifies this`tables, this`tablesFromServer, this`groups
      ensures Valid() && id in tables && tables[id] == newTable && newTable.fields == server(id).doc.fields
      ensures fresh(newTable) && Fetched(old(groups), old(tables), id, newTable, evicted)
      ensures forall x :: x in tables.Values ==> x in old(tables.Values) || fresh(x)
      ensures Billed(tablesFromServer, Sizes()) <= MAX_SERVER_BYTES
      ensures evicted > 0 ==> Billed(Flatten(old(groups)[evicted - 1..]), old(Sizes())) > MAX_SERVER_BYTES
    {
      hide CacheOk, KeysOf, Keys, Flatten, Entries, WellKept, TablesOk, Billed, FieldsNow, Sizes, Under;
      ghost var fields0, size0 := FieldsNow(), Sizes();
      newTable := new DBTable.FromDoc(server(id).doc);
      Snapshot(fields0, size0);
      evicted := Evict(newTable.bytes);
      BilledNone(Sizes());
      AddFromServer(id, newTable);
      FetchedValues(old(tables), KeysOf(old(groups)[..evicted]),
                    Group(id.name, id.index, server(id).doc.lo, server(id).doc.hi), newTable);
    }

    lemma FetchedValues(tables0: map<Key, DBTable>, gone: set<Key>, g: Group, t: DBTable)
      requires tables == (tables0 - gone) + Under(g, t)
      ensures tables.Values <= tables0.Values + {t}
    {
    }

    /** The new table went in under its whole range, after the oldest `evicted` groups went out. */
    ghost predicate Fetched(groups0: seq<Group>, tables0: map<Key, DBTable>, k: Key, t: DBTable, evicted: nat)
      reads this`groups, this`tables
    {
      && server(k).OneRow? && evicted <= |groups0|
      && var g := Group(k.name, k.index, server(k).doc.lo, server(k).doc.hi);
      && groups == groups0[evicted..] + [g]
      && tables == (tables0 - KeysOf(groups0[..evicted])) + Under(g, t)
    }

    /** Tables in memory hold what the database without a cache would give. */
    lemma KnownTable(k: Key)
      requires Valid()
      ensures k in tables ==> ContentOf(k) == Fields(tables[k].fields)
      ensures k !in tables ==> ContentOf(k) == if k.name in namesOnServer then Served(server(k)) else Nothing
      ensures k in tablesNotOnServer ==> server(k).NoRow?
    {
      if k in tables && k !in loaded {
        CachedAnswer(server, namesOnServer, groups, k);
      }
    }

    method PutLocal(id: Key, t: DBTable)
      requires Valid() && server(id).NoRow? && NotCached(tables, loaded, t)
      modifies this`tables, this`loaded
      ensures Valid() && tables == old(tables)[id := t] && loaded == old(loaded)[id := t]
      ensures NotCached(tables, loaded, t)
    {
      hide CacheOk, Keys, Flatten, WellKept, TablesOk, FieldsNow, Sizes, NotCached;
      ghost var fields, size := FieldsNow()[id := t.fields], Sizes()[id := t.bytes];
      PutOk(server, namesOnServer, groups, tablesFromServer, tables, loaded, tablesNotOnServer, FieldsNow(), id, t,
            t.fields);
      tables := tables[id := t];
      loaded := loaded[id := t];
      Snapshot(fields, size);
    }

    /** One run of a table being loaded; what was there before is only reported. */
    method LoadFor(id: Key, table: DBTable)
      requires Valid() && server(id).NoRow? && NotCached(tables, loaded, table)
      modifies this`tables, this`tablesFromServer, this`groups, this`tablesNotOnServer, this`loaded
      ensures Valid() && groups == old(groups) && NotCached(tables, loaded, table)
      ensures tables == old(tables)[id := table] && loaded == old(loaded)[id := table]
    {
      hide CacheOk, Keys, Flatten, WellKept, TablesOk, FieldsNow, Sizes, Fetched, Billed, NotCached;
      KnownTable(id);
      var oldtable, _ := FindTable(id.name, id.index, id.run);
      PutLocal(id, table);
    }

    /** A loaded table is found under every run of its range from now on. */
    method LoadTable(table: DBTable)
      requires Valid() && table !in tables.Values
      requires forall k :: k in Keys(table.Range()) ==> server(k).NoRow?
      modifies this`tables, this`tablesFromServer, this`groups, this`tablesNotOnServer, this`loaded
      ensures Valid() && groups == old(groups)
      ensures loaded == old(loaded) + Under(table.Range(), table)
      ensures tables == old(tables) + Under(table.Range(), table)
    {
      hide CacheOk, Flatten, Keys, WellKept, TablesOk, FieldsNow, Sizes, Under, Valid;
      ghost var g := table.Range();
      UnderNone(g, tables, table);
      UnderNone(g, loaded, table);
      var id := Key(table.name, table.index, 0);
      if table.IsDefault() {
        id := id.(run := 0);
        UnderNext(g, 0, old(tables), table);
        UnderNext(g, 0, old(loaded), table);
        LoadFor(id, table);
        assert g.(hi := 0) == g;
      } else if table.IsUser() {
        id := id.(run := -1);
        UnderNext(g, -1, old(tables), table);
        UnderNext(g, -1, old(loaded), table);
        LoadFor(id, table);
        assert g.(hi := -1) == g;
      } else {
        var i := table.runBegin;
        while i <= table.runEnd
          invariant Valid() && groups == old(groups) && NotCached(tables, loaded, table)
          invariant if g.lo <= g.hi then g.lo <= i <= g.hi + 1 else i == g.lo
          invariant loaded == old(loaded) + Under(g.(hi := i - 1), table)
          invariant tables == old(tables) + Under(g.(hi := i - 1), table)
          invariant id.name == g.name && id.index == g.index
        {
          id := id.(run := i);
          UnderNext(g, i, old(tables), table);
          UnderNext(g, i, old(loaded), table);
          LoadFor(id, table);
          i := i + 1;
        }
        assert g.lo <= g.hi ==> g.(hi := i - 1) == g;
      }
    }

    /** The table for a key, or a new empty user table. */
    method FindOrCreateTable(name: string, index: string, run: int) returns (r: Found)
      requires Valid() && server(Key(name, index, -1)).NoRow?
      modifies this`tables, this`tablesFromServer, this`groups, this`tablesNotOnServer, this`loaded
      ensures Valid()
      ensures var k := Key(name, index, run);
              match old(ContentOf(k))
              case Fields(f) =>
                r.Table? && k in tables && tables[k] == r.table && r.table.fields == f && loaded == old(loaded)
              case Dies => r.Dead? && loaded == old(loaded)
              case Nothing =>
                r.Table? && fresh(r.table) && r.table.fields == map[] && r.table.IsUser()
                && loaded == old(loaded)[Key(name, index, -1) := r.table]
      ensures forall x :: x in tables.Values ==> x in old(tables.Values) || fresh(x)
    {
      hide CacheOk, Keys, Flatten, WellKept, TablesOk, FieldsNow, Sizes, Fetched, Billed, NotCached, ContentOf, Valid;
      ghost var evicted;
      r, evicted := FindTable(name, index, run);
      if r.Missing? {
        var id := Key(name, index, -1);
        ghost var fields, size := FieldsNow(), Sizes();
        var t := new DBTable(name, index);
        Snapshot(fields, size);
        t.SetUser();
        Snapshot(fields, size);
        NewNotCached(t);
        PutLocal(id, t);
        r := Table(t);
      }
    }

    lemma NewNotCached(t: DBTable)
      requires t !in tables.Values
      ensures NotCached(tables, loaded, t)
    {
    }

    /** A key the server has nothing for is a local key or none. */
    lemma LocalKey(id: Key)
      requires Valid() && server(id).NoRow?
      ensures id in tables <==> id in loaded
      ensures ContentOf(id) == if id in loaded then Fields(loaded[id].fields) else Nothing
      ensures id in loaded ==> tables[id] == loaded[id] && NotCached(tables, loaded, loaded[id])
    {
    }

    /** The user table of a key, if there is one. */
    function UserTables(name: string, index: string): set<DBTable>
      reads this
    {
      if Key(name, index, -1) in tables then {tables[Key(name, index, -1)]} else {}
    }

    /** The user table of a key, made if need be. */
    method UserTable(name: string, index: string) returns (t: DBTable)
      requires Valid() && server(Key(name, index, -1)).NoRow?
      modifies this`tables, this`tablesFromServer, this`groups, this`tablesNotOnServer, this`loaded
      ensures Valid() && NotCached(tables, loaded, t) && loaded == old(loaded)[Key(name, index, -1) := t]
      ensures if Key(name, index, -1) in old(loaded) then t == old(loaded[Key(name, index, -1)])
              && {t} == old(UserTables(name, index))
              else fresh(t) && t.fields == map[]
      ensures forall x :: x in tables.Values ==> x in old(tables.Values) || fresh(x)
      ensures var id := Key(name, index, -1);
              Local() == old(Local())[id := if id in old(Local()) then old(Local())[id] else map[]]
    {
      hide CacheOk, WellKept, TablesOk, FieldsNow, Sizes, NotCached, Valid;
      ghost var id := Key(name, index, -1);
      LocalKey(id);
      var r := FindOrCreateTable(name, index, -1);
      LocalKey(id);
      t := r.table;
    }

    method SetI(name: string, index: string, field: string, val: int)
      requires Valid() && server(Key(name, index, -1)).NoRow?
      modifies this`tables, this`tablesFromServer, this`groups, this`tablesNotOnServer, this`loaded,
               UserTables(name, index)
      ensures Valid() && FieldSet(old(loaded), loaded, old(Local()), Local(), Key(name, index, -1), field, Int(val))
      ensures forall x :: x in tables.Values ==> x in old(tables.Values) || fresh(x)
    {
      hide CacheOk, WellKept, TablesOk, FieldsNow, Sizes, NotCached, Local, FieldSet;
      var t := UserTable(name, index);
      ghost var fields, local1 := FieldsNow(), Local();
      t.SetI(field, val);
      FieldSetOk(server, groups, tables, loaded, fields, FieldsNow(), t);
      FieldSetStep(old(loaded), loaded, old(Local()), local1, Local(), Key(name, index, -1), t, field, Int(val));
    }

    method SetD(name: string, index: string, field: string, val: string)
      requires Valid() && server(Key(name, index, -1)).NoRow?
      modifies this`tables, this`tablesFromServer, this`groups, this`tablesNotOnServer, this`loaded,
               UserTables(name, index)
      ensures Valid() && FieldSet(old(loaded), loaded, old(Local()), Local(), Key(name, index, -1), field, Real(val))
      ensures forall x :: x in tables.Values ==> x in old(tables.Values) || fresh(x)
    {
      hide CacheOk, WellKept, TablesOk, FieldsNow, Sizes, NotCached, Local, FieldSet;
      var t := UserTable(name, index);
      ghost var fields, local1 := FieldsNow(), Local();
      t.SetD(field, val);
      FieldSetOk(server, groups, tables, loaded, fields, FieldsNow(), t);
      FieldSetStep(old(loaded), loaded, old(Local()), local1, Local(), Key(name, index, -1), t, field, Real(val));
    }

    method SetS(name: string, index: string, field: string, val: string)
      requires Valid() && server(Key(name, index, -1)).NoRow?
      modifies this`tables, this`tablesFromServer, this`groups, this`tablesNotOnServer, this`loaded,
               UserTables(name, index)
      ensures Valid() && FieldSet(old(loaded), loaded, old(Local()), Local(), Key(name, index, -1), field, Str(val))
      ensures forall x :: x in tables.Values ==> x in old(tables.Values) || fresh(x)
    {
      hide CacheOk, WellKept, TablesOk, FieldsNow, Sizes, NotCached, Local, FieldSet;
      var t := UserTable(name, index);
      ghost var fields, local1 := FieldsNow(), Local();
      t.SetS(field, val);
      FieldSetOk(server, groups, tables, loaded, fields, FieldsNow(), t);
      FieldSetStep(old(loaded), loaded, old(Local()), local1, Local(), Key(name, index, -1), t, field, Str(val));
    }

    /** Arrays that arrive late make a table larger. */
    method Resize(t: DBTable, bytes: int)
      requires Valid() && t in tables.Values
      modifies t`bytes
      ensures Valid() && t.bytes == bytes
    {
      hide CacheOk, WellKept, TablesOk, Sizes;
      ghost var fields := FieldsNow();
      t.bytes := bytes;
      assert FieldsNow() == fields;
    }

    /** The server is asked for the names of its tables. */
    method SetServer(names: set<string>)
      requires Valid() && namesOnServer <= names
      modifies this`namesOnServer
      ensures Valid() && namesOnServer == names
    {
      namesOnServer := names;
    }
  }
}
