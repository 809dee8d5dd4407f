/**
 RATDB as its users see it: whole runs of the database against a plain one
 without a cache, and the three planes in which a field is looked up.
 */
module RatDbRuns {
  import J = JsonText
  import opened RatDb

  /** The fields of a table, and the tables known locally. */
  type Plane = map<string, J.Value>
  type Tables = map<Key, Plane>

  // ------------------------------------------------------------ whole runs

  datatype Op =
    | Ask(key: Key)
    | Load(doc: Doc)
    | Set(name: string, index: string, field: string, val: J.Value)
    | Grow(key: Key, bytes: int)

  /** What local tables become by an operation, with no cache beside them. */
  function After(local: Tables, op: Op): Tables {
    match op
    case Load(doc) => local + Under(Group(doc.name, doc.index, doc.lo, doc.hi), doc.fields)
    case Set(name, index, field, v) =>
      var id := Key(name, index, -1);
      local[id := (if id in local then local[id] else map[])[field := v]]
    case _ => local
  }

  /** The replies of a plain database to a run of operations; the program dies of a wrong answer of the server. */
  function PlainReplies(local: Tables, server: Server, names: set<string>, ops: seq<Op>): seq<Content>
    decreases |ops|
  {
    if ops == [] then []
    else if ops[0].Ask? then
      var c := Plain(local, server, names, ops[0].key);
      if c.Dies? then [Dies] else [c] + PlainReplies(local, server, names, ops[1..])
    else PlainReplies(After(local, ops[0]), server, names, ops[1..])
  }

  /** Local tables are for the user plane, the default plane or positive runs, and never for a key of the server. */
  ghost predicate Proper(server: Server, op: Op) {
    match op
    case Load(d) =>
      && (d.lo == d.hi == -1 || d.lo == d.hi == 0 || d.lo >= 1)
      && forall k :: k in Keys(Group(d.name, d.index, d.lo, d.hi)) ==> server(k).NoRow?
    case Set(name, index, field, v) => server(Key(name, index, -1)).NoRow? && (v.Int? || v.Real? || v.Str?)
    case _ => true
  }

  lemma LoadedApart(loaded: map<Key, DBTable>, t: DBTable, g: Group)
    requires UserApart(loaded) && t !in loaded.Values
    requires g.lo == g.hi == -1 || g.lo >= 0
    ensures UserApart(loaded + Under(g, t))
  {
  }

  /** A local table is read in and loaded. */
  method DoLoad(db: DB, doc: Doc)
    requires db.Valid() && UserApart(db.loaded) && Proper(db.server, Load(doc))
    modifies db
    ensures db.Valid() && UserApart(db.loaded) && db.namesOnServer == old(db.namesOnServer)
    ensures db.Local() == After(old(db.Local()), Load(doc))
    ensures forall x :: x in db.tables.Values ==> x in old(db.tables.Values) || fresh(x)
  {
    hide CacheOk, WellKept, TablesOk, DB.FieldsNow, DB.Sizes, UserApart, Under, DB.Local;
    ghost var fields, size := db.FieldsNow(), db.Sizes();
    var t := new DBTable.FromDoc(doc);
    db.Snapshot(fields, size);
    LoadedApart(db.loaded, t, t.Range());
    db.LoadTable(t);
    db.LoadedLocal(old(db.loaded), old(db.Local()), t.Range(), t);
  }

  /** One operation that asks nothing. */
  method Change(db: DB, op: Op)
    requires db.Valid() && UserApart(db.loaded) && Proper(db.server, op) && !op.Ask?
    modifies db, db.tables.Values
    ensures db.Valid() && UserApart(db.loaded) && db.namesOnServer == old(db.namesOnServer)
    ensures db.Local() == After(old(db.Local()), op)
    ensures forall x :: x in db.tables.Values ==> x in old(db.tables.Values) || fresh(x)
  {
    hide CacheOk, WellKept, TablesOk, UserApart;
    ghost var loaded0, local0 := db.loaded, db.Local();
    match op
    case Load(doc) =>
      DoLoad(db, doc);
    case Set(name, index, field, v) =>
      match v {
        case Int(i) => db.SetI(name, index, field, i);
        case Real(d) => db.SetD(name, index, field, d);
        case Str(s) => db.SetS(name, index, field, s);
      }
      FieldSetApart(loaded0, db.loaded, local0, db.Local(), Key(name, index, -1), field, v);
    case Grow(k, bytes) =>
      if k in db.tables {
        db.Resize(db.tables[k], bytes);
      }
  }

  /** What the database says of a key. */
  method Reply(db: DB, k: Key) returns (c: Content)
    requires db.Valid()
    modifies db`tables, db`tablesFromServer, db`groups, db`tablesNotOnServer
    ensures db.Valid() && c == old(db.ContentOf(k))
    ensures forall x :: x in db.tables.Values ==> x in old(db.tables.Values) || fresh(x)
  {
    hide CacheOk, WellKept, TablesOk;
    var r, _ := db.FindTable(k.name, k.index, k.run);
    match r
    case Dead => c := Dies;
    case Missing => c := Nothing;
    case Table(t) => c := Fields(t.fields);
  }

  lemma NextReply(local: Tables, server: Server, names: set<string>, ops: seq<Op>, i: nat)
    requires i < |ops|
    ensures var rest := PlainReplies(local, server, names, ops[i..]);
            if ops[i].Ask? then
              var c := Plain(local, server, names, ops[i].key);
              rest == if c.Dies? then [c] else [c] + PlainReplies(local, server, names, ops[i + 1..])
            else rest == PlainReplies(After(local, ops[i]), server, names, ops[i + 1..])
  {
  }

  /**
   Whatever has been cached, evicted or remembered as absent in between, the
   database replies to a run of operations as a plain one without a cache does.
   */
  method Replay(db: DB, ops: seq<Op>) returns (replies: seq<Content>)
    requires db.Valid() && UserApart(db.loaded)
    requires forall i :: 0 <= i < |ops| ==> Proper(db.server, ops[i])
    modifies db, db.tables.Values
    ensures db.Valid()
    ensures replies == PlainReplies(old(db.Local()), db.server, old(db.namesOnServer), ops)
  {
    hide CacheOk, WellKept, TablesOk, UserApart, DB.FieldsNow, DB.Sizes, DB.Local, PlainReplies, Plain, After, Proper;
    replies := [];
    ghost var plain, names := PlainReplies(db.Local(), db.server, db.namesOnServer, ops), db.namesOnServer;
    assert ops[0..] == ops;
    var i := 0;
    while i < |ops|
      invariant 0 <= i <= |ops| && db.Valid() && UserApart(db.loaded) && db.namesOnServer == names
      invariant plain == replies + PlainReplies(db.Local(), db.server, names, ops[i..])
      invariant forall x :: x in db.tables.Values ==> x in old(db.tables.Values) || fresh(x)
    {
      NextReply(db.Local(), db.server, names, ops, i);
      if ops[i].Ask? {
        var c := Reply(db, ops[i].key);
        replies := replies + [c];
        if c.Dies? {
          return;
        }
      } else {
        Change(db, ops[i]);
      }
      i := i + 1;
    }
    NoReplies(db.Local(), db.server, names, ops);
  }

  lemma NoReplies(local: Tables, server: Server, names: set<string>, ops: seq<Op>)
    ensures PlainReplies(local, server, names, ops[|ops|..]) == []
  {
  }

  // ------------------------------------------------------------ three planes

  /** The plane has the field, with a type that a caller asking for ftype accepts. */
  predicate Compatible(c: Content, field: string, ftype: FieldType) {
    c.Fields? && Equivalent(GetFieldType(c.fields, field), ftype)
  }

  /** What Pick gives: the first plane with a compatible field is read. */
  function PickFrom(user: Content, run: Content, default: Content, field: string, ftype: FieldType): PickResult {
    if user.Dies? then Died
    else if Compatible(user, field, ftype) then Get(user.fields, field, ftype)
    else if run.Dies? then Died
    else if Compatible(run, field, ftype) then Get(run.fields, field, ftype)
    else if default.Dies? then Died
    else if Compatible(default, field, ftype) then Get(default.fields, field, ftype)
    else NotFoundError
  }

  class DBLink {
    const db: DB
    const tblname: string
    const index: string
    const currentRun: int

    constructor (db: DB, tblname: string, index: string, currentRun: int)
      ensures this.db == db && this.tblname == tblname && this.index == index && this.currentRun == currentRun
    {
      this.db, this.tblname, this.index, this.currentRun := db, tblname, index, currentRun;
    }

    method Pick(field: string, ftype: FieldType) returns (r: PickResult)
      requires db.Valid()
      modifies db`tables, db`tablesFromServer, db`groups, db`tablesNotOnServer
      ensures db.Valid()
      ensures r == old(PickFrom(db.ContentOf(Key(tblname, index, -1)), db.ContentOf(Key(tblname, index, currentRun)),
                                db.ContentOf(Key(tblname, index, 0)), field, ftype))
    {
      hide CacheOk, WellKept, TablesOk, Equivalent, GetFieldType, Get, DB.ContentOf, DB.Local;
      ghost var run, default := db.ContentOf(Key(tblname, index, currentRun)), db.ContentOf(Key(tblname, index, 0));
      var tbl := Reply(db, Key(tblname, index, -1));
      assert run == db.ContentOf(Key(tblname, index, currentRun)) && default == db.ContentOf(Key(tblname, index, 0));
      if tbl.Dies? {
        return Died;
      }
      if !tbl.Fields? || !Equivalent(GetFieldType(tbl.fields, field), ftype) {
        tbl := Reply(db, Key(tblname, index, currentRun));
        assert default == db.ContentOf(Key(tblname, index, 0));
        if tbl.Dies? {
          return Died;
        }
        if !tbl.Fields? || !Equivalent(GetFieldType(tbl.fields, field), ftype) {
          tbl := Reply(db, Key(tblname, index, 0));
          if tbl.Dies? {
            return Died;
          }
          if !tbl.Fields? || !Equivalent(GetFieldType(tbl.fields, field), ftype) {
            return NotFoundError;
          }
        }
      }
      r := Get(tbl.fields, field, ftype);
    }
  }

  function FieldsOf(c: Content): Plane {
    if c.Fields? then c.fields else map[]
  }

  /** The planes laid over one another. */
  function Overlay(user: Plane, run: Plane, default: Plane): Plane {
    default + run + user
  }

  /** The fields of a plane that can be seen by a caller asking for ftype. */
  function Seen(fields: Plane, ftype: FieldType): Plane {
    map f | f in fields && Equivalent(TypeOf(fields[f]), ftype) :: fields[f]
  }

  /** Every pick reads the overlay of what the planes show at the type asked for. */
  lemma PickReadsOverlay(user: Content, run: Content, default: Content, field: string, ftype: FieldType)
    requires !user.Dies? && !run.Dies? && !default.Dies? && ftype != NOTFOUND
    ensures PickFrom(user, run, default, field, ftype)
         == Get(Overlay(Seen(FieldsOf(user), ftype), Seen(FieldsOf(run), ftype), Seen(FieldsOf(default), ftype)),
            field, ftype)
  {
    SeenCompatible(user, field, ftype);
    SeenCompatible(run, field, ftype);
    SeenCompatible(default, field, ftype);
    hide Seen, Equivalent;
    var u, r, d := Seen(FieldsOf(user), ftype), Seen(FieldsOf(run), ftype), Seen(FieldsOf(default), ftype);
    var o := Overlay(u, r, d);
    if field in u {
      GetOne(user.fields, o, field, ftype);
    } else if field in r {
      GetOne(run.fields, o, field, ftype);
    } else if field in d {
      GetOne(default.fields, o, field, ftype);
    }
  }

  lemma SeenCompatible(c: Content, field: string, ftype: FieldType)
    requires ftype != NOTFOUND
    ensures Compatible(c, field, ftype) <==> field in Seen(FieldsOf(c), ftype)
    ensures Compatible(c, field, ftype) ==> field in c.fields && Seen(FieldsOf(c), ftype)[field] == c.fields[field]
  {
  }

  /** A getter reads no other field. */
  lemma GetOne(f: Plane, g: Plane, name: string, ftype: FieldType)
    requires name in f && name in g && f[name] == g[name]
    ensures Get(f, name, ftype) == Get(g, name, ftype)
  {
  }

  /** With the field used at one type, the overlay is that of the planes themselves. */
  lemma PickAtOneType(user: Content, run: Content, default: Content, field: string, ftype: FieldType)
    requires !user.Dies? && !run.Dies? && !default.Dies? && ftype != NOTFOUND
    requires forall c :: c in {user, run, default} && field in FieldsOf(c) ==>
               Equivalent(TypeOf(FieldsOf(c)[field]), ftype)
    ensures PickFrom(user, run, default, field, ftype)
            == Get(Overlay(FieldsOf(user), FieldsOf(run), FieldsOf(default)), field, ftype)
  {
    PickReadsOverlay(user, run, default, field, ftype);
    assert user in {user, run, default} && run in {user, run, default} && default in {user, run, default};
    var seen := Overlay(Seen(FieldsOf(user), ftype), Seen(FieldsOf(run), ftype), Seen(FieldsOf(default), ftype));
    var all := Overlay(FieldsOf(user), FieldsOf(run), FieldsOf(default));
    assert field in seen <==> field in all;
    if field in all {
      GetOne(seen, all, field, ftype);
    }
  }

  /** A pick fails to find exactly when no plane has a compatible field. */
  lemma PickNotFound(user: Content, run: Content, default: Content, field: string, ftype: FieldType)
    requires !user.Dies? && !run.Dies? && !default.Dies? && ftype != NOTFOUND
    ensures PickFrom(user, run, default, field, ftype) == NotFoundError
       <==> !Compatible(user, field, ftype) && !Compatible(run, field, ftype) && !Compatible(default, field, ftype)
  {
  }

  /** Plane k is the first that is asked for the field and has it. */
  predicate FirstToShow(planes: seq<Content>, k: nat, field: string, ftype: FieldType) {
    && k < |planes| && Compatible(planes[k], field, ftype)
    && forall j :: 0 <= j < k ==> !planes[j].Dies? && !Compatible(planes[j], field, ftype)
  }

  /** What plane k shows can be read at the type asked for. */
  predicate Shows(planes: seq<Content>, k: nat, field: string, ftype: FieldType) {
    FirstToShow(planes, k, field, ftype) && field in planes[k].fields && Readable(planes[k].fields[field], ftype)
  }

  lemma GetDelivers(c: Content, field: string, ftype: FieldType)
    requires Compatible(c, field, ftype) && ftype != NOTFOUND
    ensures field in c.fields && (Get(c.fields, field, ftype).Picked? <==> Readable(c.fields[field], ftype))
    ensures Get(c.fields, field, ftype) != NotFoundError && Get(c.fields, field, ftype) != Died
  {
  }

  /** A pick delivers exactly if the value of the first plane with an equivalent field can be read. */
  lemma PickDelivers(user: Content, run: Content, default: Content, field: string, ftype: FieldType)
    requires ftype != NOTFOUND
    ensures PickFrom(user, run, default, field, ftype).Picked?
       <==> exists k :: 0 <= k < 3 && Shows([user, run, default], k, field, ftype)
  {
    hide Get, Equivalent, Readable, GetFieldType, Compatible, FirstToShow;
    var planes := [user, run, default];
    FirstOfThree(user, run, default, field, ftype);
    forall k | 0 <= k < 3 && FirstToShow(planes, k, field, ftype)
      ensures Compatible(planes[k], field, ftype) && planes[k].Fields? && field in planes[k].fields
      ensures Get(planes[k].fields, field, ftype).Picked? <==> Readable(planes[k].fields[field], ftype)
    {
      FirstHas(planes, k, field, ftype);
      GetDelivers(planes[k], field, ftype);
    }
    assert planes[0] == user && planes[1] == run && planes[2] == default;
    assert Shows(planes, 0, field, ftype) || Shows(planes, 1, field, ftype) || Shows(planes, 2, field, ftype)
       <==> exists k :: 0 <= k < 3 && Shows(planes, k, field, ftype);
  }

  /** Some plane has the field with an equivalent type. */
  predicate SomePlaneShows(user: Content, run: Content, default: Content, field: string, ftype: FieldType) {
    Compatible(user, field, ftype) || Compatible(run, field, ftype) || Compatible(default, field, ftype)
  }

  /** What plane k shows cannot be read at the type asked for. */
  predicate Hides(planes: seq<Content>, k: nat, field: string, ftype: FieldType) {
    FirstToShow(planes, k, field, ftype) && field in planes[k].fields && !Readable(planes[k].fields[field], ftype)
  }

  /** Which plane is the first of three. */
  lemma FirstOfThree(user: Content, run: Content, default: Content, field: string, ftype: FieldType)
    ensures var planes := [user, run, default];
            && (FirstToShow(planes, 0, field, ftype) <==> Compatible(user, field, ftype))
            && (FirstToShow(planes, 1, field, ftype)
                <==> Compatible(run, field, ftype) && !user.Dies? && !Compatible(user, field, ftype))
            && (FirstToShow(planes, 2, field, ftype)
                <==> Compatible(default, field, ftype) && !user.Dies? && !Compatible(user, field, ftype)
                     && !run.Dies? && !Compatible(run, field, ftype))
  {
    hide Compatible;
    var planes := [user, run, default];
    assert planes[0] == user && planes[1] == run && planes[2] == default;
  }

  /** A pick delivers whenever some plane has an equivalent field, except exactly where the first one hides it. */
  lemma PickFailsExactly(user: Content, run: Content, default: Content, field: string, ftype: FieldType)
    requires !user.Dies? && !run.Dies? && !default.Dies? && ftype != NOTFOUND
    ensures (PickFrom(user, run, default, field, ftype).Picked? <==> SomePlaneShows(user, run, default, field, ftype))
       <==> !exists k :: 0 <= k < 3 && Hides([user, run, default], k, field, ftype)
    ensures PickFrom(user, run, default, field, ftype) == NotFoundError
       <==> !SomePlaneShows(user, run, default, field, ftype)
  {
    PickNotFound(user, run, default, field, ftype);
    hide PickFrom, Readable, Compatible, FirstToShow;
    PickDelivers(user, run, default, field, ftype);
    FirstOfThree(user, run, default, field, ftype);
    var planes := [user, run, default];
    forall k | 0 <= k < 3 && FirstToShow(planes, k, field, ftype)
      ensures Shows(planes, k, field, ftype) <==> !Hides(planes, k, field, ftype)
    {
      FirstHas(planes, k, field, ftype);
    }
    var first := if Compatible(user, field, ftype) then 0 else if Compatible(run, field, ftype) then 1 else 2;
    assert SomePlaneShows(user, run, default, field, ftype) ==> FirstToShow(planes, first, field, ftype);
    forall k | 0 <= k < 3 && FirstToShow(planes, k, field, ftype)
      ensures SomePlaneShows(user, run, default, field, ftype) && k == first
    {
    }
  }

  lemma FirstHas(planes: seq<Content>, k: nat, field: string, ftype: FieldType)
    requires FirstToShow(planes, k, field, ftype) && ftype != NOTFOUND
    ensures k < |planes| && planes[k].Fields? && field in planes[k].fields && Compatible(planes[k], field, ftype)
  {
  }

  /** Field `f` set for the user to a value v that is no integer but hides the integer of the run. */
  lemma NoIntegerHides(v: J.Value)
    requires v in {J.Bool(true), J.Arr([]), J.Null}
    ensures PickFrom(Fields(map["f" := v]), Fields(map["f" := J.Int(3)]), Nothing, "f", INTEGER) == WrongTypeError
  {
  }

  /** An array that begins like an array of integers and is none. */
  lemma MixedArrayHides()
    ensures var mixed := J.Arr([J.Int(1), J.Str("x")]);
            PickFrom(Fields(map["f" := mixed]), Fields(map["f" := J.Arr([J.Int(3)])]), Nothing, "f", INTEGER_ARRAY)
                     == CastError
  {
    var mixed := J.Arr([J.Int(1), J.Str("x")]);
    assert !IntLike(mixed.items[1]);
  }

  function PickIn(local: Tables, server: Server, names: set<string>, name: string, index: string,
                  run: int, field: string, ftype: FieldType): PickResult
  {
    PickFrom(Plain(local, server, names, Key(name, index, -1)), Plain(local, server, names, Key(name, index, run)),
             Plain(local, server, names, Key(name, index, 0)), field, ftype)
  }

  /** Two contents of a plane that a caller asking for the field cannot tell apart. */
  predicate SameSight(c: Content, d: Content, field: string, ftype: FieldType) {
    && (c.Dies? <==> d.Dies?)
    && (Compatible(c, field, ftype) <==> Compatible(d, field, ftype))
    && (Compatible(c, field, ftype) ==> field in c.fields && field in d.fields && c.fields[field] == d.fields[field])
  }

  lemma PickSame(u: Content, r: Content, d: Content, u': Content, r': Content, d': Content, field: string,
                 ftype: FieldType)
    requires SameSight(u, u', field, ftype) && SameSight(r, r', field, ftype) && SameSight(d, d', field, ftype)
    ensures PickFrom(u, r, d, field, ftype) == PickFrom(u', r', d', field, ftype)
  {
    if Compatible(u, field, ftype) {
      GetOne(u.fields, u'.fields, field, ftype);
    } else if Compatible(r, field, ftype) {
      GetOne(r.fields, r'.fields, field, ftype);
    } else if Compatible(d, field, ftype) {
      GetOne(d.fields, d'.fields, field, ftype);
    }
  }

  /** Local tables that agree on a field, as far as a caller can see, give the same picks. */
  lemma PickInSame(l: Tables, m: Tables, server: Server, names: set<string>,
                   name: string, index: string, run: int, field: string, ftype: FieldType)
    requires forall k: Key :: (k.name, k.index) == (name, index) ==>
               SameSight(Plain(l, server, names, k), Plain(m, server, names, k), field, ftype)
    ensures PickIn(l, server, names, name, index, run, field, ftype)
            == PickIn(m, server, names, name, index, run, field, ftype)
  {
    hide Plain, SameSight;
    var ku, kr, kd := Key(name, index, -1), Key(name, index, run), Key(name, index, 0);
    PickSame(Plain(l, server, names, ku), Plain(l, server, names, kr), Plain(l, server, names, kd),
             Plain(m, server, names, ku), Plain(m, server, names, kr), Plain(m, server, names, kd), field, ftype);
  }

  /** A set is seen by the later picks of that field at a type of its value ... */
  lemma SetThenPick(local: Tables, server: Server, names: set<string>, op: Op, run: int, ftype: FieldType)
    requires op.Set? && Proper(server, op) && ftype != NOTFOUND && Equivalent(TypeOf(op.val), ftype)
    ensures PickIn(After(local, op), server, names, op.name, op.index, run, op.field, ftype)
         == Get(map[op.field := op.val], op.field, ftype)
  {
    var id := Key(op.name, op.index, -1);
    GetOne(After(local, op)[id], map[op.field := op.val], op.field, ftype);
  }

  /** ... takes away what was set before of another type ... */
  lemma SetThenPickOther(local: Tables, server: Server, names: set<string>, op: Op, run: int, ftype: FieldType)
    requires op.Set? && Proper(server, op) && ftype != NOTFOUND && !Equivalent(TypeOf(op.val), ftype)
    ensures PickIn(After(local, op), server, names, op.name, op.index, run, op.field, ftype)
         == PickIn(Without(local, Key(op.name, op.index, -1), op.field), server, names, op.name, op.index, run,
            op.field, ftype)
  {
    var without := Without(local, Key(op.name, op.index, -1), op.field);
    PickInSame(After(local, op), without, server, names, op.name, op.index, run, op.field, ftype);
  }

  function Without(local: Tables, id: Key, field: string): Tables {
    if id in local then local[id := local[id] - {field}] else local
  }

  /** ... and changes no pick of another field or table. */
  lemma SetThenPickElsewhere(local: Tables, server: Server, names: set<string>, op: Op,
                             name: string, index: string, run: int, field: string, ftype: FieldType)
    requires op.Set? && Proper(server, op) && ftype != NOTFOUND
    requires (name, index, field) != (op.name, op.index, op.field)
    ensures PickIn(After(local, op), server, names, name, index, run, field, ftype)
         == PickIn(local, server, names, name, index, run, field, ftype)
  {
    PickInSame(After(local, op), local, server, names, name, index, run, field, ftype);
  }
}
