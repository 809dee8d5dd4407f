/**
 What users of RATDB are told, field by field: which plane a pick reads, and what
 it makes of the value found there. Nothing here is said by means of the getters
 of `RatDb`, nor of the functions by which a plain database replies.
 */
module RatDbMeant {
  import J = JsonText
  import opened RatDb
  import opened RatDbRuns

  // ------------------------------------------------------ types and values

  /** Whole numbers and truth values. */
  predicate Integral(v: J.Value) {
    v.Int? || v.UInt? || v.Bool?
  }

  predicate StartsWith(v: J.Value, first: J.Value -> bool) {
    v.Arr? && v.items != [] && first(v.items[0])
  }

  /** The type of a field that holds v; what has no other type is JSON. */
  predicate HasType(v: J.Value, ftype: FieldType) {
    match ftype
    case NOTFOUND => false
    case INTEGER => Integral(v)
    case DOUBLE => v.Real?
    case STRING => v.Str?
    case INTEGER_ARRAY => StartsWith(v, Integral)
    case DOUBLE_ARRAY => StartsWith(v, (x: J.Value) => x.Real?)
    case STRING_ARRAY => StartsWith(v, (x: J.Value) => x.Str?)
    case JSON =>
      !Integral(v) && !v.Real? && !v.Str?
      && !StartsWith(v, (x: J.Value) => Integral(x) || x.Real? || x.Str?)
  }

  lemma TypeMeans(v: J.Value, ftype: FieldType)
    ensures TypeOf(v) == ftype <==> HasType(v, ftype)
  {
  }

  /** A caller asking for ftype is shown v. */
  predicate Accepts(v: J.Value, ftype: FieldType) {
    HasType(v, ftype) || ftype == JSON || HasType(v, JSON)
  }

  lemma AcceptsMeans(v: J.Value, ftype: FieldType)
    requires ftype != NOTFOUND
    ensures Equivalent(TypeOf(v), ftype) <==> Accepts(v, ftype)
  {
    TypeMeans(v, ftype);
    TypeMeans(v, JSON);
    TypeMeans(v, NOTFOUND);
    hide HasType, TypeOf;
    assert !HasType(v, NOTFOUND) by { NothingHasIt(v); }
  }

  lemma NothingHasIt(v: J.Value)
    ensures !HasType(v, NOTFOUND)
  {
  }

  /** A stored number as a C int: the same number, if it is one, and else the one with its bit pattern. */
  predicate AsInteger(v: J.Value, w: J.Value) {
    w.Int? && ((v.Int? && w.i == v.i)
               || (v.UInt? && -0x8000_0000 <= w.i < 0x8000_0000 && (w.i - v.u) % 0x1_0000_0000 == 0))
  }

  predicate Number(v: J.Value) {
    v.Int? || v.UInt? || v.Real?
  }

  /** w is what a caller asking for ftype is given of v. */
  ghost predicate Delivered(v: J.Value, ftype: FieldType, w: J.Value) {
    match ftype
    case NOTFOUND => false
    case INTEGER => AsInteger(v, w)
    case DOUBLE => Number(v) && w == v
    case STRING => v.Str? && w == v
    case INTEGER_ARRAY =>
      && v.Arr? && w.Arr? && |w.items| == |v.items| > 0
      && forall i :: 0 <= i < |v.items| ==> AsInteger(v.items[i], w.items[i])
    case DOUBLE_ARRAY =>
      StartsWith(v, (x: J.Value) => x.Real?) && (forall i :: 0 <= i < |v.items| ==> Number(v.items[i])) && w == v
    case STRING_ARRAY => StartsWith(v, (x: J.Value) => x.Str?) && w == v
    case JSON => w == v
  }

  lemma AsIntMeans(v: J.Value, w: J.Value)
    ensures AsInteger(v, w) <==> IntLike(v) && w == AsInt(v)
  {
  }

  /** The getters give what is to be delivered, and an error if there is no such thing. */
  lemma GetMeans(fields: Plane, field: string, ftype: FieldType, w: J.Value)
    requires field in fields && ftype != NOTFOUND
    ensures Get(fields, field, ftype) == Picked(w) <==> Delivered(fields[field], ftype, w)
  {
    var v := fields[field];
    match ftype
    case INTEGER => AsIntMeans(v, w);
    case INTEGER_ARRAY =>
      TypeMeans(v, ftype);
      hide AsInt, AsInteger, TypeOf;
      if v.Arr? {
        IntegersMean(v.items, if w.Arr? then w.items else []);
      }
    case DOUBLE_ARRAY => TypeMeans(v, ftype);
    case STRING_ARRAY => TypeMeans(v, ftype);
    case _ =>
  }

  lemma IntegersMean(vs: seq<J.Value>, ws: seq<J.Value>)
    ensures (|ws| == |vs| && forall i :: 0 <= i < |vs| ==> AsInteger(vs[i], ws[i]))
       <==> (forall i :: 0 <= i < |vs| ==> IntLike(vs[i]))
            && ws == seq(|vs|, i requires 0 <= i < |vs| && IntLike(vs[i]) => AsInt(vs[i]))
  {
  }

  lemma GetNotPicked(fields: Plane, field: string, ftype: FieldType)
    requires field in fields && ftype != NOTFOUND
    ensures Get(fields, field, ftype) != NotFoundError && Get(fields, field, ftype) != Died
  {
  }

  // ------------------------------------------------------------ three planes

  /** The plane has the field, and the caller is shown it. */
  predicate Shown(c: Content, field: string, ftype: FieldType) {
    c.Fields? && field in c.fields && Accepts(c.fields[field], ftype)
  }

  /** The first of user, run and default plane that shows the field or kills the program. */
  predicate Decides(planes: seq<Content>, k: nat, field: string, ftype: FieldType) {
    && k < |planes| && (planes[k].Dies? || Shown(planes[k], field, ftype))
    && forall j :: 0 <= j < k ==> !planes[j].Dies? && !Shown(planes[j], field, ftype)
  }

  lemma ShownMeans(c: Content, field: string, ftype: FieldType)
    requires ftype != NOTFOUND
    ensures Compatible(c, field, ftype) <==> Shown(c, field, ftype)
  {
    if c.Fields? && field in c.fields {
      AcceptsMeans(c.fields[field], ftype);
    }
  }

  /** A pick gives what the first plane that shows the field has to deliver. */
  lemma PickMeans(user: Content, run: Content, default: Content, field: string, ftype: FieldType, k: nat, w: J.Value)
    requires ftype != NOTFOUND && Decides([user, run, default], k, field, ftype)
    ensures var c, r := [user, run, default][k], PickFrom(user, run, default, field, ftype);
            if c.Dies? then r == Died
            else r != NotFoundError && r != Died && (r == Picked(w) <==> Delivered(c.fields[field], ftype, w))
  {
    ShownMeans(user, field, ftype);
    ShownMeans(run, field, ftype);
    ShownMeans(default, field, ftype);
    var planes := [user, run, default];
    assert planes[0] == user && planes[1] == run && planes[2] == default;
    hide Get, Compatible, Accepts, Delivered;
    if !planes[k].Dies? {
      GetMeans(planes[k].fields, field, ftype, w);
      GetNotPicked(planes[k].fields, field, ftype);
    }
  }

  /** And if no plane decides, the field is not found. */
  lemma PickMisses(user: Content, run: Content, default: Content, field: string, ftype: FieldType)
    requires ftype != NOTFOUND
    requires forall c :: c in {user, run, default} ==> !c.Dies? && !Shown(c, field, ftype)
    ensures PickFrom(user, run, default, field, ftype) == NotFoundError
  {
    ShownMeans(user, field, ftype);
    ShownMeans(run, field, ftype);
    ShownMeans(default, field, ftype);
    assert user in {user, run, default} && run in {user, run, default} && default in {user, run, default};
    hide Get, Compatible, Accepts;
  }

  /** Five in the user plane is picked as five. */
  lemma FiveIsPicked()
    ensures PickFrom(Fields(map["n" := J.Int(5)]), Nothing, Nothing, "n", INTEGER) == Picked(J.Int(5))
  {
    var user := Fields(map["n" := J.Int(5)]);
    PickMeans(user, Nothing, Nothing, "n", INTEGER, 0, J.Int(5));
  }

  // ------------------------------------------------------ the plain database

  /** What is known of a key: the local table, else the server's answer if it knows the name. */
  lemma PlainMeans(local: Tables, server: Server, names: set<string>, k: Key)
    ensures var c := Plain(local, server, names, k);
            && (k in local ==> c == Fields(local[k]))
            && (k !in local && k.name !in names ==> c == Nothing)
            && (k !in local && k.name in names && server(k).NoRow? ==> c == Nothing)
            && (k !in local && k.name in names && server(k).OneRow? ==> c == Fields(server(k).doc.fields))
            && (k !in local && k.name in names && server(k).ManyRows? ==> c == Dies)
  {
  }

  /** A loaded table is the local one for each run of its range; a set changes one field for the user. */
  lemma AfterMeans(local: Tables, op: Op, k: Key)
    ensures op.Load? ==>
              var after, loads := After(local, op), (k.name, k.index) == (op.doc.name, op.doc.index)
                                                     && op.doc.lo <= k.run <= op.doc.hi;
              && (k in after <==> loads || k in local)
              && (k in after ==> after[k] == if loads then op.doc.fields else local[k])
    ensures op.Set? ==>
              var after, sets := After(local, op), k == Key(op.name, op.index, -1);
              && (k in after <==> sets || k in local)
              && (k in after && !sets ==> after[k] == local[k])
              && (sets ==> forall f ::
                    && (f in after[k] <==> f == op.field || (k in local && f in local[k]))
                    && (f in after[k] ==> after[k][f] == if f == op.field then op.val else local[k][f]))
    ensures op.Ask? || op.Grow? ==> After(local, op) == local
  {
  }

  /** The local tables when n operations have been done. */
  function Done(local: Tables, ops: seq<Op>, n: nat): Tables
    requires n <= |ops|
  {
    if n == 0 then local else After(Done(local, ops, n - 1), ops[n - 1])
  }

  /** How many of the first n operations ask. */
  function Asked(ops: seq<Op>, n: nat): nat
    requires n <= |ops|
  {
    if n == 0 then 0 else Asked(ops, n - 1) + if ops[n - 1].Ask? then 1 else 0
  }

  lemma {:induction false} DoneFront(local: Tables, ops: seq<Op>, n: nat)
    requires n < |ops|
    ensures Done(local, ops, n + 1) == Done(After(local, ops[0]), ops[1..], n)
    ensures Asked(ops, n + 1) == Asked(ops[1..], n) + if ops[0].Ask? then 1 else 0
  {
    hide After;
    if n > 0 {
      DoneFront(local, ops, n - 1);
      assert ops[1..][n - 1] == ops[n];
    } else {
      assert Done(local, ops, 1) == After(local, ops[0]);
    }
  }

  /** The first n operations kill the program. */
  ghost predicate DiesBefore(local: Tables, server: Server, names: set<string>, ops: seq<Op>, n: nat)
    requires n <= |ops|
  {
    exists i :: 0 <= i < n && ops[i].Ask? && Plain(Done(local, ops, i), server, names, ops[i].key).Dies?
  }

  /** Each operation that asks, if the program lives until then, is told what is known by then. */
  lemma {:induction false} RepliesMean(local: Tables, server: Server, names: set<string>, ops: seq<Op>, n: nat)
    requires n < |ops| && ops[n].Ask? && !DiesBefore(local, server, names, ops, n)
    ensures var r := PlainReplies(local, server, names, ops);
            Asked(ops, n) < |r| && r[Asked(ops, n)] == Plain(Done(local, ops, n), server, names, ops[n].key)
    decreases n
  {
    hide After, Plain;
    if n > 0 {
      var next, more := After(local, ops[0]), ops[1..];
      assert next == if ops[0].Ask? then local else next by { AfterMeans(local, ops[0], Key("", "", 0)); }
      DoneFront(local, ops, n - 1);
      assert more[n - 1] == ops[n];
      if i :| 0 <= i < n - 1 && more[i].Ask? && Plain(Done(next, more, i), server, names, more[i].key).Dies? {
        DoneFront(local, ops, i);
        assert ops[i + 1] == more[i];
      }
      RepliesMean(next, server, names, more, n - 1);
      if ops[0].Ask? {
        assert Done(local, ops, 0) == local;
      }
    }
  }

  // ---------------------------------------------------------------- settings

  /** A value set is the value picked at its own type. */
  lemma SetIsPicked(local: Tables, server: Server, names: set<string>, op: Op, run: int, ftype: FieldType)
    requires op.Set? && Proper(server, op)
    requires (op.val.Int? && ftype == INTEGER) || (op.val.Real? && ftype == DOUBLE) || (op.val.Str? && ftype == STRING)
    ensures PickIn(After(local, op), server, names, op.name, op.index, run, op.field, ftype) == Picked(op.val)
  {
    var after, k := After(local, op), Key(op.name, op.index, -1);
    AfterMeans(local, op, k);
    PlainMeans(after, server, names, k);
    var user := Plain(after, server, names, k);
    var r := Plain(after, server, names, Key(op.name, op.index, run));
    var d := Plain(after, server, names, Key(op.name, op.index, 0));
    hide Plain, After, PickFrom;
    PickMeans(user, r, d, op.field, ftype, 0, op.val);
  }

  // ------------------------------------------------------------------ the bill

  /** The bytes of the tables fetched, each counted once, under its last run. */
  function BytesOf(gs: seq<Group>, size: map<Key, int>): int {
    if gs == [] then 0
    else
      var last := Key(gs[0].name, gs[0].index, gs[0].hi);
      (if last in size then size[last] else 0) + BytesOf(gs[1..], size)
  }

  /** The queue is billed for each table fetched exactly once, and the limit is 200 million bytes. */
  lemma {:induction false} BillIsBytes(gs: seq<Group>, size: map<Key, int>)
    requires forall g :: g in gs ==> g.lo <= g.hi
    ensures Billed(Flatten(gs), size) == BytesOf(gs, size) && MAX_SERVER_BYTES == 200_000_000
  {
    hide Billed, Entries;
    if gs == [] {
      NothingToBill(size);
    } else {
      assert gs[0] in gs && forall g :: g in gs[1..] ==> g in gs;
      BillIsBytes(gs[1..], size);
      BilledConcat(Entries(gs[0]), Flatten(gs[1..]), size);
      GroupBilled(gs[0], size);
    }
  }

  lemma NothingToBill(size: map<Key, int>)
    ensures Billed([], size) == 0
  {
  }

  lemma GroupBilled(g: Group, size: map<Key, int>)
    requires g.lo <= g.hi
    ensures var last := Key(g.name, g.index, g.hi);
            Billed(Entries(g), size) == if last in size then size[last] else 0
  {
    EntriesBilled(g, size);
    var es := Entries(g);
    var last := [es[|es| - 1]];
    assert last[1..] == [];
    hide Entries;
  }
}
