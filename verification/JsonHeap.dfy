/**
 The memory behind json::Value: structured data live in blocks that all their
 holders share, each with the count of holders beyond the first. Addresses are
 never used twice, so that a block freed stays None.
 */
module JsonHeap {
  import opened Wrappers

  /** What a json::Value holds: a basic value, or a pointer to structured data. */
  datatype Val = Scalar(bits: int) | Ref(at: nat)

  datatype Kind = TString | TObject | TArray

  /** Structured data: `slots` are the Values inside an array or object. */
  datatype Block = Block(refcount: int, kind: Kind, slots: seq<Val>)

  /** A Value in memory: a variable, or a slot of a block. */
  datatype Loc = Var(id: nat) | Slot(block: nat, index: nat)

  const NULL: Val := Scalar(0)

  // ------------------------------------------------------ counting holders

  ghost function One(v: Val, a: nat): nat {
    if v == Ref(a) then 1 else 0
  }

  ghost function Count(vs: seq<Val>, a: nat): nat {
    if vs == [] then 0 else One(vs[0], a) + Count(vs[1..], a)
  }

  ghost function OptCount(o: Option<Val>, a: nat): nat {
    if o.Some? then One(o.value, a) else 0
  }

  ghost function CountVars(vars: seq<Option<Val>>, a: nat): nat {
    if vars == [] then 0 else OptCount(vars[0], a) + CountVars(vars[1..], a)
  }

  ghost function BlockCount(b: Option<Block>, a: nat): nat {
    if b.Some? then Count(b.value.slots, a) else 0
  }

  ghost function CountBlocks(blocks: seq<Option<Block>>, a: nat): nat {
    if blocks == [] then 0 else BlockCount(blocks[0], a) + CountBlocks(blocks[1..], a)
  }

  lemma {:induction false} CountConcat(vs: seq<Val>, ws: seq<Val>, a: nat)
    ensures Count(vs + ws, a) == Count(vs, a) + Count(ws, a)
    decreases |vs|
  {
    if vs == [] {
      assert vs + ws == ws;
    } else {
      CountConcat(vs[1..], ws, a);
      assert (vs + ws)[1..] == vs[1..] + ws;
    }
  }

  lemma {:induction false} CountUpdate(vs: seq<Val>, i: nat, v: Val, a: nat)
    requires i < |vs|
    ensures Count(vs[i := v], a) + One(vs[i], a) == Count(vs, a) + One(v, a)
    decreases i
  {
    if i > 0 {
      CountUpdate(vs[1..], i - 1, v, a);
      assert vs[i := v][1..] == vs[1..][i - 1 := v];
    } else {
      assert vs[0 := v][1..] == vs[1..];
    }
  }

  lemma {:induction false} VarsUpdate(vars: seq<Option<Val>>, i: nat, o: Option<Val>, a: nat)
    requires i < |vars|
    ensures CountVars(vars[i := o], a) + OptCount(vars[i], a) == CountVars(vars, a) + OptCount(o, a)
    decreases i
  {
    if i > 0 {
      VarsUpdate(vars[1..], i - 1, o, a);
      assert vars[i := o][1..] == vars[1..][i - 1 := o];
    } else {
      assert vars[0 := o][1..] == vars[1..];
    }
  }

  lemma {:induction false} VarsAppend(vars: seq<Option<Val>>, o: Option<Val>, a: nat)
    ensures CountVars(vars + [o], a) == CountVars(vars, a) + OptCount(o, a)
  {
    if vars == [] {
      assert vars + [o] == [o];
    } else {
      VarsAppend(vars[1..], o, a);
      assert (vars + [o])[1..] == vars[1..] + [o];
    }
  }

  lemma {:induction false} BlocksUpdate(blocks: seq<Option<Block>>, i: nat, b: Option<Block>, a: nat)
    requires i < |blocks|
    ensures CountBlocks(blocks[i := b], a) + BlockCount(blocks[i], a) == CountBlocks(blocks, a) + BlockCount(b, a)
    decreases i
  {
    if i > 0 {
      BlocksUpdate(blocks[1..], i - 1, b, a);
      assert blocks[i := b][1..] == blocks[1..][i - 1 := b];
    } else {
      assert blocks[0 := b][1..] == blocks[1..];
    }
  }

  lemma {:induction false} BlocksAppend(blocks: seq<Option<Block>>, b: Option<Block>, a: nat)
    ensures CountBlocks(blocks + [b], a) == CountBlocks(blocks, a) + BlockCount(b, a)
  {
    if blocks == [] {
      assert blocks + [b] == [b];
    } else {
      BlocksAppend(blocks[1..], b, a);
      assert (blocks + [b])[1..] == blocks[1..] + [b];
    }
  }

  /** All holders of block a: variables, slots of live blocks, and Values on their way out. */
  ghost function Holders(vars: seq<Option<Val>>, blocks: seq<Option<Block>>, leaving: seq<Val>, a: nat): nat {
    CountVars(vars, a) + CountBlocks(blocks, a) + Count(leaving, a)
  }

  /** Live blocks know their holders; freed ones, and addresses not given out yet, have none. */
  ghost predicate Balanced(vars: seq<Option<Val>>, blocks: seq<Option<Block>>, leaving: seq<Val>) {
    forall a: nat :: Known(blocks, a, Holders(vars, blocks, leaving, a))
  }

  ghost predicate Known(blocks: seq<Option<Block>>, a: nat, holders: nat) {
    if a < |blocks| && blocks[a].Some? then blocks[a].value.refcount >= 0 && blocks[a].value.refcount + 1 == holders
    else holders == 0
  }

  ghost function Live(blocks: seq<Option<Block>>): nat {
    if blocks == [] then 0 else (if blocks[0].Some? then 1 else 0) + Live(blocks[1..])
  }

  lemma {:induction false} LiveUpdate(blocks: seq<Option<Block>>, i: nat, b: Option<Block>)
    requires i < |blocks| && blocks[i].Some?
    ensures Live(blocks[i := b]) == if b.Some? then Live(blocks) else Live(blocks) - 1
    decreases i
  {
    if i > 0 {
      LiveUpdate(blocks[1..], i - 1, b);
      assert blocks[i := b][1..] == blocks[1..][i - 1 := b];
    } else {
      assert blocks[0 := b][1..] == blocks[1..];
    }
  }

  /** Nothing in S leads out of S. */
  ghost predicate Closed(blocks: seq<Option<Block>>, S: set<nat>) {
    forall a, i :: a in S && a < |blocks| && blocks[a].Some? && 0 <= i < |blocks[a].value.slots|
                   && blocks[a].value.slots[i].Ref?
                   ==> blocks[a].value.slots[i].at in S
  }

  /** Block b is not among what v leads to. */
  ghost predicate LeadsElsewhere(blocks: seq<Option<Block>>, v: Val, b: nat) {
    exists S: set<nat> :: Closed(blocks, S) && (v.Ref? ==> v.at in S) && b !in S
  }

  /** `now` is `was` after freeing some blocks in S and counting down others. */
  ghost predicate Shrunk(was: seq<Option<Block>>, now: seq<Option<Block>>, S: set<nat>) {
    && |now| == |was|
    && (forall a :: 0 <= a < |was| && now[a].Some? ==>
          was[a].Some? && now[a].value.slots == was[a].value.slots && now[a].value.kind == was[a].value.kind)
    && (forall a :: 0 <= a < |was| && was[a].Some? && now[a].None? ==> a in S)
  }

  lemma DropScalar(vars: seq<Option<Val>>, blocks: seq<Option<Block>>, leaving: seq<Val>, v: Val)
    requires v.Scalar? && Balanced(vars, blocks, leaving + [v])
    ensures Balanced(vars, blocks, leaving)
  {
    forall a: nat
      ensures Known(blocks, a, Holders(vars, blocks, leaving, a))
    {
      CountConcat(leaving, [v], a);
      assert Known(blocks, a, Holders(vars, blocks, leaving + [v], a));
    }
  }

  /** A holder of a block leaves others behind. */
  lemma DropShared(vars: seq<Option<Val>>, blocks: seq<Option<Block>>, leaving: seq<Val>, at: nat)
    requires Balanced(vars, blocks, leaving + [Ref(at)])
    ensures at < |blocks| && blocks[at].Some? && blocks[at].value.refcount >= 0
    ensures var b := blocks[at].value;
            b.refcount > 0 ==> Balanced(vars, blocks[at := Some(b.(refcount := b.refcount - 1))], leaving)
  {
    var v := Ref(at);
    CountConcat(leaving, [v], at);
    assert Known(blocks, at, Holders(vars, blocks, leaving + [v], at));
    var b := blocks[at].value;
    if b.refcount > 0 {
      var now := blocks[at := Some(b.(refcount := b.refcount - 1))];
      forall a: nat
        ensures Known(now, a, Holders(vars, now, leaving, a))
      {
        CountConcat(leaving, [v], a);
        BlocksUpdate(blocks, at, now[at], a);
        assert Known(blocks, a, Holders(vars, blocks, leaving + [v], a));
      }
    }
  }

  /** The last holder leaves: the block goes, and the Values inside it are next to leave. */
  lemma DropLast(vars: seq<Option<Val>>, blocks: seq<Option<Block>>, leaving: seq<Val>, at: nat)
    requires Balanced(vars, blocks, leaving + [Ref(at)])
    requires at < |blocks| && blocks[at].Some? && blocks[at].value.refcount == 0
    ensures Balanced(vars, blocks[at := None], leaving + blocks[at].value.slots)
  {
    var v, b, now := Ref(at), blocks[at].value, blocks[at := None];
    forall a: nat
      ensures Known(now, a, Holders(vars, now, leaving + b.slots, a))
    {
      CountConcat(leaving, [v], a);
      CountConcat(leaving, b.slots, a);
      BlocksUpdate(blocks, at, None, a);
      assert Known(blocks, a, Holders(vars, blocks, leaving + [v], a));
    }
  }

  /** A new holder enters. */
  lemma Enter(vars: seq<Option<Val>>, blocks: seq<Option<Block>>, leaving: seq<Val>, at: nat)
    requires Balanced(vars, blocks, leaving) && at < |blocks| && blocks[at].Some?
    ensures var b := blocks[at].value;
            Balanced(vars, blocks[at := Some(b.(refcount := b.refcount + 1))], leaving + [Ref(at)])
  {
    var v, b := Ref(at), blocks[at].value;
    var now := blocks[at := Some(b.(refcount := b.refcount + 1))];
    forall a: nat
      ensures Known(now, a, Holders(vars, now, leaving + [v], a))
    {
      CountConcat(leaving, [v], a);
      BlocksUpdate(blocks, at, now[at], a);
      assert Known(blocks, a, Holders(vars, blocks, leaving, a));
    }
  }

  /** The order in which Values leave does not matter. */
  lemma Reorder(vars: seq<Option<Val>>, blocks: seq<Option<Block>>, l1: seq<Val>, l2: seq<Val>)
    requires Balanced(vars, blocks, l1) && forall a: nat :: Count(l1, a) == Count(l2, a)
    ensures Balanced(vars, blocks, l2)
  {
    forall a: nat
      ensures Known(blocks, a, Holders(vars, blocks, l2, a))
    {
      assert Known(blocks, a, Holders(vars, blocks, l1, a));
    }
  }

  lemma ShrunkAgain(b0: seq<Option<Block>>, b1: seq<Option<Block>>, b2: seq<Option<Block>>, S: set<nat>)
    requires Shrunk(b0, b1, S) && Shrunk(b1, b2, S) && Closed(b0, S)
    ensures Shrunk(b0, b2, S) && Closed(b1, S)
  {
  }

  // ------------------------------------------------------------- places

  predicate Inside(vars: seq<Option<Val>>, blocks: seq<Option<Block>>, loc: Loc) {
    match loc
    case Var(id) => id < |vars| && vars[id].Some?
    case Slot(b, i) => b < |blocks| && blocks[b].Some? && i < |blocks[b].value.slots|
  }

  function Get(vars: seq<Option<Val>>, blocks: seq<Option<Block>>, loc: Loc): Val
    requires Inside(vars, blocks, loc)
  {
    match loc
    case Var(id) => vars[id].value
    case Slot(b, i) => blocks[b].value.slots[i]
  }

  /** v is the only holder of its block. */
  predicate Last(blocks: seq<Option<Block>>, v: Val) {
    v.Ref? && v.at < |blocks| && blocks[v.at].Some? && blocks[v.at].value.refcount == 0
  }

  /** What an assignment gives its target: a Value that alone holds its block loses it to itself. */
  function Given(vars: seq<Option<Val>>, blocks: seq<Option<Block>>, dst: Loc, src: Loc): Val
    requires Inside(vars, blocks, dst) && Inside(vars, blocks, src)
  {
    if dst == src && Last(blocks, Get(vars, blocks, dst)) then NULL else Get(vars, blocks, src)
  }

  ghost function GetAll(vars: seq<Option<Val>>, blocks: seq<Option<Block>>, locs: seq<Loc>): (vs: seq<Val>)
    requires forall k :: 0 <= k < |locs| ==> Inside(vars, blocks, locs[k])
    ensures |vs| == |locs| && forall k :: 0 <= k < |locs| ==> vs[k] == Get(vars, blocks, locs[k])
  {
    seq(|locs|, k requires 0 <= k < |locs| => Get(vars, blocks, locs[k]))
  }

  ghost function WrittenVars(vars: seq<Option<Val>>, loc: Loc, v: Val): seq<Option<Val>>
    requires loc.Var? ==> loc.id < |vars|
  {
    if loc.Var? then vars[loc.id := Some(v)] else vars
  }

  ghost function Written(blocks: seq<Option<Block>>, loc: Loc, v: Val): (r: seq<Option<Block>>)
    requires loc.Slot? ==> Inside([], blocks, loc)
    ensures |r| == |blocks|
  {
    match loc
    case Var(_) => blocks
    case Slot(b, i) => var block := blocks[b].value; blocks[b := Some(block.(slots := block.slots[i := v]))]
  }

  /** The same blocks are live, with the same contents. */
  ghost predicate Kept(was: seq<Option<Block>>, now: seq<Option<Block>>) {
    && |now| == |was|
    && forall a :: 0 <= a < |was| ==> (was[a].Some? <==> now[a].Some?)
                                      && (was[a].Some? ==>
                                            now[a].value.slots == was[a].value.slots
                                            && now[a].value.kind == was[a].value.kind)
  }

  /** Only the Value at loc has been given a new content, and some blocks have been freed. */
  ghost predicate Changed(vars0: seq<Option<Val>>, blocks0: seq<Option<Block>>,
                          vars: seq<Option<Val>>, blocks: seq<Option<Block>>, loc: Loc, v: Val)
  {
    && Inside(vars0, blocks0, loc) && Inside(vars, blocks, loc)
    && vars == WrittenVars(vars0, loc, v) && |blocks| == |blocks0|
    && (forall a :: 0 <= a < |blocks| && blocks[a].Some? ==> blocks0[a].Some?)
    && forall a :: 0 <= a < |blocks| && blocks[a].Some? ==>
                     var w := Written(blocks0, loc, v)[a];
                     w.Some? && blocks[a].value.slots == w.value.slots && blocks[a].value.kind == w.value.kind
  }

  /** What v leads to: what every closed set around v holds. */
  ghost function Owned(blocks: seq<Option<Block>>, v: Val): set<nat> {
    set b: nat | 0 <= b < |blocks| && !LeadsElsewhere(blocks, v, b) :: b
  }

  ghost predicate PointersInside(blocks: seq<Option<Block>>) {
    forall a, i :: 0 <= a < |blocks| && blocks[a].Some? && 0 <= i < |blocks[a].value.slots|
                  && blocks[a].value.slots[i].Ref?
      ==> blocks[a].value.slots[i].at < |blocks|
  }

  lemma Escapes(blocks: seq<Option<Block>>, v: Val, a: nat, i: nat)
    requires a < |blocks| && blocks[a].Some? && i < |blocks[a].value.slots| && blocks[a].value.slots[i].Ref?
    ensures LeadsElsewhere(blocks, v, blocks[a].value.slots[i].at) ==> LeadsElsewhere(blocks, v, a)
  {
  }

  lemma OwnedClosed(blocks: seq<Option<Block>>, v: Val, loc: Loc)
    requires PointersInside(blocks)
    requires v.Ref? ==> v.at < |blocks|
    requires loc.Slot? ==> Inside([], blocks, loc)
    ensures Closed(blocks, Owned(blocks, v)) && (v.Ref? ==> v.at in Owned(blocks, v))
    ensures Closed(Written(blocks, loc, NULL), Owned(blocks, v))
  {
    var S := Owned(blocks, v);
    forall a, i | a in S && a < |blocks| && blocks[a].Some? && 0 <= i < |blocks[a].value.slots|
                  && blocks[a].value.slots[i].Ref?
      ensures blocks[a].value.slots[i].at in S
    {
      Escapes(blocks, v, a, i);
    }
    assert Closed(blocks, S);
    assert v.Ref? ==> !LeadsElsewhere(blocks, v, v.at);
    var w := Written(blocks, loc, NULL);
    forall a, i | a in S && a < |w| && w[a].Some? && 0 <= i < |w[a].value.slots| && w[a].value.slots[i].Ref?
      ensures w[a].value.slots[i].at in S
    {
      assert w[a].value.slots[i] == blocks[a].value.slots[i];
    }
  }

  /** Pointers point to live blocks. */
  lemma {:induction false} CountPositive(vs: seq<Val>, i: nat)
    requires i < |vs| && vs[i].Ref?
    ensures Count(vs, vs[i].at) > 0
  {
    if i > 0 {
      CountPositive(vs[1..], i - 1);
    }
  }

  lemma HeldIsLive(vars: seq<Option<Val>>, blocks: seq<Option<Block>>, leaving: seq<Val>, loc: Loc)
    requires Balanced(vars, blocks, leaving) && Inside(vars, blocks, loc)
    ensures var v := Get(vars, blocks, loc); v.Ref? ==> v.at < |blocks| && blocks[v.at].Some?
  {
    var v := Get(vars, blocks, loc);
    if v.Ref? {
      HolderCounts(vars, blocks, loc, v.at);
      assert Known(blocks, v.at, Holders(vars, blocks, leaving, v.at));
    }
  }

  lemma PointersLive(vars: seq<Option<Val>>, blocks: seq<Option<Block>>, leaving: seq<Val>)
    requires Balanced(vars, blocks, leaving)
    ensures PointersInside(blocks)
    ensures forall i :: 0 <= i < |leaving| && leaving[i].Ref? ==> leaving[i].at < |blocks|
  {
    forall a, i | 0 <= a < |blocks| && blocks[a].Some? && 0 <= i < |blocks[a].value.slots|
                  && blocks[a].value.slots[i].Ref?
      ensures blocks[a].value.slots[i].at < |blocks|
    {
      HeldIsLive(vars, blocks, leaving, Slot(a, i));
    }
    forall i | 0 <= i < |leaving| && leaving[i].Ref?
      ensures leaving[i].at < |blocks|
    {
      CountPositive(leaving, i);
      assert Known(blocks, leaving[i].at, Holders(vars, blocks, leaving, leaving[i].at));
    }
  }

  lemma EnterScalar(vars: seq<Option<Val>>, blocks: seq<Option<Block>>, leaving: seq<Val>, v: Val)
    requires v.Scalar? && Balanced(vars, blocks, leaving)
    ensures Balanced(vars, blocks, leaving + [v])
  {
    forall a: nat
      ensures Known(blocks, a, Holders(vars, blocks, leaving + [v], a))
    {
      CountConcat(leaving, [v], a);
      assert Known(blocks, a, Holders(vars, blocks, leaving, a));
    }
  }

  /** A loose Value becomes a variable, and back. */
  lemma Settle(vars: seq<Option<Val>>, blocks: seq<Option<Block>>, leaving: seq<Val>, v: Val)
    requires Balanced(vars, blocks, leaving + [v])
    ensures Balanced(vars + [Some(v)], blocks, leaving)
  {
    forall a: nat
      ensures Known(blocks, a, Holders(vars + [Some(v)], blocks, leaving, a))
    {
      CountConcat(leaving, [v], a);
      VarsAppend(vars, Some(v), a);
      assert Known(blocks, a, Holders(vars, blocks, leaving + [v], a));
    }
  }

  lemma RemoveVar(vars: seq<Option<Val>>, blocks: seq<Option<Block>>, id: nat)
    requires Balanced(vars, blocks, []) && id < |vars| && vars[id].Some?
    ensures Balanced(vars[id := None], blocks, [] + [vars[id].value])
  {
    var v, now := vars[id].value, vars[id := None];
    forall a: nat
      ensures Known(blocks, a, Holders(now, blocks, [] + [v], a))
    {
      VarsUpdate(vars, id, None, a);
      assert Known(blocks, a, Holders(vars, blocks, [], a));
      assert [] + [v] == [v] && [v][1..] == [];
    }
  }

  lemma AddVar(vars: seq<Option<Val>>, blocks: seq<Option<Block>>, v: Val)
    requires v.Scalar? && Balanced(vars, blocks, [])
    ensures Balanced(vars + [Some(v)], blocks, [])
  {
    EnterScalar(vars, blocks, [], v);
    Settle(vars, blocks, [], v);
  }

  /** Loose Values become the slots of a new block, which has one loose holder. */
  lemma AddBlock(vars: seq<Option<Val>>, blocks: seq<Option<Block>>, slots: seq<Val>, kind: Kind)
    requires Balanced(vars, blocks, slots)
    ensures Balanced(vars, blocks + [Some(Block(0, kind, slots))], [] + [Ref(|blocks|)])
  {
    var v, now := Ref(|blocks|), blocks + [Some(Block(0, kind, slots))];
    forall a: nat
      ensures Known(now, a, Holders(vars, now, [] + [v], a))
    {
      BlocksAppend(blocks, now[|blocks|], a);
      assert [] + [v] == [v] && [v][1..] == [];
      assert Count([v], a) == One(v, a);
      assert Known(blocks, a, Holders(vars, blocks, slots, a));
    }
  }

  lemma PutOut(vars: seq<Option<Val>>, blocks: seq<Option<Block>>, loc: Loc)
    requires Balanced(vars, blocks, []) && Inside(vars, blocks, loc)
    ensures Balanced(WrittenVars(vars, loc, NULL), Written(blocks, loc, NULL), [] + [Get(vars, blocks, loc)])
  {
    var v, w, b := Get(vars, blocks, loc), WrittenVars(vars, loc, NULL), Written(blocks, loc, NULL);
    forall a: nat
      ensures Known(b, a, Holders(w, b, [] + [v], a))
    {
      Moved(vars, blocks, loc, NULL, a);
      assert [] + [v] == [v] && [v][1..] == [];
      assert Known(blocks, a, Holders(vars, blocks, [], a));
    }
  }

  lemma PutIn(vars: seq<Option<Val>>, blocks: seq<Option<Block>>, loc: Loc, v: Val)
    requires Balanced(vars, blocks, [] + [v]) && Inside(vars, blocks, loc) && Get(vars, blocks, loc) == NULL
    ensures Balanced(WrittenVars(vars, loc, v), Written(blocks, loc, v), [])
  {
    var w, b := WrittenVars(vars, loc, v), Written(blocks, loc, v);
    forall a: nat
      ensures Known(b, a, Holders(w, b, [], a))
    {
      Moved(vars, blocks, loc, v, a);
      assert [] + [v] == [v] && [v][1..] == [];
      assert Known(blocks, a, Holders(vars, blocks, [] + [v], a));
    }
  }

  lemma Moved(vars: seq<Option<Val>>, blocks: seq<Option<Block>>, loc: Loc, v: Val, a: nat)
    requires Inside(vars, blocks, loc)
    ensures CountVars(WrittenVars(vars, loc, v), a) + CountBlocks(Written(blocks, loc, v), a)
            + One(Get(vars, blocks, loc), a)
         == CountVars(vars, a) + CountBlocks(blocks, a) + One(v, a)
  {
    match loc
    case Var(id) => VarsUpdate(vars, id, Some(v), a);
    case Slot(b, i) =>
      CountUpdate(blocks[b].value.slots, i, v, a);
      BlocksUpdate(blocks, b, Written(blocks, loc, v)[b], a);
  }

  // ------------------------------------------------------- acyclic values

  /** Every pointer goes to a block of lower rank. */
  ghost predicate Ranked(blocks: seq<Option<Block>>, rank: seq<nat>) {
    && |rank| == |blocks|
    && forall a, i :: 0 <= a < |blocks| && blocks[a].Some? && 0 <= i < |blocks[a].value.slots|
                      && blocks[a].value.slots[i].Ref?
                      ==> blocks[a].value.slots[i].at < |blocks| && rank[blocks[a].value.slots[i].at] < rank[a]
  }

  /** No structured value contains itself. */
  ghost predicate Acyclic(blocks: seq<Option<Block>>) {
    exists rank: seq<nat> :: Ranked(blocks, rank)
  }

  /** In an acyclic heap no Value leads back to the block it lies in. */
  lemma AcyclicLeadsElsewhere(vars: seq<Option<Val>>, blocks: seq<Option<Block>>, loc: Loc)
    requires Acyclic(blocks) && Inside(vars, blocks, loc) && loc.Slot?
    ensures LeadsElsewhere(blocks, Get(vars, blocks, loc), loc.block)
  {
    var rank: seq<nat> :| Ranked(blocks, rank);
    var S := set b: nat | 0 <= b < |blocks| && rank[b] < rank[loc.block] :: b;
    assert Closed(blocks, S) && loc.block !in S;
  }

  /** Freeing blocks and changing counts keeps a heap acyclic. */
  lemma FewerAcyclic(was: seq<Option<Block>>, now: seq<Option<Block>>)
    requires Acyclic(was) && |now| == |was|
    requires forall a :: 0 <= a < |was| && now[a].Some? ==> was[a].Some? && now[a].value.slots == was[a].value.slots
    ensures Acyclic(now)
  {
    var rank: seq<nat> :| Ranked(was, rank);
    assert Ranked(now, rank);
  }

  ghost function Above(rank: seq<nat>): (m: nat)
    ensures forall a :: 0 <= a < |rank| ==> rank[a] < m
  {
    if rank == [] then 0
    else
      var m := Above(rank[1..]);
      assert forall a :: 1 <= a < |rank| ==> rank[a] == rank[1..][a - 1];
      if m > rank[0] then m else rank[0] + 1
  }

  /** A new block, pointing only to older ones, closes no cycle. */
  lemma NewBlockAcyclic(blocks: seq<Option<Block>>, b: Block)
    requires Acyclic(blocks)
    requires forall i :: 0 <= i < |b.slots| && b.slots[i].Ref? ==> b.slots[i].at < |blocks|
    ensures Acyclic(blocks + [Some(b)])
  {
    var rank: seq<nat> :| Ranked(blocks, rank);
    assert Ranked(blocks + [Some(b)], rank + [Above(rank)]);
  }

  /** Writing v into a slot of a block that v does not lead to closes no cycle. */
  lemma WrittenAcyclic(vars: seq<Option<Val>>, blocks: seq<Option<Block>>, loc: Loc, v: Val)
    requires Acyclic(blocks) && Inside(vars, blocks, loc) && (v.Ref? ==> v.at < |blocks|)
    requires loc.Slot? ==> LeadsElsewhere(blocks, v, loc.block)
    ensures Acyclic(Written(blocks, loc, v))
  {
    if loc.Slot? {
      var rank: seq<nat> :| Ranked(blocks, rank);
      var S: set<nat> :| Closed(blocks, S) && (v.Ref? ==> v.at in S) && loc.block !in S;
      var m := Above(rank);
      var rank' := seq(|rank|, a requires 0 <= a < |rank| => if a in S then rank[a] else rank[a] + m);
      assert Ranked(Written(blocks, loc, v), rank');
    }
  }

  /** Nor does making a new empty block and writing it into a slot. */
  lemma FreshBlockAcyclic(vars: seq<Option<Val>>, blocks: seq<Option<Block>>, loc: Loc, kind: Kind)
    requires Acyclic(blocks) && Inside(vars, blocks, loc)
    ensures Acyclic(Written(blocks + [Some(Block(0, kind, []))], loc, Ref(|blocks|)))
  {
    var more := blocks + [Some(Block(0, kind, []))];
    NewBlockAcyclic(blocks, Block(0, kind, []));
    assert Closed(more, {|blocks|});
    WrittenAcyclic(vars, more, loc, Ref(|blocks|));
  }

  lemma {:induction false} HolderSlot(slots: seq<Val>, a: nat) returns (i: nat)
    requires Count(slots, a) > 0
    ensures i < |slots| && slots[i] == Ref(a)
  {
    if slots[0] == Ref(a) {
      i := 0;
    } else {
      i := HolderSlot(slots[1..], a);
      i := i + 1;
    }
  }

  lemma {:induction false} HolderBlock(blocks: seq<Option<Block>>, a: nat) returns (b: nat)
    requires CountBlocks(blocks, a) > 0
    ensures b < |blocks| && blocks[b].Some? && Count(blocks[b].value.slots, a) > 0
  {
    if BlockCount(blocks[0], a) > 0 {
      b := 0;
    } else {
      b := HolderBlock(blocks[1..], a);
      b := b + 1;
    }
  }

  lemma {:induction false} HolderVar(vars: seq<Option<Val>>, a: nat) returns (id: nat)
    requires CountVars(vars, a) > 0
    ensures id < |vars| && vars[id] == Some(Ref(a))
  {
    if vars[0] == Some(Ref(a)) {
      id := 0;
    } else {
      id := HolderVar(vars[1..], a);
      id := id + 1;
    }
  }

  // ---------------------------------------------------- what is held, and how

  /** The place, not being one of those to avoid, holds block b. */
  ghost predicate Holds(vars: seq<Option<Val>>, blocks: seq<Option<Block>>, avoid: set<Loc>, loc: Loc, b: nat) {
    loc !in avoid && Inside(vars, blocks, loc) && Get(vars, blocks, loc) == Ref(b)
  }

  /** Each block of T is held by a variable or from inside T. */
  ghost predicate SelfHeld(vars: seq<Option<Val>>, blocks: seq<Option<Block>>, avoid: set<Loc>, T: set<nat>) {
    forall b :: b in T ==> exists loc :: Holds(vars, blocks, avoid, loc, b) && (loc.Slot? ==> loc.block in T)
  }

  /** Block b is held without the places to avoid. */
  ghost predicate Held(vars: seq<Option<Val>>, blocks: seq<Option<Block>>, avoid: set<Loc>, b: nat) {
    exists T: set<nat> :: b in T && SelfHeld(vars, blocks, avoid, T)
  }

  /** A path of places from a variable to block b. */
  ghost predicate Path(vars: seq<Option<Val>>, blocks: seq<Option<Block>>, avoid: set<Loc>, path: seq<Loc>, b: nat)
    decreases |path|
  {
    && path != []
    && var k := |path| - 1;
       && Holds(vars, blocks, avoid, path[k], b)
       && if k == 0 then path[k].Var? else path[k].Slot? && Path(vars, blocks, avoid, path[..k], path[k].block)
  }

  ghost predicate Reached(vars: seq<Option<Val>>, blocks: seq<Option<Block>>, avoid: set<Loc>, b: nat) {
    exists path: seq<Loc> :: Path(vars, blocks, avoid, path, b)
  }

  lemma HolderIsLive(vars: seq<Option<Val>>, blocks: seq<Option<Block>>, leaving: seq<Val>, avoid: set<Loc>,
                     loc: Loc, b: nat)
    requires Balanced(vars, blocks, leaving) && Holds(vars, blocks, avoid, loc, b)
    ensures b < |blocks| && blocks[b].Some?
  {
    HeldIsLive(vars, blocks, leaving, loc);
  }

  /** A live block has a holder. */
  lemma Holder(vars: seq<Option<Val>>, blocks: seq<Option<Block>>, a: nat) returns (loc: Loc)
    requires Balanced(vars, blocks, []) && a < |blocks| && blocks[a].Some?
    ensures Holds(vars, blocks, {}, loc, a)
  {
    assert Known(blocks, a, Holders(vars, blocks, [], a));
    loc := CountedHolder(vars, blocks, a);
  }

  lemma CountedHolder(vars: seq<Option<Val>>, blocks: seq<Option<Block>>, a: nat) returns (loc: Loc)
    requires CountVars(vars, a) + CountBlocks(blocks, a) > 0
    ensures Holds(vars, blocks, {}, loc, a)
  {
    if CountVars(vars, a) > 0 {
      var id := HolderVar(vars, a);
      loc := Var(id);
    } else {
      var b := HolderBlock(blocks, a);
      var i := HolderSlot(blocks[b].value.slots, a);
      loc := Slot(b, i);
    }
  }

  lemma HolderCounts(vars: seq<Option<Val>>, blocks: seq<Option<Block>>, loc: Loc, a: nat)
    requires Holds(vars, blocks, {}, loc, a)
    ensures CountVars(vars, a) + CountBlocks(blocks, a) > 0
  {
    match loc
    case Var(id) => VarsUpdate(vars, id, None, a);
    case Slot(b, i) =>
      CountPositive(blocks[b].value.slots, i);
      BlocksUpdate(blocks, b, None, a);
  }

  /** All live blocks. */
  ghost function LiveBlocks(blocks: seq<Option<Block>>): set<nat> {
    set a: nat | a < |blocks| && blocks[a].Some? :: a
  }

  lemma LiveSelfHeld(vars: seq<Option<Val>>, blocks: seq<Option<Block>>)
    requires Balanced(vars, blocks, [])
    ensures SelfHeld(vars, blocks, {}, LiveBlocks(blocks))
  {
    forall b | b in LiveBlocks(blocks)
      ensures exists loc :: Holds(vars, blocks, {}, loc, b) && (loc.Slot? ==> loc.block in LiveBlocks(blocks))
    {
      var loc := Holder(vars, blocks, b);
    }
  }

  /** In an acyclic heap what a set of blocks holds is held from a variable. */
  lemma {:induction false} HeldPath(vars: seq<Option<Val>>, blocks: seq<Option<Block>>, avoid: set<Loc>, T: set<nat>,
                                    rank: seq<nat>, b: nat)
    returns (path: seq<Loc>)
    requires Ranked(blocks, rank) && SelfHeld(vars, blocks, avoid, T) && b in T && b < |blocks|
    ensures Path(vars, blocks, avoid, path, b)
    decreases Above(rank) - rank[b]
  {
    var loc :| Holds(vars, blocks, avoid, loc, b) && (loc.Slot? ==> loc.block in T);
    path := [loc];
    if loc.Slot? {
      var front := HeldPath(vars, blocks, avoid, T, rank, loc.block);
      path := front + [loc];
      assert path[..|front|] == front;
    }
  }

  /** The blocks that paths lead to are held. */
  lemma ReachedHeld(vars: seq<Option<Val>>, blocks: seq<Option<Block>>, avoid: set<Loc>, b: nat)
    requires Balanced(vars, blocks, []) && Reached(vars, blocks, avoid, b)
    ensures b < |blocks| && blocks[b].Some? && Held(vars, blocks, avoid, b)
  {
    var T := set a: nat | a < |blocks| && Reached(vars, blocks, avoid, a) :: a;
    forall a: nat | Reached(vars, blocks, avoid, a)
      ensures a < |blocks| && blocks[a].Some?
      ensures exists loc :: Holds(vars, blocks, avoid, loc, a) && (loc.Slot? ==> loc.block in T)
    {
      var path: seq<Loc> :| Path(vars, blocks, avoid, path, a);
      var k := |path| - 1;
      HolderIsLive(vars, blocks, [], avoid, path[k], a);
      if k > 0 {
        assert Path(vars, blocks, avoid, path[..k], path[k].block);
        assert Reached(vars, blocks, avoid, path[k].block);
      }
    }
    assert SelfHeld(vars, blocks, avoid, T);
  }

  /** In an acyclic heap a block is held without some places exactly if a path without them leads to it. */
  lemma HeldByPath(vars: seq<Option<Val>>, blocks: seq<Option<Block>>, avoid: set<Loc>, b: nat)
    requires Balanced(vars, blocks, []) && Acyclic(blocks)
    ensures Held(vars, blocks, avoid, b) <==> Reached(vars, blocks, avoid, b)
  {
    if Reached(vars, blocks, avoid, b) {
      ReachedHeld(vars, blocks, avoid, b);
    }
    if T: set<nat> :| b in T && SelfHeld(vars, blocks, avoid, T) {
      var loc :| Holds(vars, blocks, avoid, loc, b) && (loc.Slot? ==> loc.block in T);
      HolderIsLive(vars, blocks, [], avoid, loc, b);
      var rank: seq<nat> :| Ranked(blocks, rank);
      var path := HeldPath(vars, blocks, avoid, T, rank, b);
    }
  }

  /** Nothing leaks and nothing dangles: in an acyclic heap the live blocks are those that paths lead to. */
  lemma LiveIsReached(vars: seq<Option<Val>>, blocks: seq<Option<Block>>, a: nat)
    requires Balanced(vars, blocks, []) && Acyclic(blocks)
    ensures a < |blocks| && blocks[a].Some? <==> Reached(vars, blocks, {}, a)
  {
    if Reached(vars, blocks, {}, a) {
      ReachedHeld(vars, blocks, {}, a);
    }
    if a in LiveBlocks(blocks) {
      LiveSelfHeld(vars, blocks);
      HeldByPath(vars, blocks, {}, a);
    }
  }

  /** When no variable holds structured data any more, an acyclic heap is empty. */
  lemma NothingLeaks(vars: seq<Option<Val>>, blocks: seq<Option<Block>>, a: nat)
    requires Balanced(vars, blocks, []) && Acyclic(blocks)
    requires forall id :: 0 <= id < |vars| && vars[id].Some? ==> vars[id].value.Scalar?
    requires a < |blocks|
    ensures blocks[a].None?
  {
    LiveIsReached(vars, blocks, a);
    if path: seq<Loc> :| Path(vars, blocks, {}, path, a) {
      NoPath(vars, blocks, path, a);
    }
  }

  lemma {:induction false} NoPath(vars: seq<Option<Val>>, blocks: seq<Option<Block>>, path: seq<Loc>, b: nat)
    requires forall id :: 0 <= id < |vars| && vars[id].Some? ==> vars[id].value.Scalar?
    ensures !Path(vars, blocks, {}, path, b)
    decreases |path|
  {
    if |path| > 1 && path[|path| - 1].Slot? {
      NoPath(vars, blocks, path[..|path| - 1], path[|path| - 1].block);
    }
  }

  // ------------------------------------------------ what a release leaves alive

  /** The place is there when the Value in `gone` has been released. */
  ghost predicate Stays(vars: seq<Option<Val>>, blocks: seq<Option<Block>>, gone: Loc, loc: Loc) {
    loc.Slot? ==> Held(vars, blocks, {gone}, loc.block)
  }

  lemma NothingHeld(vars: seq<Option<Val>>, blocks: seq<Option<Block>>)
    ensures SelfHeld(vars, blocks, {}, {})
  {
  }

  lemma HeldIn(vars: seq<Option<Val>>, blocks: seq<Option<Block>>, avoid: set<Loc>, T: set<nat>, b: nat)
    requires b in T && SelfHeld(vars, blocks, avoid, T)
    ensures Held(vars, blocks, avoid, b)
  {
  }

  /** All that is held without the places to avoid. */
  ghost function AllHeld(vars: seq<Option<Val>>, blocks: seq<Option<Block>>, avoid: set<Loc>): set<nat> {
    set b: nat | b < |blocks| && Held(vars, blocks, avoid, b) :: b
  }

  lemma AllSelfHeld(vars: seq<Option<Val>>, blocks: seq<Option<Block>>, avoid: set<Loc>)
    requires Balanced(vars, blocks, [])
    ensures SelfHeld(vars, blocks, avoid, AllHeld(vars, blocks, avoid))
    ensures forall b: nat :: Held(vars, blocks, avoid, b) ==> b in AllHeld(vars, blocks, avoid)
  {
    var all := AllHeld(vars, blocks, avoid);
    forall b: nat | Held(vars, blocks, avoid, b)
      ensures b < |blocks| && exists loc :: Holds(vars, blocks, avoid, loc, b) && (loc.Slot? ==> loc.block in all)
    {
      var T: set<nat> :| b in T && SelfHeld(vars, blocks, avoid, T);
      var loc :| Holds(vars, blocks, avoid, loc, b) && (loc.Slot? ==> loc.block in T);
      HolderIsLive(vars, blocks, [], avoid, loc, b);
      if loc.Slot? {
        assert Held(vars, blocks, avoid, loc.block);
      }
    }
  }

  /** What is held without a place is held when the place has been emptied. */
  lemma EmptiedHeld(vars: seq<Option<Val>>, blocks: seq<Option<Block>>, loc: Loc, T: set<nat>)
    requires Inside(vars, blocks, loc) && SelfHeld(vars, blocks, {loc}, T)
    ensures SelfHeld(WrittenVars(vars, loc, NULL), Written(blocks, loc, NULL), {}, T)
  {
    var w, bs := WrittenVars(vars, loc, NULL), Written(blocks, loc, NULL);
    forall b | b in T
      ensures exists h :: Holds(w, bs, {}, h, b) && (h.Slot? ==> h.block in T)
    {
      var h :| Holds(vars, blocks, {loc}, h, b) && (h.Slot? ==> h.block in T);
      assert Holds(w, bs, {}, h, b);
    }
  }

  /** And what is alive after the release was held without it. */
  lemma AliveHeld(vars: seq<Option<Val>>, blocks: seq<Option<Block>>, loc: Loc, now: seq<Option<Block>>, S: set<nat>)
    requires Inside(vars, blocks, loc) && Shrunk(Written(blocks, loc, NULL), now, S)
    requires Balanced(WrittenVars(vars, loc, NULL), now, [])
    ensures SelfHeld(vars, blocks, {loc}, LiveBlocks(now))
  {
    var w, T := WrittenVars(vars, loc, NULL), LiveBlocks(now);
    forall b | b in T
      ensures exists h :: Holds(vars, blocks, {loc}, h, b) && (h.Slot? ==> h.block in T)
    {
      var h := Holder(w, now, b);
      assert Holds(vars, blocks, {loc}, h, b);
    }
  }

  /** A block that only leaving Values hold is in no set that holds itself. */
  lemma LastHolder(vars: seq<Option<Val>>, blocks: seq<Option<Block>>, leaving: seq<Val>, at: nat, loc: Loc)
    requires Balanced(vars, blocks, leaving + [Ref(at)])
    requires at < |blocks| && blocks[at].Some? && blocks[at].value.refcount == 0
    ensures !Holds(vars, blocks, {}, loc, at)
  {
    assert Known(blocks, at, Holders(vars, blocks, leaving + [Ref(at)], at));
    CountConcat(leaving, [Ref(at)], at);
    if Holds(vars, blocks, {}, loc, at) {
      HolderCounts(vars, blocks, loc, at);
    }
  }

  lemma FreedHeld(vars: seq<Option<Val>>, blocks: seq<Option<Block>>, leaving: seq<Val>, at: nat, T: set<nat>)
    requires Balanced(vars, blocks, leaving + [Ref(at)]) && SelfHeld(vars, blocks, {}, T)
    requires at < |blocks| && blocks[at].Some? && blocks[at].value.refcount == 0
    ensures SelfHeld(vars, blocks[at := None], {}, T)
  {
    var now := blocks[at := None];
    if at in T {
      var loc :| Holds(vars, blocks, {}, loc, at);
      LastHolder(vars, blocks, leaving, at, loc);
    }
    forall b | b in T
      ensures exists loc :: Holds(vars, now, {}, loc, b) && (loc.Slot? ==> loc.block in T)
    {
      var loc :| Holds(vars, blocks, {}, loc, b) && (loc.Slot? ==> loc.block in T);
      assert Holds(vars, now, {}, loc, b);
    }
  }

  lemma KeptHeld(vars: seq<Option<Val>>, was: seq<Option<Block>>, now: seq<Option<Block>>, T: set<nat>)
    requires Kept(was, now) && SelfHeld(vars, was, {}, T)
    ensures SelfHeld(vars, now, {}, T)
  {
    forall b | b in T
      ensures exists loc :: Holds(vars, now, {}, loc, b) && (loc.Slot? ==> loc.block in T)
    {
      var loc :| Holds(vars, was, {}, loc, b) && (loc.Slot? ==> loc.block in T);
      assert Holds(vars, now, {}, loc, b);
    }
  }

  lemma SelfHeldLive(vars: seq<Option<Val>>, blocks: seq<Option<Block>>, T: set<nat>, b: nat)
    requires Balanced(vars, blocks, []) && SelfHeld(vars, blocks, {}, T) && b in T
    ensures b < |blocks| && blocks[b].Some?
  {
    var loc :| Holds(vars, blocks, {}, loc, b);
    HeldIsLive(vars, blocks, [], loc);
  }

  /** A live block that the Value of a place does not lead to is held without the place. */
  lemma ElsewhereHeld(vars: seq<Option<Val>>, blocks: seq<Option<Block>>, loc: Loc, b: nat)
    requires Balanced(vars, blocks, []) && Inside(vars, blocks, loc) && b < |blocks| && blocks[b].Some?
    requires LeadsElsewhere(blocks, Get(vars, blocks, loc), b)
    ensures Held(vars, blocks, {loc}, b)
  {
    var v := Get(vars, blocks, loc);
    var S: set<nat> :| Closed(blocks, S) && (v.Ref? ==> v.at in S) && b !in S;
    var T := LiveBlocks(blocks) - S;
    forall a | a in T
      ensures exists h :: Holds(vars, blocks, {loc}, h, a) && (h.Slot? ==> h.block in T)
    {
      var h := Holder(vars, blocks, a);
      assert Holds(vars, blocks, {loc}, h, a);
    }
    assert SelfHeld(vars, blocks, {loc}, T);
  }

  /** In an acyclic heap a place is always there when its own Value has been released. */
  lemma AcyclicStays(vars: seq<Option<Val>>, blocks: seq<Option<Block>>, loc: Loc)
    requires Balanced(vars, blocks, []) && Acyclic(blocks) && Inside(vars, blocks, loc)
    ensures Stays(vars, blocks, loc, loc)
  {
    if loc.Slot? {
      AcyclicLeadsElsewhere(vars, blocks, loc);
      ElsewhereHeld(vars, blocks, loc, loc.block);
    }
  }

  /** In an acyclic heap an assignment is defined exactly if a path without the target leads to the source. */
  lemma AssignDefined(vars: seq<Option<Val>>, blocks: seq<Option<Block>>, dst: Loc, src: Loc)
    requires Balanced(vars, blocks, []) && Acyclic(blocks)
    requires Inside(vars, blocks, dst) && Inside(vars, blocks, src)
    ensures Stays(vars, blocks, dst, dst) && Stays(vars, blocks, dst, src)
       <==> src.Var? || Reached(vars, blocks, {dst}, src.block)
  {
    hide Held, Reached, Balanced, Acyclic;
    AcyclicStays(vars, blocks, dst);
    if src.Slot? {
      HeldByPath(vars, blocks, {dst}, src.block);
    }
  }

  /** How many hold a block besides the place that holds it. */
  lemma OthersHold(vars: seq<Option<Val>>, blocks: seq<Option<Block>>, dst: Loc, b: nat) returns (other: Loc)
    requires Balanced(vars, blocks, []) && Holds(vars, blocks, {}, dst, b)
    ensures b < |blocks| && blocks[b].Some? && blocks[b].value.refcount >= 0
    ensures blocks[b].value.refcount > 0 ==> Holds(vars, blocks, {dst}, other, b)
    ensures blocks[b].value.refcount == 0 ==> forall loc :: !Holds(vars, blocks, {dst}, loc, b)
  {
    HeldIsLive(vars, blocks, [], dst);
    assert Known(blocks, b, Holders(vars, blocks, [], b));
    var w, bs := WrittenVars(vars, dst, NULL), Written(blocks, dst, NULL);
    Moved(vars, blocks, dst, NULL, b);
    other := dst;
    if blocks[b].value.refcount > 0 {
      other := CountedHolder(w, bs, b);
      assert Holds(vars, blocks, {dst}, other, b);
    } else {
      forall loc
        ensures !Holds(vars, blocks, {dst}, loc, b)
      {
        if Holds(vars, blocks, {dst}, loc, b) {
          assert Holds(w, bs, {}, loc, b);
          HolderCounts(w, bs, loc, b);
        }
      }
    }
  }

  /** An element of a shared array or object may be assigned to one that holds it, of one held once it may not. */
  lemma ElementAssigned(vars: seq<Option<Val>>, blocks: seq<Option<Block>>, dst: Loc, src: Loc)
    requires Balanced(vars, blocks, []) && Acyclic(blocks)
    requires Inside(vars, blocks, dst) && Inside(vars, blocks, src)
    requires src.Slot? && Get(vars, blocks, dst) == Ref(src.block)
    ensures Stays(vars, blocks, dst, dst) && Stays(vars, blocks, dst, src)
       <==> !Last(blocks, Get(vars, blocks, dst))
  {
    AcyclicStays(vars, blocks, dst);
    var b := src.block;
    var other := OthersHold(vars, blocks, dst, b);
    if blocks[b].value.refcount > 0 {
      if other.Slot? {
        HigherHeld(vars, blocks, dst, b, other);
      }
      OneMoreHeld(vars, blocks, {dst}, other, b);
    } else if T: set<nat> :| b in T && SelfHeld(vars, blocks, {dst}, T) {
      assert false;
    }
  }

  /** In an acyclic heap a block that holds b is held without a place that holds b. */
  lemma HigherHeld(vars: seq<Option<Val>>, blocks: seq<Option<Block>>, dst: Loc, b: nat, other: Loc)
    requires Balanced(vars, blocks, []) && Acyclic(blocks)
    requires Holds(vars, blocks, {}, dst, b) && Holds(vars, blocks, {dst}, other, b) && other.Slot?
    ensures Held(vars, blocks, {dst}, other.block)
  {
    var rank: seq<nat> :| Ranked(blocks, rank);
    var S := set a: nat | a < |blocks| && rank[a] <= rank[b] :: a;
    assert Closed(blocks, S) && b in S && other.block !in S;
    ElsewhereHeld(vars, blocks, dst, other.block);
  }

  lemma OneMoreHeld(vars: seq<Option<Val>>, blocks: seq<Option<Block>>, avoid: set<Loc>, loc: Loc, b: nat)
    requires Holds(vars, blocks, avoid, loc, b) && (loc.Slot? ==> Held(vars, blocks, avoid, loc.block))
    ensures Held(vars, blocks, avoid, b)
  {
    var T: set<nat> := {};
    if loc.Slot? {
      T :| loc.block in T && SelfHeld(vars, blocks, avoid, T);
    }
    assert SelfHeld(vars, blocks, avoid, T + {b});
  }

  lemma OneBlock(b: Option<Block>, a: nat)
    requires b.Some? && b.value.slots == [Scalar(7)]
    ensures CountBlocks([b], a) == 0
  {
    var slots := b.value.slots;
    assert slots[0] == Scalar(7) && slots[1..] == [];
    assert Count(slots, a) == One(slots[0], a) + Count(slots[1..], a);
    BlocksAppend([], b, a);
    assert [] + [b] == [b];
  }

  /** `doc = query` shares an array; `doc = doc[0]` may follow, though the old value of `doc` leads to the source. */
  lemma SharedElementAssigned()
    ensures var vars, blocks := [Some(Ref(0)), Some(Ref(0))], [Some(Block(1, TArray, [Scalar(7)]))];
            && Balanced(vars, blocks, []) && !LeadsElsewhere(blocks, Ref(0), 0)
            && Stays(vars, blocks, Var(0), Var(0)) && Stays(vars, blocks, Var(0), Slot(0, 0))
  {
    var x, block := Some(Ref(0)), Some(Block(1, TArray, [Scalar(7)]));
    var vars, blocks := [x, x], [block];
    forall a: nat
      ensures Known(blocks, a, Holders(vars, blocks, [], a))
    {
      OneBlock(block, a);
      VarsAppend([], x, a);
      VarsAppend([x], x, a);
      assert [] + [x] == [x] && [x] + [x] == vars;
    }
    assert Ranked(blocks, [0]);
    ElementAssigned(vars, blocks, Var(0), Slot(0, 0));
  }

  /** Without the sharing it may not. */
  lemma SoleElementAssigned()
    ensures var vars, blocks := [Some(Ref(0))], [Some(Block(0, TArray, [Scalar(7)]))];
            Balanced(vars, blocks, []) && Inside(vars, blocks, Slot(0, 0)) && !Stays(vars, blocks, Var(0), Slot(0, 0))
  {
    var x, block := Some(Ref(0)), Some(Block(0, TArray, [Scalar(7)]));
    var vars, blocks := [x], [block];
    forall a: nat
      ensures Known(blocks, a, Holders(vars, blocks, [], a))
    {
      OneBlock(block, a);
      VarsAppend([], x, a);
      assert [] + [x] == [x];
    }
    assert Ranked(blocks, [0]);
    AcyclicStays(vars, blocks, Var(0));
    ElementAssigned(vars, blocks, Var(0), Slot(0, 0));
  }

  /** What a change of one place leaves live, it leaves as it was. */
  lemma OtherStays(vars0: seq<Option<Val>>, blocks0: seq<Option<Block>>,
                   vars: seq<Option<Val>>, blocks: seq<Option<Block>>, loc: Loc, v: Val, other: Loc)
    requires Changed(vars0, blocks0, vars, blocks, loc, v) && Inside(vars0, blocks0, other) && other != loc
    requires other.Slot? && other.block < |blocks| ==> blocks[other.block].Some?
    ensures Inside(vars, blocks, other) && Get(vars, blocks, other) == Get(vars0, blocks0, other)
  {
  }

  /** Whether the source is still there when the target has been emptied. */
  lemma SourceStays(vars0: seq<Option<Val>>, blocks0: seq<Option<Block>>,
                    vars: seq<Option<Val>>, blocks: seq<Option<Block>>, dst: Loc, src: Loc)
    requires Inside(vars0, blocks0, dst) && Inside(vars0, blocks0, src) && |blocks| == |blocks0|
    requires forall b: nat :: b < |blocks| ==> (blocks[b].Some? <==> Held(vars0, blocks0, {dst}, b))
    requires Inside(vars, blocks, dst) ==> Changed(vars0, blocks0, vars, blocks, dst, NULL)
    ensures Inside(vars, blocks, dst) ==> (Inside(vars, blocks, src) <==> Stays(vars0, blocks0, dst, src))
    ensures Inside(vars, blocks, dst) && Inside(vars, blocks, src) && dst != src ==>
              Get(vars, blocks, src) == Get(vars0, blocks0, src)
  {
    hide Held;
    if Inside(vars, blocks, dst) && dst != src && Stays(vars0, blocks0, dst, src) {
      OtherStays(vars0, blocks0, vars, blocks, dst, NULL, src);
    }
  }

  lemma KeptInside(vars: seq<Option<Val>>, was: seq<Option<Block>>, now: seq<Option<Block>>, loc: Loc)
    requires Kept(was, now) && Inside(vars, was, loc)
    ensures Inside(vars, now, loc) && Get(vars, now, loc) == Get(vars, was, loc)
  {
  }

  /** The place is written once more, after counts may have changed. */
  lemma ChangedAgain(vars0: seq<Option<Val>>, blocks0: seq<Option<Block>>,
                     vars: seq<Option<Val>>, was: seq<Option<Block>>, now: seq<Option<Block>>, loc: Loc, v: Val)
    requires Changed(vars0, blocks0, vars, was, loc, NULL) && Kept(was, now)
    ensures Inside(vars, now, loc) && Changed(vars0, blocks0, WrittenVars(vars, loc, v), Written(now, loc, v), loc, v)
  {
  }

  lemma WrittenLive(vars: seq<Option<Val>>, was: seq<Option<Block>>, now: seq<Option<Block>>, loc: Loc, v: Val)
    requires Kept(was, now) && Inside(vars, now, loc)
    ensures |Written(now, loc, v)| == |was|
    ensures forall b: nat :: b < |was| ==> (Written(now, loc, v)[b].Some? <==> was[b].Some?)
  {
  }

  lemma WrittenThere(vars: seq<Option<Val>>, blocks: seq<Option<Block>>, loc: Loc, v: Val)
    requires Inside(vars, blocks, loc)
    ensures var w, b := WrittenVars(vars, loc, v), Written(blocks, loc, v);
            Inside(w, b, loc) && Get(w, b, loc) == v
  {
  }

  lemma NullLeadsElsewhere(blocks: seq<Option<Block>>, loc: Loc)
    ensures loc.Slot? ==> LeadsElsewhere(blocks, NULL, loc.block)
  {
    assert Closed(blocks, {});
  }

  /** A block added behind stays behind. */
  lemma WrittenFresh(vars: seq<Option<Val>>, blocks: seq<Option<Block>>, loc: Loc, kind: Kind)
    requires Inside(vars, blocks, loc)
    ensures var more := blocks + [Some(Block(0, kind, []))];
            var w := Written(more, loc, Ref(|blocks|));
            Inside(vars, more, loc) && Get(vars, more, loc) == Get(vars, blocks, loc)
            && w[..|blocks|] == Written(blocks, loc, Ref(|blocks|)) && w[|blocks|] == Some(Block(0, kind, []))
  {
  }

  /** What the operations on Values do to the shape of the heap. */
  lemma ChangedAcyclic(vars0: seq<Option<Val>>, blocks0: seq<Option<Block>>,
                       vars: seq<Option<Val>>, blocks: seq<Option<Block>>, loc: Loc, v: Val)
    requires Acyclic(blocks0) && Changed(vars0, blocks0, vars, blocks, loc, v) && (v.Ref? ==> v.at < |blocks0|)
    requires loc.Slot? ==> LeadsElsewhere(blocks0, v, loc.block)
    ensures Acyclic(blocks)
  {
    WrittenAcyclic(vars0, blocks0, loc, v);
    FewerAcyclic(Written(blocks0, loc, v), blocks);
  }

  class Heap {
    var vars: seq<Option<Val>>
    var blocks: seq<Option<Block>>

    ghost predicate Valid()
      reads this
    {
      Balanced(vars, blocks, [])
    }

    constructor ()
      ensures Valid() && vars == [] && blocks == []
    {
      vars, blocks := [], [];
    }

    /** The holder v, being the last of `leaving`, goes; with the last holder of a block goes the block. */
    method DecRef(v: Val, ghost leaving: seq<Val>, ghost S: set<nat>, ghost T: set<nat>)
      requires Balanced(vars, blocks, leaving + [v])
      requires Closed(blocks, S) && (v.Ref? ==> v.at in S) && SelfHeld(vars, blocks, {}, T)
      modifies this`blocks
      ensures Balanced(vars, blocks, leaving)
      ensures Shrunk(old(blocks), blocks, S) && Closed(blocks, S) && SelfHeld(vars, blocks, {}, T)
      ensures !Last(old(blocks), v) ==> Kept(old(blocks), blocks)
      ensures Live(blocks) <= Live(old(blocks))
      decreases Live(blocks), 1
    {
      hide SelfHeld;
      if v.Scalar? {
        DropScalar(vars, blocks, leaving, v);
      } else {
        DropShared(vars, blocks, leaving, v.at);
        var b := blocks[v.at].value;
        if b.refcount > 0 {
          LiveUpdate(blocks, v.at, Some(b.(refcount := b.refcount - 1)));
          blocks := blocks[v.at := Some(b.(refcount := b.refcount - 1))];
          KeptHeld(vars, old(blocks), blocks, T);
        } else {
          Clean(v.at, leaving, S, T);
        }
      }
    }

    /** Frees a block; the destructors of the Values inside it run in order. */
    method Clean(at: nat, ghost leaving: seq<Val>, ghost S: set<nat>, ghost T: set<nat>)
      requires Balanced(vars, blocks, leaving + [Ref(at)])
      requires at < |blocks| && blocks[at].Some? && blocks[at].value.refcount == 0
      requires Closed(blocks, S) && at in S && SelfHeld(vars, blocks, {}, T)
      modifies this`blocks
      ensures Balanced(vars, blocks, leaving)
      ensures Shrunk(old(blocks), blocks, S) && Closed(blocks, S) && SelfHeld(vars, blocks, {}, T)
      ensures Live(blocks) < Live(old(blocks))
      decreases Live(blocks), 0
    {
      hide Balanced, SelfHeld;
      ghost var was := blocks;
      var slots := blocks[at].value.slots;
      DropLast(vars, blocks, leaving, at);
      FreedHeld(vars, blocks, leaving, at, T);
      LiveUpdate(blocks, at, None);
      blocks := blocks[at := None];
      assert slots[0..] == slots;
      var i := 0;
      while i < |slots|
        invariant 0 <= i <= |slots|
        invariant Balanced(vars, blocks, leaving + slots[i..]) && SelfHeld(vars, blocks, {}, T)
        invariant Shrunk(was, blocks, S) && Closed(blocks, S) && Live(blocks) < Live(was)
      {
        Rotate(vars, blocks, leaving, slots, i);
        ghost var now := blocks;
        DecRef(slots[i], leaving + slots[i + 1..], S, T);
        ShrunkAgain(was, now, blocks, S);
        i := i + 1;
      }
      assert leaving + slots[i..] == leaving;
    }

    // ------------------------------------------- the operations of Value

    ghost predicate Has(loc: Loc)
      reads this
    {
      Inside(vars, blocks, loc)
    }

    /** The default constructor. */
    method Construct() returns (id: nat)
      requires Valid()
      modifies this`vars
      ensures Valid() && id == |old(vars)| && vars == old(vars) + [Some(NULL)]
    {
      AddVar(vars, blocks, NULL);
      id := |vars|;
      vars := vars + [Some(NULL)];
    }

    /** One more holder of what v points to. */
    method IncRef(v: Val, ghost leaving: seq<Val>)
      requires Balanced(vars, blocks, leaving) && (v.Ref? ==> v.at < |blocks| && blocks[v.at].Some?)
      modifies this`blocks
      ensures Balanced(vars, blocks, leaving + [v]) && Shrunk(old(blocks), blocks, {}) && Kept(old(blocks), blocks)
    {
      if v.Ref? {
        Enter(vars, blocks, leaving, v.at);
        var b := blocks[v.at].value;
        blocks := blocks[v.at := Some(b.(refcount := b.refcount + 1))];
      } else {
        EnterScalar(vars, blocks, leaving, v);
      }
    }

    /** The copy constructor. */
    method Copy(src: Loc) returns (id: nat)
      requires Valid() && Has(src)
      modifies this
      ensures Valid() && id == |old(vars)| && vars == old(vars) + [Some(old(Get(vars, blocks, src)))]
      ensures Kept(old(blocks), blocks) && Shrunk(old(blocks), blocks, {})
      ensures old(Acyclic(blocks)) ==> Acyclic(blocks)
    {
      var v := Get(vars, blocks, src);
      HeldIsLive(vars, blocks, [], src);
      IncRef(v, []);
      if old(Acyclic(blocks)) {
        FewerAcyclic(old(blocks), blocks);
      }
      Settle(vars, blocks, [], v);
      id := |vars|;
      vars := vars + [Some(v)];
    }

    /** A new string, object or array, its slots being copies of the given Values. */
    method ConstructBlock(kind: Kind, from: seq<Loc>) returns (id: nat)
      requires Valid() && forall k :: 0 <= k < |from| ==> Inside(vars, blocks, from[k])
      modifies this
      ensures Valid() && id == |old(vars)| && |blocks| == |old(blocks)| + 1
      ensures vars == old(vars) + [Some(Ref(|old(blocks)|))] && Kept(old(blocks), blocks[..|old(blocks)|])
      ensures var b := blocks[|old(blocks)|];
              b.Some? && b.value.refcount == 0 && b.value.kind == kind
              && b.value.slots == old(GetAll(vars, blocks, from))
      ensures old(Acyclic(blocks)) ==> Acyclic(blocks)
    {
      hide Balanced, Acyclic;
      ghost var was := blocks;
      var slots: seq<Val> := [];
      var k := 0;
      while k < |from|
        invariant 0 <= k <= |from| && vars == old(vars) && |blocks| == |was|
        invariant Balanced(vars, blocks, slots) && Kept(was, blocks)
        invariant slots == old(GetAll(vars, blocks, from))[..k]
        invariant forall i :: 0 <= i < |slots| && slots[i].Ref? ==> slots[i].at < |blocks|
      {
        var v := Get(vars, blocks, from[k]);
        HeldIsLive(vars, blocks, slots, from[k]);
        IncRef(v, slots);
        slots := slots + [v];
        k := k + 1;
      }
      AddBlock(vars, blocks, slots, kind);
      if old(Acyclic(blocks)) {
        FewerAcyclic(was, blocks);
        NewBlockAcyclic(blocks, Block(0, kind, slots));
      }
      id := |vars|;
      blocks := blocks + [Some(Block(0, kind, slots))];
      Settle(vars, blocks, [], Ref(|was|));
      vars := vars + [Some(Ref(|blocks| - 1))];
      assert blocks[..|was|] == blocks[..|blocks| - 1];
    }

    /** The destructor. */
    method Destroy(id: nat)
      requires Valid() && Has(Var(id))
      modifies this
      ensures Valid() && vars == old(vars)[id := None]
      ensures Shrunk(old(blocks), blocks, Owned(old(blocks), old(vars[id].value)))
      ensures old(Acyclic(blocks)) ==> Acyclic(blocks)
    {
      hide Balanced, Acyclic;
      var v := vars[id].value;
      RemoveVar(vars, blocks, id);
      vars := vars[id := None];
      PointersLive(vars, blocks, [] + [v]);
      assert v == ([] + [v])[0];
      OwnedClosed(blocks, v, Var(id));
      NothingHeld(vars, blocks);
      DecRef(v, [], Owned(blocks, v), {});
      if old(Acyclic(blocks)) {
        FewerAcyclic(old(blocks), blocks);
      }
    }

    /**
     Takes the Value out of its place, which is null meanwhile if it is still there.
     Exactly the blocks that are held without the place are alive afterwards.
     */
    method TakeOut(loc: Loc) returns (v: Val)
      requires Valid() && Has(loc)
      modifies this
      ensures v == old(Get(vars, blocks, loc)) && Valid() && |blocks| == |old(blocks)|
      ensures vars == old(WrittenVars(vars, loc, NULL))
      ensures forall b: nat :: b < |blocks| ==> (blocks[b].Some? <==> Held(old(vars), old(blocks), {loc}, b))
      ensures Has(loc) <==> old(Stays(vars, blocks, loc, loc))
      ensures Has(loc) ==> Get(vars, blocks, loc) == NULL && Changed(old(vars), old(blocks), vars, blocks, loc, NULL)
      ensures v.Ref? && !Last(old(blocks), v) ==> v.at < |blocks| && blocks[v.at].Some?
    {
      hide Balanced, SelfHeld, Held;
      v := Get(vars, blocks, loc);
      ghost var vars0, before, T := vars, blocks, AllHeld(vars, blocks, {loc});
      PointersLive(vars, blocks, []);
      HeldIsLive(vars, blocks, [], loc);
      PutOut(vars, blocks, loc);
      OwnedClosed(before, v, loc);
      AllSelfHeld(vars, blocks, {loc});
      EmptiedHeld(vars, blocks, loc, T);
      Put(loc, NULL);
      DecRef(v, [], Owned(before, v), T);
      forall b: nat | b < |blocks|
        ensures blocks[b].Some? <==> Held(vars0, before, {loc}, b)
      {
        if b in T {
          SelfHeldLive(vars, blocks, T, b);
        } else if blocks[b].Some? {
          AliveHeld(vars0, before, loc, blocks, Owned(before, v));
          HeldIn(vars0, before, {loc}, LiveBlocks(blocks), b);
        }
      }
    }

    method Put(loc: Loc, v: Val)
      requires Has(loc)
      modifies this
      ensures vars == WrittenVars(old(vars), loc, v) && blocks == Written(old(blocks), loc, v)
    {
      match loc
      case Var(id) => vars := vars[id := Some(v)];
      case Slot(b, i) =>
        var block := blocks[b].value;
        blocks := blocks[b := Some(block.(slots := block.slots[i := v]))];
    }

    /**
     The assignment operator. It is defined unless the target or the source lies in
     a block that goes when the old value of the target is released.
     */
    method Assign(dst: Loc, src: Loc) returns (defined: bool)
      requires Valid() && Has(dst) && Has(src)
      modifies this
      ensures Valid()
      ensures defined <==> old(Stays(vars, blocks, dst, dst) && Stays(vars, blocks, dst, src))
      ensures defined ==> Changed(old(vars), old(blocks), vars, blocks, dst, old(Given(vars, blocks, dst, src)))
      ensures defined && dst != src ==> Has(dst) && Get(vars, blocks, dst) == old(Get(vars, blocks, src))
      ensures defined && dst == src ==>
                Has(dst) && Get(vars, blocks, dst) == if old(Last(blocks, Get(vars, blocks, dst))) then NULL
                                                      else old(Get(vars, blocks, dst))
      ensures |blocks| == |old(blocks)|
      ensures forall b: nat :: b < |blocks| ==> (blocks[b].Some? <==> Held(old(vars), old(blocks), {dst}, b))
      ensures defined && old(Acyclic(blocks))
              && (dst.Slot? ==> old(LeadsElsewhere(blocks, Given(vars, blocks, dst, src), dst.block)))
              ==> Acyclic(blocks)
    {
      hide Balanced, Acyclic, Changed, Shrunk, Kept, Written, WrittenVars, Held;
      HeldIsLive(vars, blocks, [], src);
      var last := Last(blocks, Get(vars, blocks, dst));
      var gone := TakeOut(dst);
      defined := Inside(vars, blocks, dst) && Inside(vars, blocks, src);
      SourceStays(old(vars), old(blocks), vars, blocks, dst, src);
      if defined {
        // a count that has only gone down leaves the Value of the target as it was
        var v := if dst != src then Get(vars, blocks, src) else if last then NULL else gone;
        HeldIsLive(vars, blocks, [], src);
        ghost var emptied := blocks;
        IncRef(v, []);
        KeptInside(vars, emptied, blocks, dst);
        ChangedAgain(old(vars), old(blocks), vars, emptied, blocks, dst, v);
        WrittenLive(vars, emptied, blocks, dst, v);
        PutIn(vars, blocks, dst, v);
        WrittenThere(vars, blocks, dst, v);
        Put(dst, v);
        if old(Acyclic(blocks))
          && (dst.Slot? ==> old(LeadsElsewhere(blocks, Given(vars, blocks, dst, src), dst.block))) {
          ChangedAcyclic(old(vars), old(blocks), vars, blocks, dst, v);
        }
      }
    }

    /** A container gets one more Value, null at first: a new key of an object, a longer array. */
    method AddSlot(b: nat)
      requires Valid() && b < |blocks| && blocks[b].Some?
      modifies this`blocks
      ensures Valid()
      ensures blocks == old(blocks)[b := Some(old(blocks)[b].value.(slots := old(blocks)[b].value.slots + [NULL]))]
      ensures old(Acyclic(blocks)) ==> Acyclic(blocks)
    {
      hide Balanced;
      Grown(vars, blocks, b);
      var block := blocks[b].value;
      blocks := blocks[b := Some(block.(slots := block.slots + [NULL]))];
      if old(Acyclic(blocks)) {
        var rank: seq<nat> :| Ranked(old(blocks), rank);
        assert Ranked(blocks, rank);
      }
    }

    /** `reset`: to null, or to an empty string, object or array. */
    method Reset(loc: Loc, kind: Option<Kind>) returns (defined: bool)
      requires Valid() && Has(loc)
      modifies this
      ensures Valid()
      ensures defined <==> old(Stays(vars, blocks, loc, loc))
      ensures defined && kind.None? ==> Changed(old(vars), old(blocks), vars, blocks, loc, NULL)
      ensures defined && kind.Some? ==>
                && |blocks| == |old(blocks)| + 1 && blocks[|blocks| - 1] == Some(Block(0, kind.value, []))
                && Changed(old(vars), old(blocks), vars, blocks[..|blocks| - 1], loc, Ref(|blocks| - 1))
      ensures old(Acyclic(blocks)) && defined ==> Acyclic(blocks)
    {
      hide Balanced, Acyclic, Changed, Written, WrittenVars, LeadsElsewhere, Held;
      var gone := TakeOut(loc);
      defined := Inside(vars, blocks, loc);
      if !defined {
        return;
      }
      if old(Acyclic(blocks)) {
        NullLeadsElsewhere(old(blocks), loc);
        ChangedAcyclic(old(vars), old(blocks), vars, blocks, loc, NULL);
      }
      if kind.Some? {
        ghost var blocks1 := blocks;
        var v := Ref(|blocks|);
        AddBlock(vars, blocks, [], kind.value);
        blocks := blocks + [Some(Block(0, kind.value, []))];
        if old(Acyclic(blocks)) {
          FreshBlockAcyclic(vars, blocks1, loc, kind.value);
        }
        WrittenFresh(vars, blocks1, loc, kind.value);
        ChangedAgain(old(vars), old(blocks), vars, blocks1, blocks1, loc, v);
        PutIn(vars, blocks, loc, v);
        Put(loc, v);
      }
    }
  }

  lemma Grown(vars: seq<Option<Val>>, blocks: seq<Option<Block>>, b: nat)
    requires Balanced(vars, blocks, []) && b < |blocks| && blocks[b].Some?
    ensures Balanced(vars, blocks[b := Some(blocks[b].value.(slots := blocks[b].value.slots + [NULL]))], [])
  {
    var now := Some(blocks[b].value.(slots := blocks[b].value.slots + [NULL]));
    var grown := blocks[b := now];
    forall a: nat
      ensures Known(grown, a, Holders(vars, grown, [], a))
    {
      assert Known(blocks, a, Holders(vars, blocks, [], a));
      BlocksUpdate(blocks, b, now, a);
      CountConcat(blocks[b].value.slots, [NULL], a);
    }
  }

  lemma Rotate(vars: seq<Option<Val>>, blocks: seq<Option<Block>>, leaving: seq<Val>, slots: seq<Val>, i: nat)
    requires i < |slots| && Balanced(vars, blocks, leaving + slots[i..])
    ensures Balanced(vars, blocks, (leaving + slots[i + 1..]) + [slots[i]])
  {
    var l1, l2 := leaving + slots[i..], (leaving + slots[i + 1..]) + [slots[i]];
    forall a: nat
      ensures Count(l1, a) == Count(l2, a)
    {
      assert slots[i..] == [slots[i]] + slots[i + 1..];
      CountConcat(leaving, slots[i..], a);
      CountConcat([slots[i]], slots[i + 1..], a);
      CountConcat(leaving, slots[i + 1..], a);
      CountConcat(leaving + slots[i + 1..], [slots[i]], a);
    }
    Reorder(vars, blocks, l1, l2);
  }
}
