/**
 The timestamp cache refines a recency list: blocks from least to most recently got, with
 their pin counts, and no timestamps, slots or addresses.
 */
module CacheLru {
  import opened Machine
  import opened SeqFacts
  import opened CacheSpec
  import opened CacheTheory

  // ---------------------------------------------------------------- the recency list

  datatype Item = Item(id: int, refs: int)

  /** `full` is set for good once 256 blocks have been cached. */
  datatype Lru = Lru(items: seq<Item>, full: bool)

  function Position(items: seq<Item>, id: int): (i: nat)
    ensures i <= |items|
    ensures i < |items| ==> items[i].id == id
    ensures forall j :: 0 <= j < i ==> items[j].id != id
  {
    if items == [] || items[0].id == id then 0 else 1 + Position(items[1..], id)
  }

  /** The least recently got item without a pin. */
  function Oldest(items: seq<Item>): (i: nat)
    ensures i <= |items|
    ensures i < |items| ==> items[i].refs == 0
    ensures forall j :: 0 <= j < i ==> items[j].refs != 0
  {
    if items == [] || items[0].refs == 0 then 0 else 1 + Oldest(items[1..])
  }

  function Drop<T>(xs: seq<T>, i: nat): seq<T>
    requires i < |xs|
  {
    xs[..i] + xs[i + 1..]
  }

  function LruRoom(l: Lru): seq<Item> {
    if l.full && Oldest(l.items) < |l.items| then Drop(l.items, Oldest(l.items)) else l.items
  }

  /** A get; `granted` says whether memory was available. The second result says whether the
      caller gets a block. */
  function LruGet(l: Lru, id: int, granted: bool): (Lru, bool) {
    var i := Position(l.items, id);
    if i < |l.items| then
      (l.(items := Drop(l.items, i) + [Item(id, l.items[i].refs + 1)]), true)
    else if l.full && Oldest(l.items) == |l.items| then (l, false)
    else if !granted then (l.(items := LruRoom(l)), false)
    else (Lru(LruRoom(l) + [Item(id, 1)], l.full || |l.items| + 1 == SLOTS), true)
  }

  function LruRelease(l: Lru, id: int): Lru {
    var i := Position(l.items, id);
    if i < |l.items| then l.(items := l.items[i := Item(id, l.items[i].refs - 1)]) else l
  }

  // ---------------------------------------------------------------- abstraction

  /** `order` lists the cached blocks by increasing timestamp. */
  ghost predicate Ranked(c: Cache, order: seq<int>) {
    && Distinct(order)
    && (forall i :: 0 <= i < |order| ==> order[i] in c.mem)
    && (forall p :: p in c.mem ==> p in order)
    && (forall i, j :: 0 <= i < j < |order| ==>
          c.mem[order[i]].stamp < c.mem[order[j]].stamp)
  }

  ghost function ItemOf(c: Cache, p: int): Item
    requires p in c.mem
  {
    Item(c.mem[p].id, c.mem[p].refs)
  }

  ghost function Items(c: Cache, order: seq<int>): (r: seq<Item>)
    requires forall i :: 0 <= i < |order| ==> order[i] in c.mem
    ensures |r| == |order|
    ensures forall i {:trigger r[i]} :: 0 <= i < |order| ==> r[i] == ItemOf(c, order[i])
  {
    seq(|order|, i requires 0 <= i < |order| => ItemOf(c, order[i]))
  }

  ghost predicate Refines(c: Cache, order: seq<int>, l: Lru) {
    && Ranked(c, order)
    && l.full == Full(c)
    && l.items == Items(c, order)
  }

  /** The order by timestamps is unique, so the recency list is a function of the cache. */
  lemma {:induction false} RankedUnique(c: Cache, a: seq<int>, b: seq<int>)
    requires Ranked(c, a) && Ranked(c, b)
    ensures a == b
  {
    forall x ensures x in a <==> x in b {
      assert x in a ==> x in c.mem;
      assert x in b ==> x in c.mem;
    }
    SameLength(a, b);
    if k :| 0 <= k < |a| && a[k] != b[k] { FirstDifference(c, a, b, k); }
  }

  /** From a position where two rankings differ, an earlier difference can always be found. */
  lemma {:induction false} FirstDifference(c: Cache, a: seq<int>, b: seq<int>, k: nat)
    requires Ranked(c, a) && Ranked(c, b) && |a| == |b| && k < |a| && a[k] != b[k]
    ensures false
    decreases k
  {
    assert a[k] in b && b[k] in a;
    var i :| 0 <= i < |b| && b[i] == a[k];
    var j :| 0 <= j < |a| && a[j] == b[k];
    if i < k {
      FirstDifference(c, a, b, i);
    } else if j < k {
      FirstDifference(c, a, b, j);
    }
  }

  // ---------------------------------------------------------------- simulation

  lemma PositionIs(c: Cache, order: seq<int>, l: Lru, p: int, k: nat)
    requires Refines(c, order, l) && OnePerId(c) && k < |order| && order[k] == p
    ensures Position(l.items, c.mem[p].id) == k
  {
    var i := Position(l.items, c.mem[p].id);
    assert l.items[k].id == c.mem[p].id;
    assert l.items[i] == ItemOf(c, order[i]);
  }

  lemma PositionNone(c: Cache, order: seq<int>, l: Lru, id: int)
    requires Refines(c, order, l) && forall p :: p in c.mem ==> c.mem[p].id != id
    ensures Position(l.items, id) == |l.items|
  {}

  /** The victim of the timestamp search is the oldest unpinned item. */
  lemma VictimIs(c: Cache, order: seq<int>, l: Lru)
    requires Wf(c) && Refines(c, order, l) && Full(c)
    ensures var v, o := Victim(c, c.count), Oldest(l.items);
            if o < |l.items| then v >= 0 && c.slots[v] == order[o] else v < 0
  {
    var v, o := Victim(c, c.count), Oldest(l.items);
    if o < |l.items| {
      var p := order[o];
      assert l.items[o] == ItemOf(c, p);
      assert p in c.mem && p in c.slots;
      var j :| 0 <= j < SLOTS && c.slots[j] == p;
      assert Idle(c, j);
      var q := c.slots[v];
      assert q in order;
      var k :| 0 <= k < |order| && order[k] == q;
      assert l.items[k] == ItemOf(c, q);
    } else {
      forall p | p in c.mem ensures c.mem[p].refs != 0 {
        var k :| 0 <= k < |order| && order[k] == p;
        assert l.items[k] == ItemOf(c, p);
      }
      StuckMeans(c);
    }
  }

  /** Taking a block out of the ranking. */
  lemma RankedDrop(c: Cache, order: seq<int>, k: nat)
    requires Ranked(c, order) && k < |order|
    ensures Ranked(c.(mem := c.mem - {order[k]}), Drop(order, k))
  {}

  /** Putting a block with a newer timestamp at the end. */
  lemma RankedAppend(c: Cache, order: seq<int>, p: int, b: Block)
    requires Ranked(c, order) && p !in c.mem && forall q :: q in c.mem ==> c.mem[q].stamp < b.stamp
    ensures Ranked(c.(mem := c.mem[p := b]), order + [p])
  {
    DistinctInsert(order, |order|, p);
    assert order[..|order|] + [p] + order[|order|..] == order + [p];
    var d := c.(mem := c.mem[p := b]);
    var r := order + [p];
    forall q | q in d.mem ensures q in r {
      assert q == p || q in order;
    }
    forall i, j | 0 <= i < j < |r| ensures d.mem[r[i]].stamp < d.mem[r[j]].stamp { AppendRises(c, order, p, b, i, j); }
  }

  lemma AppendRises(c: Cache, order: seq<int>, p: int, b: Block, i: nat, j: nat)
    requires Ranked(c, order) && p !in c.mem && forall q :: q in c.mem ==> c.mem[q].stamp < b.stamp
    requires i < j <= |order|
    ensures var m, r := c.mem[p := b], order + [p];
            r[i] in m && r[j] in m && m[r[i]].stamp < m[r[j]].stamp
  {
    var m, r := c.mem[p := b], order + [p];
    assert r[i] == order[i] && m[r[i]] == c.mem[order[i]];
    if j < |order| { assert r[j] == order[j] && m[r[j]] == c.mem[order[j]]; } else { assert m[r[j]] == b; }
  }

  lemma ItemsSame(c: Cache, d: Cache, order: seq<int>)
    requires forall i :: 0 <= i < |order| ==>
               order[i] in c.mem && order[i] in d.mem && ItemOf(c, order[i]) == ItemOf(d, order[i])
    ensures Items(c, order) == Items(d, order)
  {}

  lemma ItemsDrop(c: Cache, order: seq<int>, k: nat)
    requires (forall i :: 0 <= i < |order| ==> order[i] in c.mem) && k < |order|
    ensures (forall i :: 0 <= i < |Drop(order, k)| ==> Drop(order, k)[i] in c.mem)
    ensures Items(c, Drop(order, k)) == Drop(Items(c, order), k)
  {}

  lemma ItemsAppend(c: Cache, order: seq<int>, p: int)
    requires (forall i :: 0 <= i < |order| ==> order[i] in c.mem) && p in c.mem
    ensures (forall i :: 0 <= i < |order + [p]| ==> (order + [p])[i] in c.mem)
    ensures Items(c, order + [p]) == Items(c, order) + [ItemOf(c, p)]
  {}

  /** Rewriting the block at position `k` with a newer timestamp moves it to the end. */
  lemma MoveToEnd(c: Cache, order: seq<int>, k: nat, b: Block)
    requires Ranked(c, order) && k < |order| && forall q :: q in c.mem ==> c.mem[q].stamp < b.stamp
    ensures var d := c.(mem := c.mem[order[k] := b]);
            && Ranked(d, Drop(order, k) + [order[k]])
            && Items(d, Drop(order, k) + [order[k]]) == Drop(Items(c, order), k) + [Item(b.id, b.refs)]
  {
    var p, rest := order[k], Drop(order, k);
    var without := c.(mem := c.mem - {p});
    var d := c.(mem := c.mem[p := b]);
    RankedDrop(c, order, k);
    RankedAppend(without, rest, p, b);
    assert without.mem[p := b] == d.mem;
    ItemsAppend(d, rest, p);
    ItemsDrop(c, order, k);
    ItemsSame(c, d, rest);
  }

  /** A hit moves the block to the most recent end with one more pin. */
  lemma HitRefines(c: Cache, order: seq<int>, l: Lru, p: int, granted: bool) returns (order': seq<int>)
    requires Wf(c) && Refines(c, order, l) && p in c.mem
    requires c.clock + 1 < NEVER && 0 <= c.mem[p].refs < U32 - 1
    ensures Refines(Touch(c, p), order', LruGet(l, c.mem[p].id, granted).0)
    ensures LruGet(l, c.mem[p].id, granted).1
  {
    var k :| 0 <= k < |order| && order[k] == p;
    PositionIs(c, order, l, p, k);
    LruHit(l, c.mem[p].id, granted);
    order' := TouchRanked(c, order, k);
    assert l.items[k] == ItemOf(c, p);
  }

  lemma LruHit(l: Lru, id: int, granted: bool)
    requires Position(l.items, id) < |l.items|
    ensures var i := Position(l.items, id);
            LruGet(l, id, granted) == (l.(items := Drop(l.items, i) + [Item(id, l.items[i].refs + 1)]), true)
  {}

  lemma TouchRanked(c: Cache, order: seq<int>, k: nat) returns (order': seq<int>)
    requires Stamped(c) && Ranked(c, order) && k < |order|
    requires c.clock + 1 < NEVER && 0 <= c.mem[order[k]].refs < U32 - 1
    ensures var d, b := Touch(c, order[k]), c.mem[order[k]];
            Ranked(d, order') && Items(d, order') == Drop(Items(c, order), k) + [Item(b.id, b.refs + 1)]
  {
    var p := order[k];
    MoveToEnd(c, order, k, Touch(c, p).mem[p]);
    order' := Drop(order, k) + [p];
    MemOnly(c.(mem := Touch(c, p).mem), Touch(c, p), order');
  }

  /** Ranking and items look at the blocks only. */
  lemma MemOnly(c: Cache, d: Cache, order: seq<int>)
    requires c.mem == d.mem && Ranked(c, order)
    ensures Ranked(d, order) && Items(d, order) == Items(c, order)
  {}

  /** Making room drops the oldest unpinned item. */
  lemma RoomRefines(c: Cache, order: seq<int>, l: Lru) returns (order': seq<int>)
    requires Wf(c) && Refines(c, order, l)
    ensures Refines(MakeRoom(c), order', l.(items := LruRoom(l)))
    ensures Stuck(c) <==> l.full && Oldest(l.items) == |l.items|
  {
    order' := order;
    if Full(c) {
      VictimIs(c, order, l);
      if !Stuck(c) {
        var o := Oldest(l.items);
        order' := Drop(order, o);
        RankedDrop(c, order, o);
        ItemsDrop(c, order, o);
        MemOnly(c.(mem := c.mem - {order[o]}), MakeRoom(c), order');
        ItemsSame(c, MakeRoom(c), order');
      }
    }
  }

  /** A granted miss appends the new block, pinned once. */
  lemma InsertRefines(c: Cache, order: seq<int>, l: Lru, id: int, size: int, p: int)
    requires Wf(c) && Refines(c, order, l) && p !in c.mem && c.clock + 1 < NEVER
    ensures var d := Insert(c, id, size, p);
            Ranked(d, order + [p]) && Items(d, order + [p]) == l.items + [Item(id, 1)]
  {
    var d := Insert(c, id, size, p);
    RankedAppend(c, order, p, d.mem[p]);
    MemOnly(c.(mem := d.mem), d, order + [p]);
    ItemsAppend(d, order, p);
    ItemsSame(c, d, order);
  }

  /** Before the cache has filled up, it holds as many blocks as its count says. */
  lemma CountIs(c: Cache, order: seq<int>)
    requires Slotted(c) && Ranked(c, order) && !Full(c)
    ensures |order| == c.count
  {
    var used := c.slots[..c.count];
    forall p ensures p in order <==> p in used {
      if p in order {
        assert p in c.mem;
        var j :| 0 <= j < SLOTS && c.slots[j] == p;
        assert used[j] == p;
      }
      if p in used {
        var j :| 0 <= j < |used| && used[j] == p;
        assert c.slots[j] in c.mem;
      }
    }
    SameLength(order, used);
  }

  lemma MissRefines(c: Cache, order: seq<int>, l: Lru, id: int, size: int, a: Alloc) returns (order': seq<int>)
    requires Wf(c) && Refines(c, order, l) && FreshAlloc(c, a) && c.clock + 1 < NEVER
    requires forall p :: p in c.mem ==> c.mem[p].id != id
    ensures var (d, p) := Allocate(c, id, size, a);
            && Refines(d, order', LruGet(l, id, a.Granted?).0)
            && (p != NULL <==> LruGet(l, id, a.Granted?).1)
  {
    PositionNone(c, order, l, id);
    order' := RoomRefines(c, order, l);
    if Stuck(c) {
      order' := order;
    } else if a.Granted? {
      RoomWf(c);
      RoomHasSlot(c);
      InsertRefines(MakeRoom(c), order', l.(items := LruRoom(l)), id, size, a.ptr);
      order' := order' + [a.ptr];
      if !Full(c) { CountIs(c, order); }
    }
  }

  /** One get of the timestamp cache is one get of the recency list, with the same answer. */
  lemma GetRefines(c: Cache, order: seq<int>, l: Lru, id: int, size: int, a: Alloc) returns (order': seq<int>)
    requires Wf(c) && Refines(c, order, l) && FreshAlloc(c, a) && Room(c, id)
    ensures Refines(Get(c, id, size, a).0, order', LruGet(l, id, a.Granted?).0)
    ensures Get(c, id, size, a).1 != NULL <==> LruGet(l, id, a.Granted?).1
  {
    var p := Find(c, id, 0);
    if p != NULL {
      order' := HitRefines(c, order, l, p, a.Granted?);
    } else {
      FindComplete(c, id);
      order' := MissRefines(c, order, l, id, size, a);
      MemOnly(Allocate(c, id, size, a).0, Get(c, id, size, a).0, order');
    }
  }

  // ---------------------------------------------------------------- runs

  /** What a client asks for, without addresses: a get of an id, with or without memory for it,
      or the release of an id. */
  datatype Label = AskGet(id: int, granted: bool) | AskRelease(id: int) | AskNothing

  function LruStep(l: Lru, x: Label): Lru {
    match x
    case AskGet(id, granted) => LruGet(l, id, granted).0
    case AskRelease(id) => LruRelease(l, id)
    case AskNothing => l
  }

  /** The recency list run by itself, and the answers of its gets. */
  function LruRun(l: Lru, xs: seq<Label>): Lru
    decreases |xs|
  {
    if xs == [] then l else LruRun(LruStep(l, xs[0]), xs[1..])
  }

  function LruAnswer(l: Lru, x: Label): seq<bool> {
    if x.AskGet? then [LruGet(l, x.id, x.granted).1] else []
  }

  function LruAnswers(l: Lru, xs: seq<Label>): seq<bool>
    decreases |xs|
  {
    if xs == [] then [] else LruAnswer(l, xs[0]) + LruAnswers(LruStep(l, xs[0]), xs[1..])
  }

  ghost function LabelOf(c: Cache, op: Op): Label {
    match op
    case GetOp(id, _, a) => AskGet(id, a.Granted?)
    case ReleaseOp(p) => if p in c.mem then AskRelease(c.mem[p].id) else AskNothing
    case _ => AskNothing
  }

  /** The requests and the answers of a run of the cache. */
  ghost function Labels(c: Cache, ops: seq<Op>): seq<Label>
    decreases |ops|
  {
    if ops == [] || !Sane(c) then [] else [LabelOf(c, ops[0])] + Labels(Step(c, ops[0]), ops[1..])
  }

  ghost function Answer(c: Cache, op: Op): seq<bool>
    requires Sane(c)
  {
    if op.GetOp? then [Get(c, op.id, op.size, op.alloc).1 != NULL] else []
  }

  ghost function Answers(c: Cache, ops: seq<Op>): seq<bool>
    decreases |ops|
  {
    if ops == [] || !Sane(c) then [] else Answer(c, ops[0]) + Answers(Step(c, ops[0]), ops[1..])
  }

  /** Rewriting the block at position `k` without a new timestamp leaves it in its place. */
  lemma EditInPlace(c: Cache, order: seq<int>, k: nat, b: Block)
    requires Ranked(c, order) && k < |order| && b.stamp == c.mem[order[k]].stamp
    ensures var d := c.(mem := c.mem[order[k] := b]);
            Ranked(d, order) && Items(d, order) == Items(c, order)[k := Item(b.id, b.refs)]
  {}

  lemma ReleaseRefines(c: Cache, order: seq<int>, l: Lru, p: int)
    requires Wf(c) && Refines(c, order, l) && p in c.mem && c.mem[p].refs > 0
    ensures Refines(Release(c, p), order, LruRelease(l, c.mem[p].id))
  {
    var k :| 0 <= k < |order| && order[k] == p;
    PositionIs(c, order, l, p, k);
    EditInPlace(c, order, k, Release(c, p).mem[p]);
    assert l.items[k] == ItemOf(c, p);
  }

  /** Dirty flags are invisible. */
  lemma FlagsRefine(c: Cache, d: Cache, order: seq<int>, l: Lru)
    requires Refines(c, order, l) && d.mem.Keys == c.mem.Keys && d.count == c.count
    requires forall p :: p in c.mem ==> ItemOf(d, p) == ItemOf(c, p) && d.mem[p].stamp == c.mem[p].stamp
    ensures Refines(d, order, l)
  {}

  lemma StepRefines(c: Cache, held: multiset<int>, order: seq<int>, l: Lru, op: Op) returns (order': seq<int>)
    requires Wf(c) && Pinned(c, held) && Legal(c, held, op) && Refines(c, order, l)
    ensures Refines(Step(c, op), order', LruStep(l, LabelOf(c, op)))
    ensures Answer(c, op) == LruAnswer(l, LabelOf(c, op))
  {
    if op.GetOp? {
      order' := GetRefines(c, order, l, op.id, op.size, op.alloc);
    } else {
      order' := order;
      if op.ReleaseOp? { ReleaseRefines(c, order, l, op.p); } else { FlagsRefine(c, Step(c, op), order, l); }
    }
  }

  lemma {:induction false} RunRefinesFrom(c: Cache, held: multiset<int>, order: seq<int>, l: Lru, ops: seq<Op>)
    returns (order': seq<int>)
    requires Wf(c) && Pinned(c, held) && LegalRun(c, held, ops) && Refines(c, order, l)
    ensures Refines(Run(c, ops), order', LruRun(l, Labels(c, ops)))
    ensures Answers(c, ops) == LruAnswers(l, Labels(c, ops))
    decreases |ops|
  {
    order' := order;
    if ops != [] {
      StepPinned(c, held, ops[0]);
      order' := StepRefines(c, held, order, l, ops[0]);
      var d, x := Step(c, ops[0]), LabelOf(c, ops[0]);
      order' := RunRefinesFrom(d, Handles(c, held, ops[0]), order', LruStep(l, x), ops[1..]);
      LruUnfold(l, x, Labels(d, ops[1..]));
    }
  }

  lemma LruUnfold(l: Lru, x: Label, xs: seq<Label>)
    ensures LruRun(l, [x] + xs) == LruRun(LruStep(l, x), xs)
    ensures LruAnswers(l, [x] + xs) == LruAnswer(l, x) + LruAnswers(LruStep(l, x), xs)
  {
    assert ([x] + xs)[1..] == xs;
  }

  /** In every run from the empty cache, the blocks sorted by timestamp are the recency list
      that the same gets and releases produce, and every get gets the same answer. */
  lemma RunRefines(ops: seq<Op>) returns (order: seq<int>)
    requires LegalRun(Empty(), multiset{}, ops)
    ensures Refines(Run(Empty(), ops), order, LruRun(Lru([], false), Labels(Empty(), ops)))
    ensures Answers(Empty(), ops) == LruAnswers(Lru([], false), Labels(Empty(), ops))
  {
    EmptyWf();
    order := RunRefinesFrom(Empty(), multiset{}, [], Lru([], false), ops);
  }
}
