/**
 A run of the block cache that leaves an empty slot in a full table: afterwards a get finds
 no room, or throws a block out, with the slot still empty.
 */
module CacheHole {
  import opened Machine
  import opened SeqFacts
  import opened CacheSpec
  import opened CacheTheory

  // ---------------------------------------------------------------- runs in pieces

  lemma RunHead(c: Cache, held: multiset<int>, op: Op, ops: seq<Op>)
    requires Sane(c)
    ensures Run(c, [op] + ops) == Run(Step(c, op), ops)
    ensures HandlesAfter(c, held, [op] + ops) == HandlesAfter(Step(c, op), Handles(c, held, op), ops)
    ensures LegalRun(c, held, [op] + ops) <==>
            Legal(c, held, op) && LegalRun(Step(c, op), Handles(c, held, op), ops)
  {
    assert ([op] + ops)[0] == op && ([op] + ops)[1..] == ops;
  }

  lemma {:induction false} RunAppend(c: Cache, held: multiset<int>, a: seq<Op>, b: seq<Op>)
    requires Wf(c) && Pinned(c, held) && LegalRun(c, held, a)
    ensures Run(c, a + b) == Run(Run(c, a), b)
    ensures LegalRun(c, held, a + b) <==> LegalRun(Run(c, a), HandlesAfter(c, held, a), b)
    decreases |a|
  {
    if a == [] {
      assert a + b == b;
    } else {
      assert (a + b)[0] == a[0] && (a + b)[1..] == a[1..] + b;
      StepPinned(c, held, a[0]);
      RunAppend(Step(c, a[0]), Handles(c, held, a[0]), a[1..], b);
    }
  }

  /** One more operation at the end of a run from the empty cache. */
  lemma Extend(ops: seq<Op>, op: Op)
    requires LegalRun(Empty(), multiset{}, ops)
    ensures var c, held := Run(Empty(), ops), HandlesAfter(Empty(), multiset{}, ops);
            && Wf(c) && Pinned(c, held)
            && (Legal(c, held, op) ==>
                  LegalRun(Empty(), multiset{}, ops + [op]) && Run(Empty(), ops + [op]) == Step(c, op))
  {
    RunSafe(ops);
    EmptyWf();
    RunAppend(Empty(), multiset{}, ops, [op]);
    var c, held := Run(Empty(), ops), HandlesAfter(Empty(), multiset{}, ops);
    RunHead(c, held, op, []);
    assert [op] + [] == [op];
  }

  // ---------------------------------------------------------------- filling the table

  /** Blocks 1 to `n`, each got once, in the first `n` slots. */
  function Filled(n: nat): Cache
    requires n <= SLOTS
  {
    Cache(map p | 1 <= p <= n :: Block(p, 0, false, 1, p), seq(SLOTS, i => if i < n then i + 1 else NULL), n, 0, n, n)
  }

  lemma FillStep(n: nat)
    requires n < SLOTS && Wf(Filled(n))
    ensures FreshAlloc(Filled(n), Granted(n + 1)) && Room(Filled(n), n + 1)
    ensures Get(Filled(n), n + 1, 0, Granted(n + 1)).0 == Filled(n + 1)
  {
    var c := Filled(n);
    assert Find(c, n + 1, 0) == NULL by { FindComplete(c, n + 1); }
    FillInsert(n);
  }

  lemma FillInsert(n: nat)
    requires n < SLOTS
    ensures Insert(Filled(n), n + 1, 0, n + 1) == Filled(n + 1).(misses := n)
  {
    var c := Filled(n);
    EmptySlotIs(c.slots, n);
    assert c.slots[n := n + 1] == Filled(n + 1).slots;
  }

  lemma {:induction false} FillRun(n: nat) returns (ops: seq<Op>)
    requires n <= SLOTS
    ensures LegalRun(Empty(), multiset{}, ops) && Run(Empty(), ops) == Filled(n)
  {
    if n == 0 {
      assert Filled(0).slots == Empty().slots;
      ops := [];
    } else {
      ops := FillRun(n - 1);
      FillMore(n - 1, ops);
      ops := ops + [GetOp(n, 0, Granted(n))];
    }
  }

  lemma FillMore(n: nat, ops: seq<Op>)
    requires n < SLOTS && LegalRun(Empty(), multiset{}, ops) && Run(Empty(), ops) == Filled(n)
    ensures var op := GetOp(n + 1, 0, Granted(n + 1));
            LegalRun(Empty(), multiset{}, ops + [op]) && Run(Empty(), ops + [op]) == Filled(n + 1)
  {
    Extend(ops, GetOp(n + 1, 0, Granted(n + 1)));
    FillStep(n);
  }

  // ---------------------------------------------------------------- the empty slot

  /** The table is full, every block is referenced, one slot is empty, and neither the id nor the
      address 300 is in use. */
  ghost predicate Hole(c: Cache) {
    && Wf(c) && c.count == SLOTS && !Packed(c) && !SomeUnreferenced(c)
    && !Cached(c, 300) && 300 !in c.mem && 2 in c.mem && c.mem[2].refs == 1
  }

  lemma ReleasedFirst()
    requires Wf(Filled(SLOTS))
    ensures var c := Release(Filled(SLOTS), 1);
            && Wf(c) && Full(c) && !Stuck(c) && c.slots[Victim(c, c.count)] == 1
            && !Cached(c, 300) && Room(c, 300)
  {
    var c := Release(Filled(SLOTS), 1);
    EditWf(Filled(SLOTS), c);
    StuckMeans(c);
    FindComplete(c, 300);
  }

  /** The refused get throws out block 1 and nothing takes its slot. */
  lemma Refused(c: Cache)
    requires Sane(c) && Find(c, 300, 0) == NULL && Full(c) && !Stuck(c) && c.slots[Victim(c, c.count)] == 1
    ensures var d := Get(c, 300, 0, NoBlock).0;
            && d.mem == c.mem - {1} && d.slots == c.slots[Victim(c, c.count) := NULL] && d.count == c.count
  {}

  lemma RefusedLeavesHole(c: Cache)
    requires c == Release(Filled(SLOTS), 1) && Wf(c) && Full(c) && !Stuck(c) && c.slots[Victim(c, c.count)] == 1
    requires !Cached(c, 300) && Room(c, 300)
    ensures Hole(Get(c, 300, 0, NoBlock).0)
  {
    FindComplete(c, 300);
    Refused(c);
    GetWf(c, 300, 0, NoBlock);
    var d := Get(c, 300, 0, NoBlock).0;
    assert d.slots[Victim(c, c.count)] == NULL;
    assert forall p :: p in d.mem ==> d.mem[p] == Block(p, 0, false, 1, p);
  }

  /** 256 granted gets, one release and one get that memory refuses reach a hole. */
  lemma HoleReached() returns (ops: seq<Op>)
    ensures LegalRun(Empty(), multiset{}, ops) && Hole(Run(Empty(), ops))
  {
    var fill := FillRun(SLOTS);
    Extend(fill, ReleaseOp(1));
    ReleasedFirst();
    var one := fill + [ReleaseOp(1)];
    Extend(one, GetOp(300, 0, NoBlock));
    RefusedLeavesHole(Run(Empty(), one));
    ops := one + [GetOp(300, 0, NoBlock)];
  }

  lemma HoleReleased(c: Cache)
    requires Hole(c)
    ensures var d := Release(c, 2);
            Wf(d) && Full(d) && !Packed(d) && SomeUnreferenced(d) && !Cached(d, 300) && 300 !in d.mem
  {
    var d := Release(c, 2);
    EditWf(c, d);
    assert d.mem[2].refs == 0;
  }

  /** In the state reached, a granted get of a new id returns NULL although a slot is empty. */
  lemma HoleRefuses() returns (ops: seq<Op>)
    ensures LegalRun(Empty(), multiset{}, ops)
    ensures var c := Run(Empty(), ops);
            && Wf(c) && EmptySlot(c.slots, 0) < SLOTS && FreshAlloc(c, Granted(300))
            && Get(c, 300, 0, Granted(300)).1 == NULL
  {
    ops := HoleReached();
    EmptySlotUnused(Run(Empty(), ops), 300, 0, Granted(300));
  }

  /** After one more release the same get throws a block out instead of using that slot. */
  lemma HoleEvicts() returns (ops: seq<Op>)
    ensures LegalRun(Empty(), multiset{}, ops)
    ensures var c := Run(Empty(), ops);
            && Wf(c) && EmptySlot(c.slots, 0) < SLOTS && FreshAlloc(c, Granted(300))
            && Evicts(c, Get(c, 300, 0, Granted(300)).0)
  {
    var before := HoleReached();
    ops := before + [ReleaseOp(2)];
    Extend(before, ReleaseOp(2));
    var c := Run(Empty(), before);
    HoleReleased(c);
    EmptySlotUnused(Release(c, 2), 300, 0, Granted(300));
  }
}
