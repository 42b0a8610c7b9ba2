/**
 What every run of the block cache keeps: one block per id, reference counts that are the
 outstanding handles, and timestamps that order the blocks by their latest get.
 */
module CacheTheory {
  import opened Machine
  import opened SeqFacts
  import opened CacheSpec

  // ---------------------------------------------------------------- the invariant

  /** The slots hold every block exactly once, and none is empty before the cache has
      filled up. */
  ghost predicate Slotted(c: Cache) {
    && Sane(c)
    && (forall i, j :: 0 <= i < j < SLOTS && c.slots[i] != NULL ==> c.slots[i] != c.slots[j])
    && (forall p :: p in c.mem ==> p in c.slots)
    && (forall i :: c.count <= i < SLOTS ==> c.slots[i] == NULL)
    && (!Full(c) ==> forall i :: 0 <= i < c.count ==> c.slots[i] != NULL)
  }

  ghost predicate OnePerId(c: Cache) {
    forall p, q :: p in c.mem && q in c.mem && p != q ==> c.mem[p].id != c.mem[q].id
  }

  /** Timestamps are distinct and never ahead of the clock, which has not wrapped. */
  ghost predicate Stamped(c: Cache) {
    && 0 <= c.clock < NEVER
    && (forall p :: p in c.mem ==> 0 < c.mem[p].stamp <= c.clock)
    && (forall p, q :: p in c.mem && q in c.mem && p != q ==> c.mem[p].stamp != c.mem[q].stamp)
  }

  ghost predicate Wf(c: Cache) {
    Slotted(c) && OnePerId(c) && Stamped(c)
  }

  /** The 64-bit clock and the 32-bit count of the block that is hit have room left. */
  ghost predicate Room(c: Cache, id: int)
    requires Sane(c)
  {
    c.clock + 1 < NEVER && (Find(c, id, 0) != NULL ==> 0 <= c.mem[Find(c, id, 0)].refs < U32 - 1)
  }

  lemma EmptyWf()
    ensures Wf(Empty()) && Empty().mem == map[] && Empty().hits == Empty().misses == Empty().clock == 0
  {}

  lemma FindComplete(c: Cache, id: int)
    requires Slotted(c)
    ensures Find(c, id, 0) == NULL <==> forall p :: p in c.mem ==> c.mem[p].id != id
  {
    if Find(c, id, 0) == NULL {
      forall p | p in c.mem ensures c.mem[p].id != id {
        var j :| 0 <= j < SLOTS && c.slots[j] == p;
        assert !Holds(c, j, id);
      }
    }
  }

  lemma TouchWf(c: Cache, p: int)
    requires Wf(c) && p in c.mem && c.clock + 1 < NEVER
    ensures Wf(Touch(c, p))
  {}

  lemma RoomSlotted(c: Cache)
    requires Slotted(c)
    ensures Slotted(MakeRoom(c))
  {
    if Full(c) && !Stuck(c) {
      var v := Victim(c, c.count);
      var d := MakeRoom(c);
      forall p | p in d.mem ensures p in d.slots {
        var j :| 0 <= j < SLOTS && c.slots[j] == p;
        assert d.slots[j] == p;
      }
    }
  }

  lemma RoomWf(c: Cache)
    requires Wf(c)
    ensures Wf(MakeRoom(c))
  {
    RoomSlotted(c);
  }

  /** After making room there is a slot for the new block. */
  lemma RoomHasSlot(c: Cache)
    requires Slotted(c) && !Stuck(c)
    ensures EmptySlot(MakeRoom(c).slots, 0) < SLOTS
    ensures !Full(c) ==> EmptySlot(MakeRoom(c).slots, 0) == c.count
  {
    var d := MakeRoom(c);
    if Full(c) {
      assert d.slots[Victim(c, c.count)] == NULL;
    } else {
      assert d.slots[c.count] == NULL;
    }
  }

  lemma InsertSlotted(c: Cache, id: int, size: int, p: int)
    requires Slotted(c) && p != NULL && p !in c.mem && EmptySlot(c.slots, 0) < SLOTS
    requires !Full(c) ==> EmptySlot(c.slots, 0) == c.count
    ensures Slotted(Insert(c, id, size, p))
  {}

  lemma InsertWf(c: Cache, id: int, size: int, p: int)
    requires Wf(c) && p != NULL && p !in c.mem && EmptySlot(c.slots, 0) < SLOTS
    requires !Full(c) ==> EmptySlot(c.slots, 0) == c.count
    requires c.clock + 1 < NEVER && forall q :: q in c.mem ==> c.mem[q].id != id
    ensures Wf(Insert(c, id, size, p))
  {
    InsertSlotted(c, id, size, p);
  }

  lemma AllocateWf(c: Cache, id: int, size: int, a: Alloc)
    requires Wf(c) && FreshAlloc(c, a) && c.clock + 1 < NEVER && forall q :: q in c.mem ==> c.mem[q].id != id
    ensures Wf(Allocate(c, id, size, a).0)
  {
    RoomWf(c);
    if !Stuck(c) && a.Granted? {
      RoomHasSlot(c);
      InsertWf(MakeRoom(c), id, size, a.ptr);
    }
  }

  lemma MissCounted(c: Cache)
    requires Wf(c)
    ensures Wf(c.(misses := (c.misses + 1) % U64))
  {}

  lemma GetWf(c: Cache, id: int, size: int, a: Alloc)
    requires Wf(c) && FreshAlloc(c, a) && Room(c, id)
    ensures Wf(Get(c, id, size, a).0)
  {
    var p := Find(c, id, 0);
    if p != NULL {
      TouchWf(c, p);
    } else {
      FindComplete(c, id);
      AllocateWf(c, id, size, a);
      MissCounted(Allocate(c, id, size, a).0);
    }
  }

  /** Rewriting reference counts and dirty flags. */
  lemma EditWf(c: Cache, d: Cache)
    requires Wf(c) && d == c.(mem := d.mem) && d.mem.Keys == c.mem.Keys
    requires forall p :: p in c.mem ==> d.mem[p].id == c.mem[p].id && d.mem[p].stamp == c.mem[p].stamp
    ensures Wf(d)
  {}

  // ---------------------------------------------------------------- when a get fails

  /** A get returns NULL exactly when the id is absent and either memory ran out or the table
      has filled up once and every block in it is referenced. */
  lemma GetFails(c: Cache, id: int, size: int, a: Alloc)
    requires Wf(c) && FreshAlloc(c, a)
    ensures Get(c, id, size, a).1 == NULL <==>
            && (forall p :: p in c.mem ==> c.mem[p].id != id)
            && (!a.Granted? || (Full(c) && forall p :: p in c.mem ==> c.mem[p].refs != 0))
  {
    FindComplete(c, id);
    StuckMeans(c);
  }

  lemma StuckMeans(c: Cache)
    requires Wf(c)
    ensures Stuck(c) <==> Full(c) && forall p :: p in c.mem ==> c.mem[p].refs != 0
  {
    if Stuck(c) {
      forall p | p in c.mem ensures c.mem[p].refs != 0 {
        var j :| 0 <= j < SLOTS && c.slots[j] == p;
        assert !Idle(c, j);
      }
    } else if Full(c) {
      assert Idle(c, Victim(c, c.count));
    }
  }

  // ---------------------------------------------------------------- when a miss evicts

  ghost predicate Cached(c: Cache, id: int) {
    exists p :: p in c.mem && c.mem[p].id == id
  }

  /** Some id that was cached is not cached any more. */
  ghost predicate Evicts(c: Cache, d: Cache) {
    exists p :: p in c.mem && !Cached(d, c.mem[p].id)
  }

  ghost predicate SomeUnreferenced(c: Cache) {
    exists p :: p in c.mem && c.mem[p].refs == 0
  }

  /** A miss throws a block out if and only if the table has filled up once and some block is
      unreferenced, whatever the allocator then answers. */
  lemma MissEvictsIff(c: Cache, id: int, size: int, a: Alloc)
    requires Wf(c) && FreshAlloc(c, a) && !Cached(c, id)
    ensures Evicts(c, Get(c, id, size, a).0) <==> Full(c) && SomeUnreferenced(c)
  {
    FindComplete(c, id);
    StuckMeans(c);
    var d := Get(c, id, size, a).0;
    if Full(c) && SomeUnreferenced(c) {
      var v := c.slots[Victim(c, c.count)];
      assert v in c.mem && v !in MakeRoom(c).mem;
      forall q | q in d.mem ensures d.mem[q].id != c.mem[v].id {
        assert q in c.mem ==> c.mem[q].id != id;
      }
    } else {
      forall p | p in c.mem ensures p in d.mem && d.mem[p].id == c.mem[p].id {}
    }
  }

  /** Once the table has filled up, an empty slot is of no use: an absent id gets a block only at
      the price of an eviction, and NULL if every block is referenced. */
  lemma EmptySlotUnused(c: Cache, id: int, size: int, a: Alloc)
    requires Wf(c) && FreshAlloc(c, a) && a.Granted? && !Cached(c, id) && Full(c) && !Packed(c)
    ensures EmptySlot(c.slots, 0) < SLOTS
    ensures Get(c, id, size, a).1 != NULL <==> SomeUnreferenced(c)
    ensures Get(c, id, size, a).1 != NULL <==> Evicts(c, Get(c, id, size, a).0)
  {
    MissEvictsIff(c, id, size, a);
    FindComplete(c, id);
    StuckMeans(c);
  }

  /** No slot below the count is empty. */
  ghost predicate Packed(c: Cache)
    requires Sane(c)
  {
    forall i :: 0 <= i < c.count ==> c.slots[i] != NULL
  }

  /** As long as no allocation fails, eviction leaves no hole behind. */
  lemma GetPacked(c: Cache, id: int, size: int, a: Alloc)
    requires Wf(c) && FreshAlloc(c, a) && Packed(c) && a.Granted?
    ensures Sane(Get(c, id, size, a).0) && Packed(Get(c, id, size, a).0)
  {
    if Find(c, id, 0) == NULL && !Stuck(c) {
      RoomHasSlot(c);
      var d := MakeRoom(c);
      var k := EmptySlot(d.slots, 0);
      if Full(c) { assert k == Victim(c, c.count); }
    }
  }

  /** A get that succeeds returns a referenced block with that id; a new block is clean, has the
      requested size and one reference. Exactly one of the two counters goes up. */
  lemma GetDelivers(c: Cache, id: int, size: int, a: Alloc)
    requires Wf(c) && FreshAlloc(c, a) && Room(c, id)
    ensures var (d, p) := Get(c, id, size, a);
            && (p != NULL ==> p in d.mem && d.mem[p].id == id && d.mem[p].refs > 0)
            && (p != NULL ==> d.mem[p].stamp == d.clock == c.clock + 1)
            && (p != NULL && !Cached(c, id) ==> d.mem[p] == Block(id, size, false, 1, d.clock))
            && (if Cached(c, id) then d.hits == (c.hits + 1) % U64 && d.misses == c.misses
                else d.hits == c.hits && d.misses == (c.misses + 1) % U64)
  {
    FindComplete(c, id);
  }

  /** After a full write-back no cached block is dirty, and nothing else has changed. */
  lemma SyncAllCleans(c: Cache)
    requires Slotted(c)
    ensures SyncAll(c) == c.(mem := SyncAll(c).mem) && SyncAll(c).mem.Keys == c.mem.Keys
    ensures forall p :: p in c.mem ==> SyncAll(c).mem[p] == c.mem[p].(dirty := false)
  {
    forall p | p in c.mem ensures p in c.slots[..c.count] {
      var j :| 0 <= j < SLOTS && c.slots[j] == p;
      assert c.slots[..c.count][j] == p;
    }
  }

  // ---------------------------------------------------------------- pins

  /** `held` counts the handles clients hold, by block address. */
  ghost predicate Pinned(c: Cache, held: multiset<int>) {
    && (forall p :: p in held ==> p in c.mem)
    && (forall p :: p in c.mem ==> c.mem[p].refs == held[p])
  }

  datatype Op =
    | GetOp(id: int, size: int, alloc: Alloc)
    | ReleaseOp(p: int)
    | DirtyOp(p: int)
    | SyncOp(p: int)
    | SyncAllOp

  /** Handles are released, dirtied and written back only by clients that hold them. */
  ghost predicate Legal(c: Cache, held: multiset<int>, op: Op)
    requires Sane(c)
  {
    match op
    case GetOp(id, _, a) => FreshAlloc(c, a) && Room(c, id)
    case ReleaseOp(p) => p in held
    case DirtyOp(p) => p in held
    case SyncOp(p) => p in held
    case SyncAllOp => true
  }

  ghost function Step(c: Cache, op: Op): Cache
    requires Sane(c)
  {
    match op
    case GetOp(id, size, a) => Get(c, id, size, a).0
    case ReleaseOp(p) => if p in c.mem then Release(c, p) else c
    case DirtyOp(p) => if p in c.mem then SetDirty(c, p, true) else c
    case SyncOp(p) => if p in c.mem then SetDirty(c, p, false) else c
    case SyncAllOp => SyncAll(c)
  }

  ghost function Handles(c: Cache, held: multiset<int>, op: Op): multiset<int>
    requires Sane(c)
  {
    match op
    case GetOp(id, size, a) =>
      var p := Get(c, id, size, a).1;
      if p == NULL then held else held + multiset{p}
    case ReleaseOp(p) => held - multiset{p}
    case _ => held
  }

  /** Blocks that are held before and after keep their address and their identity. */
  ghost predicate Stays(c: Cache, d: Cache, held: multiset<int>) {
    forall p :: p in held && p in c.mem ==>
      p in d.mem && d.mem[p].id == c.mem[p].id && d.mem[p].size == c.mem[p].size
  }

  lemma RoomSparesHeld(c: Cache, held: multiset<int>)
    requires Wf(c) && Pinned(c, held)
    ensures Pinned(MakeRoom(c), held) && Stays(c, MakeRoom(c), held)
    ensures forall p :: p in MakeRoom(c).mem ==> p in c.mem && MakeRoom(c).mem[p] == c.mem[p]
    ensures forall p :: p !in MakeRoom(c).mem ==> held[p] == 0
  {}

  lemma HitPinned(c: Cache, held: multiset<int>, p: int)
    requires Pinned(c, held) && p in c.mem && c.mem[p].refs < U32 - 1
    ensures Pinned(Touch(c, p), held + multiset{p}) && Stays(c, Touch(c, p), held)
  {}

  lemma MissPinned(c: Cache, held: multiset<int>, id: int, size: int, a: Alloc)
    requires Wf(c) && Pinned(c, held) && FreshAlloc(c, a)
    ensures var (d, p) := Allocate(c, id, size, a);
            Pinned(d, if p == NULL then held else held + multiset{p}) && Stays(c, d, held)
  {
    RoomSparesHeld(c, held);
  }

  lemma GetPinned(c: Cache, held: multiset<int>, id: int, size: int, a: Alloc)
    requires Wf(c) && Pinned(c, held) && FreshAlloc(c, a) && Room(c, id)
    ensures Pinned(Get(c, id, size, a).0, Handles(c, held, GetOp(id, size, a)))
    ensures Stays(c, Get(c, id, size, a).0, held)
  {
    if Find(c, id, 0) == NULL {
      MissPinned(c, held, id, size, a);
    } else {
      HitPinned(c, held, Find(c, id, 0));
    }
  }

  lemma EditPinned(c: Cache, held: multiset<int>, op: Op)
    requires Sane(c) && Pinned(c, held) && Legal(c, held, op) && !op.GetOp?
    ensures Pinned(Step(c, op), Handles(c, held, op)) && Stays(c, Step(c, op), held)
  {}

  /** Every legal operation keeps the cache well formed and every count equal to the handles
      outstanding, and no held block is evicted, freed or given to another id. */
  lemma StepPinned(c: Cache, held: multiset<int>, op: Op)
    requires Wf(c) && Pinned(c, held) && Legal(c, held, op)
    ensures Wf(Step(c, op)) && Pinned(Step(c, op), Handles(c, held, op))
    ensures Stays(c, Step(c, op), held)
  {
    if op.GetOp? {
      GetWf(c, op.id, op.size, op.alloc);
      GetPinned(c, held, op.id, op.size, op.alloc);
    } else {
      EditWf(c, Step(c, op));
      EditPinned(c, held, op);
    }
  }

  ghost predicate LegalRun(c: Cache, held: multiset<int>, ops: seq<Op>)
    decreases |ops|
  {
    ops == [] ||
    (Sane(c) ==> Legal(c, held, ops[0]) && LegalRun(Step(c, ops[0]), Handles(c, held, ops[0]), ops[1..]))
  }

  ghost function Run(c: Cache, ops: seq<Op>): Cache
    decreases |ops|
  {
    if ops == [] || !Sane(c) then c else Run(Step(c, ops[0]), ops[1..])
  }

  ghost function HandlesAfter(c: Cache, held: multiset<int>, ops: seq<Op>): multiset<int>
    decreases |ops|
  {
    if ops == [] || !Sane(c) then held
    else HandlesAfter(Step(c, ops[0]), Handles(c, held, ops[0]), ops[1..])
  }

  lemma {:induction false} RunPinned(c: Cache, held: multiset<int>, ops: seq<Op>)
    requires Wf(c) && Pinned(c, held) && LegalRun(c, held, ops)
    ensures Wf(Run(c, ops)) && Pinned(Run(c, ops), HandlesAfter(c, held, ops))
    decreases |ops|
  {
    if ops != [] {
      StepPinned(c, held, ops[0]);
      RunPinned(Step(c, ops[0]), Handles(c, held, ops[0]), ops[1..]);
    }
  }

  /** Every run from the empty cache: at most one block per id, distinct timestamps not ahead
      of the clock, every held block cached with a count equal to its handles. */
  lemma RunSafe(ops: seq<Op>)
    requires LegalRun(Empty(), multiset{}, ops)
    ensures var c, held := Run(Empty(), ops), HandlesAfter(Empty(), multiset{}, ops);
            Wf(c) && Pinned(c, held)
  {
    EmptyWf();
    RunPinned(Empty(), multiset{}, ops);
  }

  ghost predicate AllGranted(ops: seq<Op>) {
    forall i :: 0 <= i < |ops| && ops[i].GetOp? ==> ops[i].alloc.Granted?
  }

  lemma {:induction false} RunPacked(c: Cache, held: multiset<int>, ops: seq<Op>)
    requires Wf(c) && Pinned(c, held) && LegalRun(c, held, ops) && Packed(c) && AllGranted(ops)
    ensures Sane(Run(c, ops)) && Packed(Run(c, ops))
    decreases |ops|
  {
    if ops != [] {
      StepPinned(c, held, ops[0]);
      if ops[0].GetOp? { GetPacked(c, ops[0].id, ops[0].size, ops[0].alloc); }
      RunPacked(Step(c, ops[0]), Handles(c, held, ops[0]), ops[1..]);
    }
  }

  /** If memory never runs out, a get returns NULL exactly when the id is absent and all 256
      slots hold referenced blocks. */
  lemma GetFailsOnlyWhenPinned(ops: seq<Op>, id: int, size: int, a: Alloc)
    requires LegalRun(Empty(), multiset{}, ops) && AllGranted(ops) && a.Granted?
    requires Sane(Run(Empty(), ops)) && FreshAlloc(Run(Empty(), ops), a)
    ensures var c := Run(Empty(), ops);
            Get(c, id, size, a).1 == NULL <==>
            && (forall p :: p in c.mem ==> c.mem[p].id != id)
            && (forall i :: 0 <= i < SLOTS ==> c.slots[i] != NULL && c.mem[c.slots[i]].refs > 0)
  {
    RunSafe(ops);
    EmptyWf();
    RunPacked(Empty(), multiset{}, ops);
    var c := Run(Empty(), ops);
    GetFails(c, id, size, a);
    if forall i :: 0 <= i < SLOTS ==> c.slots[i] != NULL && c.mem[c.slots[i]].refs > 0 {
      assert Full(c) by { assert c.slots[SLOTS - 1] != NULL; }
      forall p | p in c.mem ensures c.mem[p].refs != 0 {
        var j :| 0 <= j < SLOTS && c.slots[j] == p;
      }
    }
  }

  function Gets(ops: seq<Op>): nat {
    if ops == [] then 0 else (if ops[0].GetOp? then 1 else 0) + Gets(ops[1..])
  }

  /** Hits and misses together, `n` gets from now, in the width of the counters. */
  function Tally(c: Cache, n: nat): int { (c.hits + c.misses + n) % U64 }

  lemma StepTally(c: Cache, op: Op, n: nat)
    requires Sane(c)
    ensures Tally(Step(c, op), n) == Tally(c, n + if op.GetOp? then 1 else 0)
  {
    if op.GetOp? { GetTally(c, op.id, op.size, op.alloc, n); }
  }

  lemma GetTally(c: Cache, id: int, size: int, a: Alloc, n: nat)
    requires Sane(c)
    ensures Tally(Get(c, id, size, a).0, n) == Tally(c, n + 1)
  {}

  /** Over every run, hits and misses together count the gets. */
  lemma {:induction false} HitsAndMisses(c: Cache, held: multiset<int>, ops: seq<Op>)
    requires Wf(c) && Pinned(c, held) && LegalRun(c, held, ops)
    ensures Tally(Run(c, ops), 0) == Tally(c, Gets(ops))
    decreases |ops|
  {
    if ops != [] {
      StepPinned(c, held, ops[0]);
      HitsAndMisses(Step(c, ops[0]), Handles(c, held, ops[0]), ops[1..]);
      StepTally(c, ops[0], Gets(ops[1..]));
    }
  }

  // ---------------------------------------------------------------- held blocks over runs

  /** Some client holds a handle to `p` at every point of the run. */
  ghost predicate HeldThroughout(c: Cache, held: multiset<int>, ops: seq<Op>, p: int)
    decreases |ops|
  {
    p in held && (ops == [] || (Sane(c) ==> HeldThroughout(Step(c, ops[0]), Handles(c, held, ops[0]), ops[1..], p)))
  }

  /** A block that stays held through a run is the same block at its end: same address, same id,
      same size. */
  lemma {:induction false} RunKeepsHeld(c: Cache, held: multiset<int>, ops: seq<Op>, p: int)
    requires Wf(c) && Pinned(c, held) && LegalRun(c, held, ops) && HeldThroughout(c, held, ops, p)
    ensures p in c.mem && p in Run(c, ops).mem
    ensures Run(c, ops).mem[p].id == c.mem[p].id && Run(c, ops).mem[p].size == c.mem[p].size
    decreases |ops|
  {
    if ops != [] {
      StepPinned(c, held, ops[0]);
      RunKeepsHeld(Step(c, ops[0]), Handles(c, held, ops[0]), ops[1..], p);
    }
  }
}
