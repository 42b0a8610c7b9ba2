/**
 What each operation of the block cache does to every block, to the table and to the clock; and
 what follows for the dirty flags over every run.
 */
module CacheEffect {
  import opened Machine
  import opened SeqFacts
  import opened CacheSpec
  import opened CacheTheory

  // ---------------------------------------------------------------- get

  /** A hit touches one block: its timestamp is the new time and it has one more reference. Its id,
      size and dirty flag, and all other blocks, are as before. */
  lemma HitEffect(c: Cache, id: int, size: int, a: Alloc)
    requires Wf(c) && FreshAlloc(c, a) && Room(c, id) && Cached(c, id)
    ensures var (d, p) := Get(c, id, size, a);
            && p in c.mem && c.mem[p].id == id && d.mem.Keys == c.mem.Keys
            && (forall q :: q in c.mem ==>
                  d.mem[q] == if q == p then Block(id, c.mem[q].size, c.mem[q].dirty, c.mem[q].refs + 1, c.clock + 1)
                              else c.mem[q])
            && d.slots == c.slots && d.count == c.count && d.clock == c.clock + 1
            && d.hits == (c.hits + 1) % U64 && d.misses == c.misses
  {
    FindComplete(c, id);
  }

  /** The unreferenced block whose last get is longest ago. */
  ghost predicate Oldest(c: Cache, v: int) {
    && v in c.mem && c.mem[v].refs == 0
    && forall q :: q in c.mem && c.mem[q].refs == 0 ==> c.mem[v].stamp <= c.mem[q].stamp
  }

  /** The blocks a miss throws out: none, or the oldest. */
  ghost function Gone(c: Cache): set<int> {
    if Full(c) then set v | v in c.mem && Oldest(c, v) else {}
  }

  lemma VictimOldest(c: Cache)
    requires Wf(c) && Full(c) && !Stuck(c)
    ensures var v := c.slots[Victim(c, c.count)]; Gone(c) == {v}
  {
    var v := c.slots[Victim(c, c.count)];
    forall q | q in c.mem && c.mem[q].refs == 0 ensures c.mem[v].stamp <= c.mem[q].stamp {
      var j :| 0 <= j < SLOTS && c.slots[j] == q;
      assert Idle(c, j);
    }
    assert Oldest(c, v);
  }

  /** Making room removes exactly those, and empties their slot. */
  lemma RoomEffect(c: Cache)
    requires Wf(c)
    ensures var d := MakeRoom(c);
            && d == c.(mem := d.mem, slots := d.slots)
            && d.mem.Keys == c.mem.Keys - Gone(c) && (forall q :: q in d.mem ==> d.mem[q] == c.mem[q])
            && |d.slots| == SLOTS
            && forall i :: 0 <= i < SLOTS ==> d.slots[i] == if c.slots[i] in Gone(c) then NULL else c.slots[i]
  {
    StuckMeans(c);
    if Full(c) && !Stuck(c) { VictimOldest(c); }
  }

  /** Slot `k` is the first that is empty or emptied. */
  ghost predicate FirstFree(c: Cache, k: nat)
    requires Sane(c)
  {
    && k < SLOTS && (c.slots[k] == NULL || c.slots[k] in Gone(c))
    && forall i :: 0 <= i < k ==> c.slots[i] != NULL && c.slots[i] !in Gone(c)
  }

  /** A miss that is granted a block at `a.ptr`: the oldest unreferenced block makes way if the table
      has filled up; the new block is clean, has the requested size, one reference and the new
      time, and takes the first free slot; nothing else changes. */
  lemma MissEffect(c: Cache, id: int, size: int, a: Alloc)
    requires Wf(c) && FreshAlloc(c, a) && Room(c, id) && !Cached(c, id) && a.Granted?
    requires !Full(c) || SomeUnreferenced(c)
    ensures var (d, p) := Get(c, id, size, a);
            && p == a.ptr && d.mem.Keys == c.mem.Keys - Gone(c) + {p}
            && d.mem[p] == Block(id, size, false, 1, c.clock + 1)
            && (forall q :: q in d.mem && q != p ==> d.mem[q] == c.mem[q])
            && d.clock == c.clock + 1 && d.hits == c.hits && d.misses == (c.misses + 1) % U64
            && exists k: nat :: FirstFree(c, k) && d.count == (if k < c.count then c.count else k + 1)
                           && d.slots == MakeRoom(c).slots[k := p]
  {
    FindComplete(c, id);
    StuckMeans(c);
    RoomEffect(c);
    RoomHasSlot(c);
    assert FirstFree(c, EmptySlot(MakeRoom(c).slots, 0));
  }

  /** A miss that fails still makes room if it can, counts as a miss, and changes nothing else. */
  lemma FailedMissEffect(c: Cache, id: int, size: int, a: Alloc)
    requires Wf(c) && !Cached(c, id)
    requires !a.Granted? || (Full(c) && !SomeUnreferenced(c))
    ensures Get(c, id, size, a) == (MakeRoom(c).(misses := (c.misses + 1) % U64), NULL)
    ensures Full(c) && !SomeUnreferenced(c) ==> MakeRoom(c) == c
  {
    FindComplete(c, id);
    StuckMeans(c);
  }

  // ---------------------------------------------------------------- the other operations

  /** A release takes one reference from one block, if it has any, and does nothing else. */
  lemma ReleaseEffect(c: Cache, p: int)
    requires p in c.mem
    ensures var d, b := Release(c, p), c.mem[p];
            && d == c.(mem := d.mem) && d.mem.Keys == c.mem.Keys
            && forall q :: q in c.mem ==>
                 d.mem[q] == if q == p && b.refs > 0 then Block(b.id, b.size, b.dirty, b.refs - 1, b.stamp) else c.mem[q]
  {}

  /** Marking makes one block dirty and writing back makes it clean; nothing else changes. */
  lemma FlagEffect(c: Cache, p: int, dirty: bool)
    requires p in c.mem
    ensures var d, b := SetDirty(c, p, dirty), c.mem[p];
            && d == c.(mem := d.mem) && d.mem.Keys == c.mem.Keys
            && forall q :: q in c.mem ==>
                 d.mem[q] == if q == p then Block(b.id, b.size, dirty, b.refs, b.stamp) else c.mem[q]
  {}

  // ---------------------------------------------------------------- dirty flags over runs

  /** The flag of the block at `p` after one operation, if it was `dirty` before. */
  function FlagAfter(dirty: bool, op: Op, p: int): bool {
    match op
    case DirtyOp(q) => dirty || q == p
    case SyncOp(q) => dirty && q != p
    case SyncAllOp => false
    case _ => dirty
  }

  function FlagAfterAll(dirty: bool, ops: seq<Op>, p: int): bool
    decreases |ops|
  {
    if ops == [] then dirty else FlagAfterAll(FlagAfter(dirty, ops[0], p), ops[1..], p)
  }

  lemma StepFlag(c: Cache, held: multiset<int>, op: Op, p: int)
    requires Wf(c) && Pinned(c, held) && Legal(c, held, op) && p in held
    ensures p in c.mem && p in Step(c, op).mem && Step(c, op).mem[p].dirty == FlagAfter(c.mem[p].dirty, op, p)
  {
    match op
    case GetOp(id, size, a) => GetFlag(c, held, id, size, a, p);
    case ReleaseOp(q) => ReleaseEffect(c, q);
    case DirtyOp(q) => FlagEffect(c, q, true);
    case SyncOp(q) => FlagEffect(c, q, false);
    case SyncAllOp => SyncAllCleans(c);
  }

  lemma GetFlag(c: Cache, held: multiset<int>, id: int, size: int, a: Alloc, p: int)
    requires Wf(c) && Pinned(c, held) && FreshAlloc(c, a) && Room(c, id) && p in held
    ensures p in c.mem && p in Get(c, id, size, a).0.mem
    ensures Get(c, id, size, a).0.mem[p].dirty == c.mem[p].dirty
  {
    if Cached(c, id) {
      HitEffect(c, id, size, a);
    } else {
      RoomEffect(c);
      assert p !in Gone(c) && p in MakeRoom(c).mem;
      if a.Granted? && (!Full(c) || SomeUnreferenced(c)) {
        MissEffect(c, id, size, a);
      } else {
        FailedMissEffect(c, id, size, a);
      }
    }
  }

  /** Over every run, a block that stays held is dirty exactly when it was marked after it was last
      written back, whatever gets, releases and evictions happen in between. */
  lemma {:induction false} RunFlag(c: Cache, held: multiset<int>, ops: seq<Op>, p: int)
    requires Wf(c) && Pinned(c, held) && LegalRun(c, held, ops) && HeldThroughout(c, held, ops, p)
    ensures p in c.mem && p in Run(c, ops).mem
    ensures Run(c, ops).mem[p].dirty == FlagAfterAll(c.mem[p].dirty, ops, p)
    decreases |ops|
  {
    if ops != [] {
      StepPinned(c, held, ops[0]);
      StepFlag(c, held, ops[0], p);
      RunFlag(Step(c, ops[0]), Handles(c, held, ops[0]), ops[1..], p);
    }
  }
}
