/**
 The block cache as the program keeps it: a table of 256 pointers scanned by loops, with
 blocks and counters rewritten in place. Every operation is proved to compute the
 corresponding operation of `CacheSpec`.
 */
module BlockCache {
  import opened Machine
  import opened SeqFacts
  import opened CacheSpec
  import CacheTheory

  /** `cache_sync_all` after the slots below `i`. */
  ghost function Partly(c: Cache, i: nat): Cache
    requires Sane(c) && i <= SLOTS
  {
    c.(mem := map p | p in c.mem :: if p in c.slots[..i] then c.mem[p].(dirty := false) else c.mem[p])
  }

  lemma PartlyStep(c: Cache, i: nat)
    requires Sane(c) && i < SLOTS
    ensures var d, p := Partly(c, i), c.slots[i];
            Partly(c, i + 1) == if p != NULL then SetDirty(d, p, false) else d
  {}

  lemma {:induction false} VictimIgnoresMisses(c: Cache, m: int, n: nat)
    requires Sane(c)
    ensures Victim(c.(misses := m), n) == Victim(c, n)
  {
    if n > 0 { VictimIgnoresMisses(c, m, n - 1); }
  }

  /** The miss counter plays no part in an allocation. */
  lemma AllocateIgnoresMisses(c: Cache, m: int, id: int, size: int, a: Alloc)
    requires Sane(c)
    ensures FreshAlloc(c, a) ==> FreshAlloc(c.(misses := m), a)
    ensures var (d, p) := Allocate(c, id, size, a); Allocate(c.(misses := m), id, size, a) == (d.(misses := m), p)
  {
    VictimIgnoresMisses(c, m, c.count);
  }

  class CacheManager {
    var mem: map<int, Block>
    const blocks: array<int>
    var blockCount: nat
    var hitCount: int
    var missCount: int
    var accessTime: int

    ghost function View(): Cache
      reads this, blocks
    {
      Cache(mem, blocks[..], blockCount, hitCount, missCount, accessTime)
    }

    ghost predicate Valid()
      reads this, blocks
    {
      CacheTheory.Slotted(View())
    }

    /** `cache_init` */
    constructor ()
      ensures Valid() && fresh(blocks) && View() == Empty()
    {
      blocks := new int[SLOTS](i => NULL);
      mem, blockCount, hitCount, missCount, accessTime := map[], 0, 0, 0, 0;
      new;
      assert blocks[..] == Empty().slots;
    }

    method FindCacheBlock(id: int) returns (p: int)
      requires Valid()
      ensures p == Find(View(), id, 0)
    {
      var i := 0;
      while i < blockCount
        invariant 0 <= i <= blockCount && Find(View(), id, 0) == Find(View(), id, i)
      {
        if blocks[i] != NULL && mem[blocks[i]].id == id { return blocks[i]; }
        i := i + 1;
      }
      return NULL;
    }

    /** The search of `allocate_cache_block` for the block to evict. */
    method FindOldest() returns (v: int)
      requires Valid()
      ensures v == Victim(View(), blockCount)
      ensures IsVictim(View(), blockCount, v)
    {
      var oldest := NEVER;
      v := -1;
      for i := 0 to blockCount
        invariant v == Victim(View(), i) && v < i
        invariant oldest == if v < 0 then NEVER else mem[blocks[v]].stamp
      {
        var p := blocks[i];
        if p != NULL && mem[p].refs == 0 && mem[p].stamp < oldest {
          oldest := mem[p].stamp;
          v := i;
        }
      }
    }

    /** The eviction in `allocate_cache_block`; reports whether there is room now. */
    method Evict() returns (ok: bool)
      requires Valid()
      modifies this`mem, blocks
      ensures Valid() && View() == MakeRoom(old(View()))
      ensures ok == !Stuck(old(View()))
    {
      CacheTheory.RoomSlotted(View());
      if blockCount >= SLOTS {
        var v := FindOldest();
        if v == -1 { return false; }
        mem := mem - {blocks[v]};
        blocks[v] := NULL;
      }
      return true;
    }

    /** The end of `allocate_cache_block`. */
    method Enter(id: int, size: int, p: int)
      requires Valid() && p != NULL && p !in mem
      requires EmptySlot(blocks[..], 0) < SLOTS && (!Full(View()) ==> EmptySlot(blocks[..], 0) == blockCount)
      modifies this`mem, this`blockCount, this`accessTime, blocks
      ensures Valid() && View() == Insert(old(View()), id, size, p)
    {
      CacheTheory.InsertSlotted(View(), id, size, p);
      accessTime := (accessTime + 1) % U64;
      mem := mem[p := Block(id, size, false, 1, accessTime)];
      var i := 0;
      while i < SLOTS && blocks[i] != NULL
        invariant 0 <= i <= SLOTS
        invariant forall j :: 0 <= j < i ==> blocks[j] != NULL
      {
        i := i + 1;
      }
      EmptySlotIs(blocks[..], i);
      if i < SLOTS {
        blocks[i] := p;
        if i >= blockCount { blockCount := i + 1; }
      }
    }

    method AllocateCacheBlock(id: int, size: int, a: Alloc) returns (p: int)
      requires Valid() && FreshAlloc(View(), a)
      modifies this`mem, this`blockCount, this`accessTime, blocks
      ensures Valid() && View() == Allocate(old(View()), id, size, a).0
      ensures p == Allocate(old(View()), id, size, a).1
    {
      ghost var c := View();
      var ok := Evict();
      if !ok || !a.Granted? { return NULL; }
      CacheTheory.RoomHasSlot(c);
      Enter(id, size, a.ptr);
      return a.ptr;
    }

    /** The hit path of `cache_get_block`. */
    method Hit(p: int)
      requires Valid() && p in mem
      modifies this`mem, this`hitCount, this`accessTime
      ensures Valid() && View() == Touch(old(View()), p)
    {
      hitCount := (hitCount + 1) % U64;
      accessTime := (accessTime + 1) % U64;
      mem := mem[p := mem[p].(stamp := accessTime)];
      mem := mem[p := mem[p].(refs := (mem[p].refs + 1) % U32)];
      assert mem == Touch(old(View()), p).mem;
    }

    /** The miss path of `cache_get_block`. */
    method Miss(id: int, size: int, a: Alloc) returns (p: int)
      requires Valid() && FreshAlloc(View(), a)
      modifies this`mem, this`blockCount, this`missCount, this`accessTime, blocks
      ensures Valid()
      ensures var (c, q) := Allocate(old(View()), id, size, a);
              View() == c.(misses := (c.misses + 1) % U64) && p == q
    {
      AllocateIgnoresMisses(View(), (missCount + 1) % U64, id, size, a);
      missCount := (missCount + 1) % U64;
      p := AllocateCacheBlock(id, size, a);
    }

    method CacheGetBlock(id: int, size: int, a: Alloc) returns (p: int)
      requires Valid() && FreshAlloc(View(), a)
      modifies this, blocks
      ensures Valid() && View() == Get(old(View()), id, size, a).0
      ensures p == Get(old(View()), id, size, a).1
    {
      p := FindCacheBlock(id);
      if p != NULL {
        Hit(p);
      } else {
        p := Miss(id, size, a);
      }
    }

    method CacheReleaseBlock(p: int)
      requires Valid() && (p == NULL || p in mem)
      modifies this`mem
      ensures Valid() && View() == if p == NULL then old(View()) else Release(old(View()), p)
    {
      if p == NULL { return; }
      if mem[p].refs > 0 { mem := mem[p := mem[p].(refs := mem[p].refs - 1)]; }
    }

    method CacheMarkDirty(p: int)
      requires Valid() && (p == NULL || p in mem)
      modifies this`mem
      ensures Valid() && View() == if p == NULL then old(View()) else SetDirty(old(View()), p, true)
    {
      if p != NULL { mem := mem[p := mem[p].(dirty := true)]; }
    }

    method CacheSyncBlock(p: int) returns (ret: int)
      requires Valid() && (p == NULL || p in mem)
      modifies this`mem
      ensures Valid() && ret == 0
      ensures View() == if p == NULL then old(View()) else SetDirty(old(View()), p, false)
    {
      if p == NULL || !mem[p].dirty {
        if p != NULL { assert mem == mem[p := mem[p].(dirty := false)]; }
        return 0;
      }
      mem := mem[p := mem[p].(dirty := false)];
      return 0;
    }

    method CacheSyncAll() returns (ret: int)
      requires Valid()
      modifies this`mem
      ensures Valid() && ret == 0 && View() == SyncAll(old(View()))
    {
      ghost var c := View();
      assert Partly(c, 0).mem == mem;
      var i := 0;
      while i < blockCount
        invariant 0 <= i <= blockCount && Valid() && View() == Partly(c, i)
      {
        PartlyStep(c, i);
        var p := blocks[i];
        if p != NULL && mem[p].dirty {
          ret := CacheSyncBlock(p);
          if ret != 0 { return; }
        } else if p != NULL {
          assert mem == mem[p := mem[p].(dirty := false)];
        }
        i := i + 1;
      }
      return 0;
    }

    /** Any operation of a run in which clients use only the handles they hold. */
    method Do(op: CacheTheory.Op, ghost held: multiset<int>) returns (p: int)
      requires Valid() && CacheTheory.Pinned(View(), held) && CacheTheory.Legal(View(), held, op)
      modifies this, blocks
      ensures Valid() && View() == CacheTheory.Step(old(View()), op)
      ensures op.GetOp? ==> p == Get(old(View()), op.id, op.size, op.alloc).1
    {
      p := NULL;
      match op
      case GetOp(id, size, a) => p := CacheGetBlock(id, size, a);
      case ReleaseOp(q) => CacheReleaseBlock(q);
      case DirtyOp(q) => CacheMarkDirty(q);
      case SyncOp(q) => var ret := CacheSyncBlock(q);
      case SyncAllOp => var ret := CacheSyncAll();
    }
  }
}
