/**
 The block cache as a value: 256 slots of pointers to cached blocks, reference counts and
 timestamps. Blocks are named by their address, with 0 for NULL.
 */
module CacheSpec {
  import opened Machine
  import opened SeqFacts

  const SLOTS := 256
  /** The starting value of the search for the oldest block. */
  const NEVER := U64 - 1

  datatype Block = Block(id: int, size: int, dirty: bool, refs: int, stamp: int)

  datatype Cache = Cache(
    mem: map<int, Block>,
    slots: seq<int>,
    count: nat,
    hits: int,
    misses: int,
    clock: int)

  /** What the allocator answers to a miss: no block, a block but no data buffer, or both. */
  datatype Alloc = NoBlock | NoData | Granted(ptr: int)

  /** No dangling slot. */
  ghost predicate Sane(c: Cache) {
    && |c.slots| == SLOTS && c.count <= SLOTS
    && NULL !in c.mem
    && (forall i :: 0 <= i < SLOTS ==> c.slots[i] == NULL || c.slots[i] in c.mem)
  }

  function Empty(): Cache { Cache(map[], seq(SLOTS, i => NULL), 0, 0, 0, 0) }

  // ---------------------------------------------------------------- look-up

  predicate Holds(c: Cache, i: nat, id: int)
    requires Sane(c) && i < SLOTS
  {
    c.slots[i] != NULL && c.mem[c.slots[i]].id == id
  }

  /** `find_cache_block`, from slot `i` on. */
  function Find(c: Cache, id: int, i: nat): (p: int)
    requires Sane(c)
    ensures p != NULL ==> p in c.mem && c.mem[p].id == id && p in c.slots
    ensures p == NULL ==> forall j :: i <= j < c.count ==> !Holds(c, j, id)
    decreases c.count - i
  {
    if i >= c.count then NULL
    else if Holds(c, i, id) then c.slots[i]
    else Find(c, id, i + 1)
  }

  // ---------------------------------------------------------------- eviction

  /** Slot `i` holds a block nobody references. */
  predicate Idle(c: Cache, i: nat)
    requires Sane(c)
  {
    i < SLOTS && c.slots[i] != NULL && c.mem[c.slots[i]].refs == 0 && c.mem[c.slots[i]].stamp < NEVER
  }

  function StampAt(c: Cache, i: nat): int
    requires Sane(c) && Idle(c, i)
  {
    c.mem[c.slots[i]].stamp
  }

  /** Slot `v` holds the unreferenced block with the smallest timestamp, the first such one;
      -1 says there is none. */
  ghost predicate IsVictim(c: Cache, n: nat, v: int)
    requires Sane(c)
  {
    if v < 0 then v == -1 && forall j :: 0 <= j < n ==> !Idle(c, j)
    else
      && v < n && Idle(c, v)
      && forall j :: 0 <= j < n && Idle(c, j) ==>
           StampAt(c, v) < StampAt(c, j) || (StampAt(c, v) == StampAt(c, j) && v <= j)
  }

  function Victim(c: Cache, n: nat): (v: int)
    requires Sane(c)
    ensures IsVictim(c, n, v)
  {
    if n == 0 then -1
    else
      var v := Victim(c, n - 1);
      if Idle(c, n - 1) && (v < 0 || StampAt(c, n - 1) < StampAt(c, v)) then n - 1 else v
  }

  predicate Full(c: Cache) { c.count >= SLOTS }

  /** Every slot below the count that is in use is referenced. */
  predicate Stuck(c: Cache)
    requires Sane(c)
  {
    Full(c) && Victim(c, c.count) < 0
  }

  /** The cache after making room, when room can be made. */
  function MakeRoom(c: Cache): Cache
    requires Sane(c)
  {
    if !Full(c) || Stuck(c) then c
    else
      var v := Victim(c, c.count);
      c.(mem := c.mem - {c.slots[v]}, slots := c.slots[v := NULL])
  }

  /** The allocator never hands out an address that is in use, but it may reuse the one
      that was just evicted. */
  ghost predicate FreshAlloc(c: Cache, a: Alloc)
    requires Sane(c)
  {
    a.Granted? ==> a.ptr != NULL && a.ptr !in MakeRoom(c).mem
  }

  /** Entering a new block, referenced once. */
  function Insert(c: Cache, id: int, size: int, p: int): Cache
    requires |c.slots| == SLOTS
  {
    var t := (c.clock + 1) % U64;
    var k := EmptySlot(c.slots, 0);
    c.(mem := c.mem[p := Block(id, size, false, 1, t)],
       slots := if k < SLOTS then c.slots[k := p] else c.slots,
       count := if c.count <= k < SLOTS then k + 1 else c.count,
       clock := t)
  }

  /** `allocate_cache_block` */
  function Allocate(c: Cache, id: int, size: int, a: Alloc): (Cache, int)
    requires Sane(c)
  {
    if Stuck(c) then (c, NULL)
    else if !a.Granted? then (MakeRoom(c), NULL)
    else (Insert(MakeRoom(c), id, size, a.ptr), a.ptr)
  }

  // ---------------------------------------------------------------- operations

  /** A hit: newest timestamp, one more reference. */
  function Touch(c: Cache, p: int): Cache
    requires p in c.mem
  {
    var t := (c.clock + 1) % U64;
    c.(hits := (c.hits + 1) % U64, clock := t,
       mem := c.mem[p := c.mem[p].(stamp := t, refs := (c.mem[p].refs + 1) % U32)])
  }

  /** `cache_get_block` */
  function Get(c: Cache, id: int, size: int, a: Alloc): (Cache, int)
    requires Sane(c)
  {
    var p := Find(c, id, 0);
    if p != NULL then (Touch(c, p), p)
    else
      var (d, q) := Allocate(c, id, size, a);
      (d.(misses := (d.misses + 1) % U64), q)
  }

  /** `cache_release_block` */
  function Release(c: Cache, p: int): Cache
    requires p in c.mem
  {
    if c.mem[p].refs > 0 then c.(mem := c.mem[p := c.mem[p].(refs := c.mem[p].refs - 1)]) else c
  }

  /** `cache_mark_dirty` and `cache_sync_block` */
  function SetDirty(c: Cache, p: int, dirty: bool): Cache
    requires p in c.mem
  {
    c.(mem := c.mem[p := c.mem[p].(dirty := dirty)])
  }

  /** `cache_sync_all` */
  function SyncAll(c: Cache): Cache
    requires Sane(c)
  {
    c.(mem := map p | p in c.mem :: if p in c.slots[..c.count] then c.mem[p].(dirty := false) else c.mem[p])
  }
}
