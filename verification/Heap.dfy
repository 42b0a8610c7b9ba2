/**
 The kernel heap as the program keeps it. Headers live in memory, inside the region they
 manage, and point at each other by address; splitting and two-sided coalescing rewrite
 them in place. Every operation is proved to compute the corresponding operation of
 `HeapSpec`, and `kfree` also to do to memory what `HeapMemory` says for any header.
 */
module Heap {
  import opened Machine
  import opened SeqFacts
  import opened HeapSpec
  import opened HeapMemory
  import HeapTheory

  /** The start and the size that `heap_init` computes. */
  function RawStart(start: nat): int {
    if start % 16 == 0 then start else (start + (16 - start % 16)) % U64
  }

  function RawSize(start: nat, size: nat): int {
    var z := if start % 16 == 0 then size else (size - (16 - start % 16)) % U64;
    z - z % 16
  }

  /** The numbers `heap_init` stores describe one block that fills the region. */
  ghost predicate FillsRegion(s: int, z: int) {
    var stored := Trunc32((z - HEADER) % U64);
    && 0 < s && (s + z) % U64 - s == z && z - HEADER < U32 && s < (s + z) % U64
    && s + HEADER + stored == (s + z) % U64 && stored % 16 == 0 && z == stored + HEADER
  }

  lemma SingleHeader(m: Memory, s: int, stored: int)
    requires m == map[s := Header(stored, HEAP_MAGIC, true, NULL, NULL)]
    ensures Linked(m, [s]) <==> s != NULL
    ensures Blocks(m, [s]) == [Block(s, stored, true)]
  {
    assert LinksAt(m, [s], 0);
  }

  lemma SingleWellFormed(s: int, stored: int, z: int, e: int)
    ensures WellFormed(State([Block(s, stored, true)], z), s, e) <==>
            && s < e && s + HEADER + stored == e && s % 16 == 0 && stored % 16 == 0 && 0 <= stored
            && z == stored + HEADER
  {
    HeapTheory.BytesOne(Block(s, stored, true));
  }

  /** What `heap_init` writes is a sound heap exactly when its numbers are right. */
  lemma InitialSound(r: Raw, s: int, z: int)
    requires s % 16 == 0
    requires r == Raw(map[s := Header(Trunc32((z - HEADER) % U64), HEAP_MAGIC, true, NULL, NULL)], s, z)
    ensures var e := (s + z) % U64;
            (0 < s && e - s == z && z - HEADER < U32 && Sound(r, [s], s, e) && Abuts(r.memory, s, e)) <==> FillsRegion(s, z)
    ensures FillsRegion(s, z) ==> State(Blocks(r.memory, [s]), z) == Initial(s, (s + z) % U64)
  {
    var stored := Trunc32((z - HEADER) % U64);
    SingleHeader(r.memory, s, stored);
    SingleWellFormed(s, stored, z, (s + z) % U64);
  }

  lemma Wrap(x: int)
    requires -U64 <= x < 2 * U64
    ensures x % U64 == if x < 0 then x + U64 else if x < U64 then x else x - U64
  {}

  lemma FillsIff(s: int, z: int)
    requires 0 <= s < U64 && 0 <= z < U64 && z % 16 == 0
    ensures FillsRegion(s, z) <==> 0 < s && s + z < U64 && HEADER <= z && z - HEADER < U32
  {
    Wrap(s + z);
    Wrap(z - HEADER);
    if HEADER <= z && z - HEADER < U32 { assert Trunc32(z - HEADER) == z - HEADER; }
  }

  /** Distance from `start` up to the next multiple of 16. */
  function Pad(start: nat): (p: nat)
    ensures p < 16 && (start + p) % 16 == 0
  {
    if start % 16 == 0 then 0 else 16 - start % 16
  }

  lemma RawIs(start: nat, size: nat)
    requires start < U64 && size < U64
    ensures AlignedStart(start) == start + Pad(start)
    ensures AlignedSize(start, size) == (size - Pad(start)) - (size - Pad(start)) % 16
    ensures RawStart(start) == if start + Pad(start) < U64 then start + Pad(start) else 0
    ensures size >= Pad(start) ==> RawSize(start, size) == AlignedSize(start, size)
    ensures size < Pad(start) ==> RawSize(start, size) == U64 - 16
  {
    Wrap(start + Pad(start));
    Wrap(size - Pad(start));
  }

  lemma AlignedEnd(start: nat, size: nat, p: nat)
    requires (start + p) % 16 == 0
    ensures (start + p) + (size - p) - (size - p) % 16 == start + size - (start + size) % 16
  {
    assert ((start + p) + (size - p)) % 16 == (size - p) % 16;
  }

  lemma RegionIff(start: nat, size: nat)
    requires start < U64 && size < U64
    ensures RawStart(start) % 16 == 0
    ensures FillsRegion(RawStart(start), RawSize(start, size)) <==> RegionOk(start, size)
    ensures RegionOk(start, size) ==>
              RawStart(start) == AlignedStart(start) && RawSize(start, size) == AlignedSize(start, size)
  {
    RawIs(start, size);
    AlignedEnd(start, size, Pad(start));
    FillsIff(RawStart(start), RawSize(start, size));
  }

  lemma FirstFitIs(bs: seq<Block>, n: int, k: nat)
    requires k <= |bs|
    requires forall j :: 0 <= j < k ==> !(bs[j].free && n <= bs[j].size)
    requires k < |bs| ==> bs[k].free && n <= bs[k].size
    ensures FirstFit(bs, n) == k
  {}

  /** A header placed inside the payload of a block overlaps no header of the list. */
  lemma NoHeaderInside(bs: seq<Block>, lo: int, hi: int, k: nat, a: int)
    requires Layout(bs, lo, hi) && k < |bs| && bs[k].Payload() <= a && a + HEADER <= bs[k].End()
    ensures forall j :: 0 <= j < |bs| ==> bs[j].addr + HEADER <= a || a + HEADER <= bs[j].addr
  {
    forall j | 0 <= j < |bs| ensures bs[j].addr + HEADER <= a || a + HEADER <= bs[j].addr {
      if j < k { Ordered(bs, lo, hi, j, k); }
      if k < j { Ordered(bs, lo, hi, k, j); }
    }
  }

  /** What `kmalloc` is about to do to the block it found. */
  lemma KmallocPlan(s: State, lo: int, hi: int, k: nat, n: int)
    requires WellFormed(s, lo, hi) && 0 <= lo && k < |s.blocks|
    requires s.blocks[k].free && 0 <= n <= s.blocks[k].size && n % 16 == 0
    ensures var c := Carve(s.blocks[k], n);
            WellFormed(State(s.blocks[..k] + c + s.blocks[k + 1..], s.freeSize - (c[0].size + HEADER)), lo, hi)
    ensures lo <= s.blocks[k].addr && s.blocks[k].size <= hi - lo - HEADER
    ensures s.blocks[k].size > n + HEADER ==>
              var a := s.blocks[k].Payload() + n;
              forall j :: 0 <= j < |s.blocks| ==> s.blocks[j].addr + HEADER <= a || a + HEADER <= s.blocks[j].addr
  {
    HeapTheory.TakeMeaning(s, lo, hi, k, n);
    Inside(s.blocks, lo, hi, k);
    if s.blocks[k].size > n + HEADER {
      NoHeaderInside(s.blocks, lo, hi, k, s.blocks[k].addr + HEADER + n);
    }
  }

  lemma PlanClear(m: Memory, list: seq<int>, k: nat, n: int)
    requires Linked(m, list) && k < |list|
    requires var bs := Blocks(m, list);
             bs[k].size > n + HEADER ==>
               var a := bs[k].Payload() + n;
               forall j :: 0 <= j < |bs| ==> bs[j].addr + HEADER <= a || a + HEADER <= bs[j].addr
    ensures m[list[k]].size > n + HEADER ==> Clear(list, list[k] + HEADER + n)
  {
    var bs := Blocks(m, list);
    assert forall j :: 0 <= j < |list| ==> bs[j].addr == list[j];
    assert bs[k].size == m[list[k]].size;
  }

  /** Splitting, if at all, and then marking the block is carving it. */
  lemma SplitThenMark(bs: seq<Block>, k: nat, n: int)
    requires k < |bs| && bs[k].free
    ensures bs[k].size <= n + HEADER + 16 ==>
              bs[k := bs[k].(free := false)] == bs[..k] + Carve(bs[k], n) + bs[k + 1..]
    ensures bs[k].size > n + HEADER + 16 ==>
              Parted(bs, k, n)[k := Block(bs[k].addr, n, false)] == bs[..k] + Carve(bs[k], n) + bs[k + 1..]
  {}

  class HeapManager {
    var firstBlock: int
    var lastBlock: int
    var heapStart: int
    var heapEnd: int
    var heapSize: int
    var freeSize: int
    var memory: Memory
    /** The addresses of the headers on the list. */
    ghost var list: seq<int>

    ghost predicate Shape()
      reads this
    {
      Shaped(memory, firstBlock, lastBlock, list)
    }

    ghost function Contents(): State
      requires Shape()
      reads this
    {
      State(Blocks(memory, list), freeSize)
    }

    ghost function Bare(): Raw
      reads this
    {
      Raw(memory, lastBlock, freeSize)
    }

    ghost predicate Valid()
      reads this
    {
      && firstBlock == heapStart && 0 < heapStart && heapStart % 16 == 0
      && heapEnd - heapStart == heapSize && heapSize - HEADER < U32
      && Sound(Bare(), list, heapStart, heapEnd)
      && Apart(memory) && Abuts(memory, heapStart, heapEnd)
    }

    /** `heap_init`, in 64-bit arithmetic. The heap it leaves is sound exactly when the region
        does not start at NULL, does not wrap, holds a header and fits the size field. */
    constructor (start: nat, size: nat)
      requires start < U64 && size < U64
      ensures ListedMagic(memory, list)
      ensures Valid() <==> RegionOk(start, size)
      ensures Valid() ==> heapStart == AlignedStart(start) && heapSize == AlignedSize(start, size)
      ensures Valid() ==> Contents() == Initial(heapStart, heapEnd)
    {
      var s, z := start, size;
      if s % 16 != 0 {
        var adjust := 16 - s % 16;
        s := (s + adjust) % U64;
        z := (z - adjust) % U64;
      }
      z := z - z % 16;
      heapStart, heapEnd, heapSize, freeSize := s, (s + z) % U64, z, z;
      memory := map[s := Header(Trunc32((z - HEADER) % U64), HEAP_MAGIC, true, NULL, NULL)];
      firstBlock, lastBlock := s, s;
      list := [s];
      new;
      assert s == RawStart(start) && z == RawSize(start, size);
      RegionIff(start, size);
      InitialSound(Bare(), s, z);
    }

    /** The stores of a split. The new header's bytes destroy merged-away headers they overlap. */
    method CutHeaders(b: int, n: int)
      requires CanCut(memory, b, n)
      modifies this`lastBlock, this`memory
      ensures memory == Cut(old(memory), b, n)
      ensures lastBlock == if old(memory[b].next) == NULL then b + HEADER + n else old(lastBlock)
    {
      var a := b + HEADER + n;
      memory := Write(memory, a, Header(Trunc32(memory[b].size - n - HEADER), HEAP_MAGIC, true, memory[b].next, b));
      memory := memory[b := memory[b].(size := n, next := a)];
      var next := memory[a].next;
      if next != NULL {
        memory := memory[next := memory[next].(prev := a)];
      } else {
        lastBlock := a;
      }
    }

    /** The part of `kmalloc` that cuts a new free block off the end of the block at `b`. */
    method Split(b: int, n: int, ghost i: nat)
      requires Shape() && i < |list| && list[i] == b && memory[b].isFree
      requires 0 <= n && n + HEADER + 16 < memory[b].size < U32
      requires Clear(list, b + HEADER + n) && b + HEADER + n != NULL
      modifies this`lastBlock, this`memory, this`list
      ensures Shape()
      ensures i < |list| && list[i] == b && memory[b].size == n
      ensures Blocks(memory, list) == Parted(old(Blocks(memory, list)), i, n)
      ensures Keeps(old(memory), memory, heapStart, heapEnd)
      ensures ListedMagic(old(memory), old(list)) ==> ListedMagic(memory, list)
    {
      ClearCanCut(memory, list, i, n);
      CutKeepsAll(memory, heapStart, heapEnd, b, n);
      CutHeaders(b, n);
      list := list[..i + 1] + [b + HEADER + n] + list[i + 1..];
      CutShape(old(memory), firstBlock, old(lastBlock), old(list), i, n, memory, list);
    }

    /** The size test of `kmalloc` and the split it guards. */
    method SplitIfLarge(b: int, n: int, ghost k: nat)
      requires Shape() && k < |list| && list[k] == b && memory[b].isFree && 0 <= n <= memory[b].size < U32
      requires memory[b].size > n + HEADER ==> Clear(list, b + HEADER + n) && b + HEADER + n != NULL
      modifies this`lastBlock, this`memory, this`list
      ensures Shape() && k < |list| && list[k] == b
      ensures memory[b].size == Carve(old(Blocks(memory, list))[k], n)[0].size
      ensures var bs, now := old(Blocks(memory, list)), Blocks(memory, list);
              now[k := now[k].(free := false)] == bs[..k] + Carve(bs[k], n) + bs[k + 1..]
      ensures Keeps(old(memory), memory, heapStart, heapEnd)
      ensures ListedMagic(old(memory), old(list)) ==> ListedMagic(memory, list)
    {
      SplitThenMark(Blocks(memory, list), k, n);
      if memory[b].size > n + HEADER + 16 {
        Split(b, n, k);
      }
    }

    /** Splitting, marking and charging, on the linked list alone. */
    method CarveOut(b: int, n: int, ghost k: nat)
      requires Shape() && k < |list| && list[k] == b && memory[b].isFree && 0 <= n <= memory[b].size < U32
      requires memory[b].size > n + HEADER ==> Clear(list, b + HEADER + n) && b + HEADER + n != NULL
      modifies this`lastBlock, this`memory, this`list, this`freeSize
      ensures Shape()
      ensures var bs := old(Blocks(memory, list));
              var c := Carve(bs[k], n);
              Contents() == State(bs[..k] + c + bs[k + 1..], old(freeSize) - (c[0].size + HEADER))
      ensures Keeps(old(memory), memory, heapStart, heapEnd)
      ensures ListedMagic(old(memory), old(list)) ==> ListedMagic(memory, list)
    {
      SplitIfLarge(b, n, k);
      MarkKeeps(memory, list, k, false);
      MarkKeepsAll(memory, heapStart, heapEnd, b, false);
      memory := memory[b := memory[b].(isFree := false)];
      freeSize := freeSize - (memory[b].size + HEADER);
    }

    /** The part of `kmalloc` that hands out the block at `b`, found for `n` bytes. */
    method Take(b: int, n: int, ghost k: nat)
      requires Valid() && k < |list| && list[k] == b
      requires memory[b].isFree && 0 <= n <= memory[b].size && n % 16 == 0
      modifies this`lastBlock, this`memory, this`list, this`freeSize
      ensures Valid()
      ensures var bs := old(Contents()).blocks;
              var c := Carve(bs[k], n);
              Contents() == State(bs[..k] + c + bs[k + 1..], old(freeSize) - (c[0].size + HEADER))
      ensures ListedMagic(old(memory), old(list)) ==> ListedMagic(memory, list)
    {
      KmallocPlan(Contents(), heapStart, heapEnd, k, n);
      PlanClear(memory, list, k, n);
      CarveOut(b, n, k);
    }

    /** The list walk of `kmalloc`. */
    method FindFit(n: int) returns (c: int)
      requires Shape()
      ensures var i := FirstFit(Contents().blocks, n); c == if i < |list| then list[i] else NULL
    {
      c := firstBlock;
      ghost var k: nat := 0;
      ghost var bs := Contents().blocks;
      while c != NULL && !(memory[c].isFree && memory[c].size >= n)
        invariant k <= |list|
        invariant c == if k < |list| then list[k] else NULL
        invariant forall j :: 0 <= j < k ==> !(bs[j].free && n <= bs[j].size)
        decreases |list| - k
      {
        assert LinksAt(memory, list, k);
        c := memory[c].next;
        k := k + 1;
      }
      FirstFitIs(bs, n, k);
    }

    method Kmalloc(size: nat) returns (ptr: int)
      requires Valid() && size < U64
      modifies this`lastBlock, this`memory, this`list, this`freeSize
      ensures Valid()
      ensures Contents() == HeapSpec.Kmalloc(old(Contents()), size).0
      ensures ptr == HeapSpec.Kmalloc(old(Contents()), size).1
      ensures ListedMagic(old(memory), old(list)) ==> ListedMagic(memory, list)
    {
      var n := Round16(size);
      var current := FindFit(n);
      if current == NULL { return NULL; }
      ghost var k := FirstFit(Contents().blocks, n);
      assert Contents().blocks[k] == BlockAt(memory, current);
      Take(current, n, k);
      return current + HEADER;
    }

    /** One side of the coalescing in `kfree`: the header at `b` takes over that at `n`. */
    method Absorb(b: int, n: int)
      requires b in memory && LinksIn(memory, n)
      modifies this`lastBlock, this`memory
      ensures Bare() == HeapMemory.Absorb(old(Bare()), b, n)
    {
      memory := memory[b := memory[b].(size := Trunc32(memory[b].size + memory[n].size + HEADER))];
      memory := memory[b := memory[b].(next := memory[n].next)];
      var after := memory[n].next;
      if after != NULL {
        memory := memory[after := memory[after].(prev := b)];
      } else {
        lastBlock := b;
      }
    }

    /** Coalescing with the following block, if that one is free. */
    method MergeWithNext(block: int)
      requires Traceable(memory, block)
      modifies this`lastBlock, this`memory
      ensures Bare() == JoinNext(old(Bare()), block)
    {
      var next := memory[block].next;
      if next != NULL && memory[next].isFree {
        Absorb(block, next);
      }
    }

    /** Coalescing with the preceding block, if that one is free. */
    method MergeWithPrev(block: int)
      requires LinksIn(memory, block)
      modifies this`lastBlock, this`memory
      ensures Bare() == JoinPrev(old(Bare()), block)
    {
      var prev := memory[block].prev;
      if prev != NULL && memory[prev].isFree {
        Absorb(prev, block);
      }
    }

    /** The part of `kfree` after the checks. */
    method Release(block: int)
      requires Traceable(memory, block)
      modifies this`lastBlock, this`memory, this`freeSize
      ensures Bare() == Freed(old(Bare()), block)
    {
      memory := memory[block := memory[block].(isFree := true)];
      freeSize := freeSize + memory[block].size + HEADER;
      MergeWithNext(block);
      MergeWithPrev(block);
    }

    /** The whole of `kfree`, as it reads and writes memory. */
    method KfreeHeaders(ptr: int)
      requires Readable(memory, ptr)
      modifies this`lastBlock, this`memory, this`freeSize
      ensures Bare() == KfreeRaw(old(Bare()), ptr)
    {
      if ptr == NULL { return; }
      var block := ptr - HEADER;
      if memory[block].magic != HEAP_MAGIC { return; }
      Release(block);
    }

    /** The same, with the list brought up to date where there still is one. */
    method KfreeTracked(ptr: int)
      requires Valid() && Readable(memory, ptr)
      modifies this`lastBlock, this`memory, this`list, this`freeSize
      ensures Outcome(old(Bare()), old(list), ptr, Bare(), list, heapStart, heapEnd)
    {
      ghost var l := KfreePlan(Bare(), list, ptr, heapStart, heapEnd);
      KfreeHeaders(ptr);
      list := l;
    }

    /** The same, in terms of the live blocks. */
    method KfreeBlocks(ptr: int)
      requires Valid() && Readable(memory, ptr)
      modifies this`lastBlock, this`memory, this`list, this`freeSize
      ensures Stable(old(memory), memory)
      ensures Valid() <==> Accepted(old(memory), ptr) ==> LivePtr(old(Contents()).blocks, ptr)
      ensures Valid() && ListedMagic(old(memory), old(list)) ==> ListedMagic(memory, list)
      ensures Valid() && !Accepted(old(memory), ptr) ==> Contents() == old(Contents())
      ensures Valid() && Accepted(old(memory), ptr) ==>
                var bs, b := old(Contents()).blocks, BlockAt(old(memory), ptr - HEADER);
                b in Live(bs) && b.Payload() == ptr && Live(Contents().blocks) == Live(bs) - {b}
    {
      if LivePtr(Contents().blocks, ptr) { LiveBlockAt(memory, list, ptr); }
      KfreeTracked(ptr);
    }

    /** `kfree` of any pointer just behind an intact header, live, free or merged away. With the
        magic number in place the heap stays sound exactly when the block is live. */
    method Kfree(ptr: int)
      requires Valid() && Readable(memory, ptr)
      modifies this`lastBlock, this`memory, this`list, this`freeSize
      ensures Stable(old(memory), memory)
      ensures Valid() <==> Accepted(old(memory), ptr) ==> LivePtr(old(Contents()).blocks, ptr)
      ensures Valid() && ListedMagic(old(memory), old(list)) ==> ListedMagic(memory, list)
      ensures Valid() ==>
                Contents() == if Accepted(old(memory), ptr) then HeapSpec.Kfree(old(Contents()), ptr) else old(Contents())
    {
      ghost var s := Contents();
      KfreeBlocks(ptr);
      if Valid() && Accepted(old(memory), ptr) {
        HeapTheory.ReleasedIs(s, Contents(), heapStart, heapEnd, BlockAt(old(memory), ptr - HEADER));
      }
    }

    /** `kfree` as a careful client calls it. */
    method KfreeLive(ptr: int)
      requires Valid() && ListedMagic(memory, list) && (ptr == NULL || LivePtr(Contents().blocks, ptr))
      modifies this`lastBlock, this`memory, this`list, this`freeSize
      ensures Valid() && ListedMagic(memory, list) && Stable(old(memory), memory)
      ensures Contents() == HeapSpec.Kfree(old(Contents()), ptr)
    {
      if ptr != NULL { ListedReadable(memory, list, ptr); }
      Kfree(ptr);
    }

    /** Any operation of a run, on a heap whose listed headers nobody has overwritten. */
    method Do(op: HeapTheory.Op) returns (ptr: int)
      requires Valid() && ListedMagic(memory, list) && HeapTheory.Legal(Contents(), op)
      modifies this`lastBlock, this`memory, this`list, this`freeSize
      ensures Valid() && ListedMagic(memory, list) && Contents() == HeapTheory.Step(old(Contents()), op)
      ensures op.Malloc? ==> ptr == HeapSpec.Kmalloc(old(Contents()), op.n).1
    {
      match op
      case Malloc(n) => ptr := Kmalloc(n);
      case Free(p) =>
        ptr := NULL;
        KfreeLive(p);
    }

    /** Whatever the heap, releasing what `kmalloc` returned twice leaves it unsound. */
    method DoubleFree(size: nat) returns (ptr: int)
      requires Valid() && ListedMagic(memory, list) && size < U64
      modifies this`lastBlock, this`memory, this`list, this`freeSize
      ensures Valid() <==> ptr == NULL
      ensures ptr == HeapSpec.Kmalloc(old(Contents()), size).1
    {
      ghost var s := Contents();
      ptr := Kmalloc(size);
      if ptr == NULL { return; }
      HeapTheory.MallocFreeRoundTrip(s, heapStart, heapEnd, size);
      HeapTheory.NewPtr(s, heapStart, heapEnd, size);
      KfreeLive(ptr);
      assert Contents() == s;
      ListedPtr(memory, list, ptr);
      Kfree(ptr);
    }

    method HeapStats() returns (total: int, free: int)
      requires Valid()
      ensures free == FreeBytes(Contents().blocks) && total - free == LiveBytes(Contents().blocks)
    {
      HeapTheory.BytesSum(Contents().blocks, heapStart, heapEnd);
      return heapSize, freeSize;
    }
  }
}
